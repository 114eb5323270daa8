/** The maintenance include of cli/maintenance-vhosts.ts: put into the serving block of a vhost, and taken out again. */
module MaintenanceVhosts {
  import opened Outcomes
  import opened Text
  import opened NginxConfig
  import opened NginxInsertion

  const START_MARK := "# clp-addons:maintenance-include:start"
  const END_MARK := "# clp-addons:maintenance-include:end"
  const SETTINGS := "global_settings"
  const SETTINGS_PATH := "/etc/nginx/global_settings"

  datatype VhostError = MalformedMarker | NoServingBlock | UnmanagedInclude

  // ---- The expression that finds an earlier include, scanner by scanner ----

  /** `\r?\n` at `i`. */
  function NewlineAt(s: string, i: nat): (end: Option<nat>)
    ensures end.Some? ==> i < end.value <= |s|
  {
    if OccursAt(s, "\r\n", i) then Some(i + 2)
    else if OccursAt(s, "\n", i) then Some(i + 1)
    else None
  }

  /** The end of `[ \t]*` at `i`. */
  function BlanksEnd(s: string, i: nat): (end: nat)
    requires i <= |s|
    ensures i <= end <= |s|
    ensures forall k :: i <= k < end ==> IsBlank(s[k])
    ensures end < |s| ==> !IsBlank(s[end])
    decreases |s| - i
  {
    if i < |s| && IsBlank(s[i]) then BlanksEnd(s, i + 1) else i
  }

  /** The end of `[^\r\n]*` at `i`. */
  function LineEnd(s: string, i: nat): (end: nat)
    requires i <= |s|
    ensures i <= end <= |s|
    ensures forall k :: i <= k < end ==> s[k] != CR && s[k] != LF
    ensures end < |s| ==> s[end] == CR || s[end] == LF
    decreases |s| - i
  {
    if i < |s| && s[i] != CR && s[i] != LF then LineEnd(s, i + 1) else i
  }

  /** `\r?\n[ \t]*mark` at `i`. */
  function MarkLineEnd(s: string, i: nat, mark: string): (end: Option<nat>)
    ensures end.Some? ==> i + |mark| < end.value <= |s| && OccursAt(s, mark, end.value - |mark|)
  {
    match NewlineAt(s, i)
    case None => None
    case Some(line) =>
      var at := BlanksEnd(s, line);
      if OccursAt(s, mark, at) then Some(at + |mark|) else None
  }

  /** `[^\r\n]+;` up to the end of the line: the line break that follows leaves it one way to match. */
  function StatementEnd(s: string, i: nat): (end: Option<nat>)
    requires i <= |s|
    ensures end.Some? ==> i < end.value <= |s|
  {
    var end := LineEnd(s, i);
    if end >= i + 2 && s[end - 1] == ';' then Some(end) else None
  }

  /** The whole expression at `i`. */
  function IncludeAt(s: string, i: nat): (end: Option<nat>)
    requires i <= |s|
    ensures end.Some? ==> i < end.value <= |s|
  {
    match MarkLineEnd(s, i, START_MARK) case None => None case Some(mark) =>
    match MarkLineEnd(s, mark, "include ") case None => None case Some(word) =>
    match StatementEnd(s, word) case None => None case Some(statement) =>
    match MarkLineEnd(s, statement, END_MARK) case None => None case Some(last) =>
    NewlineAt(s, BlanksEnd(s, last))
  }

  /** The text from `i` on, without the includes the expression finds. */
  function CleanFrom(s: string, i: nat): string
    requires i <= |s|
    decreases |s| - i
  {
    if i == |s| then ""
    else match IncludeAt(s, i)
      case Some(end) => CleanFrom(s, end)
      case None => [s[i]] + CleanFrom(s, i + 1)
  }

  function Clean(s: string): string {
    CleanFrom(s, 0)
  }

  // ---- The serving block ----

  function Select(bs: seq<Block>, keep: Block -> bool): (kept: seq<Block>)
    ensures forall b :: b in kept ==> b in bs && keep(b)
  {
    if bs == [] then [] else (if keep(bs[0]) then [bs[0]] else []) + Select(bs[1..], keep)
  }

  /** `words` name the domain, or leave the name to CloudPanel. */
  function Names(domain: string): seq<string> -> bool {
    (words: seq<string>) => |words| >= 2 && words[0] == "server_name" && (words[1] == domain || words[1] == "{{server_name}}")
  }

  predicate Redirects(words: seq<string>) {
    |words| >= 2 && words[0] == "return" && words[1] in ["301", "302", "307", "308"]
  }

  /** `listen` on port 8080, with or without an address. */
  predicate ListensBackend(words: seq<string>) {
    && |words| >= 2 && words[0] == "listen"
    && (words[1] == "8080"
        || (EndsWith(words[1], ":8080") && forall i :: 0 <= i < |words[1]| - 5 ==> !IsLineTerminator(words[1][i])))
  }

  predicate HasDirective(b: Block, test: seq<string> -> bool) {
    exists i :: 0 <= i < |b.directives| && test(b.directives[i].words)
  }

  predicate IsCandidate(b: Block, domain: string) {
    HasDirective(b, Names(domain)) && !HasDirective(b, Redirects)
  }

  predicate IsBackend(b: Block) {
    HasDirective(b, ListensBackend)
  }

  function ServingOf(servers: seq<Block>, domain: string): (r: Result<Block, VhostError>)
    ensures r.Ok? ==> r.value in servers
  {
    var candidates := Select(servers, b => IsCandidate(b, domain));
    var backends := Select(candidates, b => IsBackend(b));
    var selected := if backends != [] then backends else candidates;
    if |selected| != 1 then Err(NoServingBlock) else Ok(selected[0])
  }

  function ServingBlock(content: string, domain: string): (r: Result<Block, VhostError>)
    ensures r.Ok? ==> 0 < r.value.open <= |content|
  {
    match Servers(content)
    case Err(_) => Err(NoServingBlock)
    case Ok(servers) =>
      var r := ServingOf(servers, domain);
      assert r.Ok? ==> 0 < r.value.open <= |content| by {
        if r.Ok? {
          ServerOpens(content, r.value);
        }
      }
      r
  }

  predicate Includes(b: Block, path: string) {
    exists i :: 0 <= i < |b.directives|
      && |b.directives[i].words| >= 2 && b.directives[i].words[0] == "include" && b.directives[i].words[1] == path
  }

  predicate OptedOut(content: string) {
    Contains(content, SETTINGS)
  }

  // ---- On and off ----

  function IncludeText(newline: string, path: string): string {
    newline + "  " + START_MARK + newline + "  include " + path + ";" + newline + "  " + END_MARK + newline
  }

  function NewlineOf(content: string): string {
    if Contains(content, "\r\n") then "\r\n" else "\n"
  }

  function Transform(content: string, domain: string, enabled: bool, path: string): Result<string, VhostError> {
    var clean := Clean(content);
    if Contains(clean, START_MARK) || Contains(clean, END_MARK) then Err(MalformedMarker)
    else if !enabled || OptedOut(clean) then Ok(clean)
    else match ServingBlock(clean, domain)
      case Err(e) => Err(e)
      case Ok(block) =>
        if Includes(block, path) then Err(UnmanagedInclude)
        else Ok(clean[..block.open] + IncludeText(NewlineOf(clean), path) + clean[block.open..])
  }

  // ---- Every site at once ----

  datatype SiteRow = SiteRow(domain: string, template: string)

  /** A new content for the vhost of a domain. */
  datatype Change = Change(domain: string, content: string)

  datatype Staged = Staged(template: string, change: Option<Change>)

  /** One site: its stored template and its vhost, when it has one, or nothing when either cannot take the include. */
  function StagedSite(site: SiteRow, vhosts: map<string, string>, valid: string -> bool, enabled: bool, path: string): Option<Staged> {
    if !valid(site.domain) then None
    else match Transform(site.template, site.domain, enabled, path)
      case Err(_) => None
      case Ok(template) =>
        if site.domain !in vhosts then Some(Staged(template, None))
        else match Transform(vhosts[site.domain], site.domain, enabled, path)
          case Err(_) => None
          case Ok(content) =>
            Some(Staged(template, if content != vhosts[site.domain] then Some(Change(site.domain, content)) else None))
  }

  /** The vhosts once the changes are written. */
  function Written(vhosts: map<string, string>, changes: seq<Change>): map<string, string> {
    if changes == [] then vhosts
    else Written(vhosts, changes[..|changes| - 1])[changes[|changes| - 1].domain := changes[|changes| - 1].content]
  }

  lemma WrittenOne(vhosts: map<string, string>, changes: seq<Change>, c: Change)
    ensures Written(vhosts, changes + [c]) == Written(vhosts, changes)[c.domain := c.content]
  {
    assert (changes + [c])[..|changes|] == changes;
  }

  predicate DistinctDomains(sites: seq<SiteRow>) {
    forall i, j :: 0 <= i < j < |sites| ==> sites[i].domain != sites[j].domain
  }

  /** The stored template of one site afterwards. */
  function TemplateAfter(site: SiteRow, vhosts: map<string, string>, valid: string -> bool, enabled: bool, path: string): string {
    match StagedSite(site, vhosts, valid, enabled, path)
    case None => site.template
    case Some(staged) => staged.template
  }

  /** The vhost of one site afterwards. */
  function VhostAfter(site: SiteRow, vhosts: map<string, string>, valid: string -> bool, enabled: bool, path: string): string
    requires site.domain in vhosts
  {
    match StagedSite(site, vhosts, valid, enabled, path)
    case Some(Staged(_, Some(change))) => change.content
    case _ => vhosts[site.domain]
  }

  /** The first `k` sites have their vhost afterwards, and no other vhost changed. */
  ghost predicate VhostsDone(sites: seq<SiteRow>, k: nat, vhosts: map<string, string>, valid: string -> bool, enabled: bool, path: string,
                             after: map<string, string>)
    requires k <= |sites|
  {
    && after.Keys == vhosts.Keys
    && (forall i :: 0 <= i < k && sites[i].domain in vhosts ==>
          after[sites[i].domain] == VhostAfter(sites[i], vhosts, valid, enabled, path))
    && (forall d :: d in vhosts && (forall i :: 0 <= i < k ==> sites[i].domain != d) ==> after[d] == vhosts[d])
  }

  /** The first `k` rows hold their template afterwards. */
  ghost predicate RowsDone(sites: seq<SiteRow>, k: nat, vhosts: map<string, string>, valid: string -> bool, enabled: bool, path: string,
                           rows: seq<SiteRow>)
    requires k <= |sites|
  {
    && |rows| == k
    && forall i :: 0 <= i < k ==> rows[i] == SiteRow(sites[i].domain, TemplateAfter(sites[i], vhosts, valid, enabled, path))
  }

  /** Only vhosts that change are written. */
  ghost predicate NoneIdle(vhosts: map<string, string>, changes: seq<Change>) {
    forall i :: 0 <= i < |changes| ==> changes[i].domain in vhosts && changes[i].content != vhosts[changes[i].domain]
  }

  /** The loop over the panel's sites: the vhosts to write, and the rows with their new templates. */
  method StageMaintenanceVhosts(sites: seq<SiteRow>, vhosts: map<string, string>, valid: string -> bool, enabled: bool, path: string)
    returns (changes: seq<Change>, rows: seq<SiteRow>)
    requires DistinctDomains(sites)
    ensures RowsDone(sites, |sites|, vhosts, valid, enabled, path, rows)
    ensures VhostsDone(sites, |sites|, vhosts, valid, enabled, path, Written(vhosts, changes))
    ensures NoneIdle(vhosts, changes)
  {
    hide StagedSite, Written, VhostsDone, RowsDone, NoneIdle;
    changes, rows := [], [];
    NothingDone(sites, vhosts, valid, enabled, path);
    for k := 0 to |sites|
      invariant RowsDone(sites, k, vhosts, valid, enabled, path, rows)
      invariant VhostsDone(sites, k, vhosts, valid, enabled, path, Written(vhosts, changes))
      invariant NoneIdle(vhosts, changes)
    {
      var site := sites[k];
      var staged := StagedSite(site, vhosts, valid, enabled, path);
      SiteDone(sites, k, vhosts, valid, enabled, path, changes, rows);
      StagedNotIdle(site, vhosts, valid, enabled, path, changes);
      if staged.Some? && staged.value.change.Some? {
        changes := changes + [staged.value.change.value];
      }
      if staged.Some? && staged.value.template != site.template {
        rows := rows + [SiteRow(site.domain, staged.value.template)];
      } else {
        rows := rows + [site];
      }
    }
  }

  lemma NothingDone(sites: seq<SiteRow>, vhosts: map<string, string>, valid: string -> bool, enabled: bool, path: string)
    ensures RowsDone(sites, 0, vhosts, valid, enabled, path, [])
    ensures VhostsDone(sites, 0, vhosts, valid, enabled, path, Written(vhosts, []))
    ensures NoneIdle(vhosts, [])
  {
  }

  lemma SiteDone(sites: seq<SiteRow>, k: nat, vhosts: map<string, string>, valid: string -> bool, enabled: bool, path: string,
                 changes: seq<Change>, rows: seq<SiteRow>)
    requires DistinctDomains(sites) && k < |sites|
    requires RowsDone(sites, k, vhosts, valid, enabled, path, rows)
    requires VhostsDone(sites, k, vhosts, valid, enabled, path, Written(vhosts, changes))
    ensures
      var site := sites[k];
      var staged := StagedSite(site, vhosts, valid, enabled, path);
      var template := if staged.Some? && staged.value.template != site.template then staged.value.template else site.template;
      var changes' := if staged.Some? && staged.value.change.Some? then changes + [staged.value.change.value] else changes;
      && RowsDone(sites, k + 1, vhosts, valid, enabled, path, rows + [SiteRow(site.domain, template)])
      && VhostsDone(sites, k + 1, vhosts, valid, enabled, path, Written(vhosts, changes'))
  {
    hide StagedSite, Written;
    var site := sites[k];
    var staged := StagedSite(site, vhosts, valid, enabled, path);
    if staged.Some? && staged.value.change.Some? {
      StagedDomain(site, vhosts, valid, enabled, path);
      WrittenOne(vhosts, changes, staged.value.change.value);
    }
  }

  lemma StagedNotIdle(site: SiteRow, vhosts: map<string, string>, valid: string -> bool, enabled: bool, path: string, changes: seq<Change>)
    requires NoneIdle(vhosts, changes)
    ensures
      var staged := StagedSite(site, vhosts, valid, enabled, path);
      staged.Some? && staged.value.change.Some? ==> NoneIdle(vhosts, changes + [staged.value.change.value])
  {
    hide StagedSite;
    StagedDomain(site, vhosts, valid, enabled, path);
  }

  lemma StagedDomain(site: SiteRow, vhosts: map<string, string>, valid: string -> bool, enabled: bool, path: string)
    ensures var staged := StagedSite(site, vhosts, valid, enabled, path);
      staged.Some? && staged.value.change.Some? ==>
        && staged.value.change.value.domain == site.domain && site.domain in vhosts
        && staged.value.change.value.content != vhosts[site.domain]
  {
    hide Transform;
  }

  // ---- What status reports ----

  datatype Gap = NoVhost | OptsOut | NotIncluded | NoSingleBlock

  /** Why Nginx runs no maintenance check for a site, or nothing when it does. */
  function SiteGap(site: SiteRow, vhosts: map<string, string>, valid: string -> bool, path: string, settingsMissing: bool): Option<Gap> {
    if !valid(site.domain) || site.domain !in vhosts then Some(NoVhost)
    else
      var rendered := vhosts[site.domain];
      if OptedOut(rendered) && !Contains(rendered, "include " + SETTINGS_PATH) then Some(OptsOut)
      else match ServingBlock(rendered, site.domain)
        case Err(_) => Some(NoSingleBlock)
        case Ok(block) =>
          if !Covered(block, path, settingsMissing) then Some(NotIncluded)
          else match ServingBlock(site.template, site.domain)
            case Err(_) => Some(NoSingleBlock)
            case Ok(stored) => if Covered(stored, path, settingsMissing) then None else Some(NotIncluded)
  }

  predicate Covered(b: Block, path: string, settingsMissing: bool) {
    var viaSettings := Includes(b, SETTINGS_PATH);
    if settingsMissing then !viaSettings && Includes(b, path) else viaSettings != Includes(b, path)
  }
}
