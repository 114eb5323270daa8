/** The Cloudflare-only policy of addons/cloudflare-ips/action.ts: sites turned on and off, and new ones turned on. */
module CloudflareIps {
  import opened Outcomes
  import opened NginxTransaction

  datatype Policy = Policy(auto: bool, known: set<int>, excluded: set<string>)

  const EMPTY := Policy(false, {}, {})

  // ---- What the actions come to ----

  /** A policy as it is written and read: positive ids and valid domains only. */
  function Stable(p: Policy, valid: string -> bool): Policy {
    Policy(p.auto, set id | id in p.known && id > 0, set d | d in p.excluded && valid(d))
  }

  function Read(file: Option<Policy>, valid: string -> bool): Policy {
    match file
    case None => EMPTY
    case Some(p) => Stable(p, valid)
  }

  function Ids(rows: Rows): set<int> {
    set d | d in rows :: rows[d].id
  }

  function Of(domains: seq<string>): set<string> {
    set d | d in domains
  }

  function WithFlag(rows: Rows, domains: set<string>, enabled: bool): (after: Rows)
    ensures after.Keys == rows.Keys
  {
    map d | d in rows :: if d in domains then rows[d].(cloudflare := enabled) else rows[d]
  }

  function SelectedPolicy(p: Policy, rows: Rows, domains: seq<string>, enabled: bool): Policy {
    Policy(p.auto,
           p.known + (set d | d in rows && d in domains :: rows[d].id),
           if enabled then p.excluded - Of(domains) else p.excluded + Of(domains))
  }

  /** The sites a pass turns on: not known, not excluded and not on yet. */
  function ToEnable(p: Policy, rows: Rows): set<string> {
    set d | d in rows && rows[d].id !in p.known && d !in p.excluded && !rows[d].cloudflare
  }

  /** The policy after a pass that failed for some domains. */
  function PassedPolicy(p: Policy, rows: Rows, failed: set<string>): Policy {
    var failedIds := set d | d in rows && d in failed :: rows[d].id;
    p.(known := set d | d in rows && rows[d].id !in failedIds :: rows[d].id)
  }

  function VhostPath(domain: string): string {
    domain + ".conf"
  }

  /** The vhost of a site with the Cloudflare rules on or off, or nothing when they cannot be placed. */
  type Transformer = (string, string, bool) -> Option<string>

  predicate CanUpdate(files: Files, rows: Rows, domain: string, enabled: bool, valid: string -> bool, transform: Transformer) {
    && domain in rows && valid(domain) && VhostPath(domain) in files
    && transform(files[VhostPath(domain)].content, rows[domain].user, enabled).Some?
  }

  function VhostChange(files: Files, rows: Rows, domain: string, enabled: bool, transform: Transformer): Change
    requires domain in rows && VhostPath(domain) in files
  {
    NginxFileChange(files, VhostPath(domain), transform(files[VhostPath(domain)].content, rows[domain].user, enabled), 0, 0)
  }

  /** The stage of one update: every domain can take it, or nothing is staged. */
  function UpdateStage(files: Files, rows: Rows, domains: seq<string>, enabled: bool, valid: string -> bool, transform: Transformer): (s: Stage)
    ensures forall i :: 0 <= i < |s.changes| ==> Truthful(files, s.changes[i].backup)
  {
    if exists i :: 0 <= i < |domains| && !CanUpdate(files, rows, domains[i], enabled, valid, transform) then Stage([], rows, 0, true)
    else
      Stage(seq(|domains|, i requires 0 <= i < |domains| => VhostChange(files, rows, domains[i], enabled, transform)),
            WithFlag(rows, Of(domains), enabled), |domains|, false)
  }

  /** The domain whose vhost a path is. */
  function DomainOf(path: string): Option<string> {
    if |path| >= 5 && path[|path| - 5..] == ".conf" then Some(path[..|path| - 5]) else None
  }

  /** One file once the vhosts of the domains are transformed: only its content changes, and only in such a vhost. */
  function FileSet(file: File, rows: Rows, domains: set<string>, enabled: bool, transform: Transformer, path: string): File {
    match DomainOf(path)
    case None => file
    case Some(d) =>
      if d in domains && d in rows && transform(file.content, rows[d].user, enabled).Some?
      then file.(content := transform(file.content, rows[d].user, enabled).value)
      else file
  }

  function VhostsSet(files: Files, rows: Rows, domains: set<string>, enabled: bool, transform: Transformer): (after: Files)
    ensures after.Keys == files.Keys
  {
    map path | path in files :: FileSet(files[path], rows, domains, enabled, transform, path)
  }

  /** The vhost of each domain has its transformed content, with owner and mode as they were. */
  lemma VhostIsSet(files: Files, rows: Rows, domains: set<string>, d: string, enabled: bool, valid: string -> bool, transform: Transformer)
    requires d in domains && CanUpdate(files, rows, d, enabled, valid, transform)
    ensures
      var path := VhostPath(d);
      VhostsSet(files, rows, domains, enabled, transform)[path]
        == files[path].(content := transform(files[path].content, rows[d].user, enabled).value)
  {
    DomainOfVhost(d);
  }

  /** No other file is changed. */
  lemma OthersAreKept(files: Files, rows: Rows, domains: set<string>, path: string, enabled: bool, transform: Transformer)
    requires path in files && forall d :: d in domains ==> path != VhostPath(d)
    ensures VhostsSet(files, rows, domains, enabled, transform)[path] == files[path]
  {
    if DomainOf(path).Some? {
      VhostOfDomain(path);
    }
  }

  lemma DomainOfVhost(d: string)
    ensures DomainOf(VhostPath(d)) == Some(d)
  {
    var path := d + ".conf";
    assert path[|path| - 5..] == ".conf" && path[..|path| - 5] == d;
  }

  lemma VhostOfDomain(path: string)
    requires DomainOf(path).Some?
    ensures VhostPath(DomainOf(path).value) == path
  {
    assert path == path[..|path| - 5] + path[|path| - 5..];
  }

  /** Setting one more domain sets its vhost. */
  lemma OneMoreSet(files: Files, rows: Rows, domains: set<string>, d: string, enabled: bool, valid: string -> bool, transform: Transformer)
    requires CanUpdate(files, rows, d, enabled, valid, transform)
    ensures
      var path := VhostPath(d);
      VhostsSet(files, rows, domains + {d}, enabled, transform)
        == VhostsSet(files, rows, domains, enabled, transform)
             [path := files[path].(content := transform(files[path].content, rows[d].user, enabled).value)]
  {
    DomainOfVhost(d);
    forall path | path in files && path != VhostPath(d)
      ensures FileSet(files[path], rows, domains + {d}, enabled, transform, path) == FileSet(files[path], rows, domains, enabled, transform, path)
    {
      if DomainOf(path) == Some(d) {
        VhostOfDomain(path);
      }
    }
  }

  /** Whatever became of the vhosts of the domains, every other file is as it was. */
  ghost predicate OthersStay(files: Files, before: Files, domains: set<string>) {
    forall path :: SameAt(files, before, path) || exists d :: d in domains && path == VhostPath(d)
  }

  lemma SetOthersStay(files: Files, rows: Rows, domains: set<string>, enabled: bool, transform: Transformer)
    ensures OthersStay(VhostsSet(files, rows, domains, enabled, transform), files, domains)
  {
    hide VhostsSet;
    var after := VhostsSet(files, rows, domains, enabled, transform);
    assert after.Keys == files.Keys;
    forall path | path in files && forall d :: d in domains ==> path != VhostPath(d)
      ensures after[path] == files[path]
    {
      OthersAreKept(files, rows, domains, path, enabled, transform);
    }
  }

  /** Only vhosts of the domains are staged. */
  lemma StagedOthersStay(files: Files, before: Files, rows: Rows, domains: seq<string>, enabled: bool, valid: string -> bool, transform: Transformer)
    requires SameOutside(files, before, Touched(UpdateStage(before, rows, domains, enabled, valid, transform).changes))
    ensures OthersStay(files, before, Of(domains))
  {
    hide Touched, VhostChange, CanUpdate, WithFlag, BackedUp, UpdateStage;
    var changes := UpdateStage(before, rows, domains, enabled, valid, transform).changes;
    forall path | BackedUp(Touched(changes), path)
      ensures exists d :: d in Of(domains) && path == VhostPath(d)
    {
      var i := TouchedIsStaged(changes, path);
      StagedPath(before, rows, domains, enabled, valid, transform, i);
    }
  }

  lemma StagedPath(files: Files, rows: Rows, domains: seq<string>, enabled: bool, valid: string -> bool, transform: Transformer, i: nat)
    requires i < |UpdateStage(files, rows, domains, enabled, valid, transform).changes|
    ensures i < |domains| && domains[i] in Of(domains)
    ensures UpdateStage(files, rows, domains, enabled, valid, transform).changes[i].backup.path == VhostPath(domains[i])
  {
    hide CanUpdate, WithFlag;
  }

  lemma {:induction false} TouchedIsStaged(changes: seq<Change>, path: string) returns (i: nat)
    requires BackedUp(Touched(changes), path)
    ensures i < |changes| && changes[i].backup.path == path
  {
    var k := |changes| - 1;
    if Effective(changes[k]) && changes[k].backup.path == path {
      i := k;
    } else {
      BackedUpSplit(changes, path);
      i := TouchedIsStaged(changes[..k], path);
    }
  }

  lemma BackedUpSplit(changes: seq<Change>, path: string)
    requires changes != [] && BackedUp(Touched(changes), path)
    requires !(Effective(changes[|changes| - 1]) && changes[|changes| - 1].backup.path == path)
    ensures BackedUp(Touched(changes[..|changes| - 1]), path)
  {
    hide BackedUp;
    var k := |changes| - 1;
    if Effective(changes[k]) {
      BackedUpLast(Touched(changes[..k]), changes[k].backup, path);
    } else {
      assert Touched(changes) == Touched(changes[..k]);
    }
  }

  lemma OthersStayOn(files: Files, before: Files, first: Files, some: set<string>, more: set<string>)
    requires OthersStay(first, before, some) && OthersStay(files, first, more)
    ensures OthersStay(files, before, some + more)
  {
    forall path | forall d :: d in some + more ==> path != VhostPath(d)
      ensures SameAt(files, before, path)
    {
      assert SameAt(first, before, path) && SameAt(files, first, path);
    }
  }

  lemma AllStay(files: Files, domains: set<string>)
    ensures OthersStay(files, files, domains) && BackButFor(files, files, [])
  {
  }

  lemma VhostStays(files: Files, before: Files, domains: set<string>, d: string)
    requires OthersStay(files, before, domains) && d !in domains
    ensures SameAt(files, before, VhostPath(d))
  {
    hide SameAt;
    forall e | e in domains
      ensures VhostPath(e) != VhostPath(d)
    {
      DomainOfVhost(d);
      DomainOfVhost(e);
    }
  }

  lemma NoneSet(files: Files, rows: Rows, enabled: bool, transform: Transformer)
    ensures VhostsSet(files, rows, {}, enabled, transform) == files
  {
  }

  ghost predicate Stages(files: Files, rows: Rows, d: string, enabled: bool, valid: string -> bool, transform: Transformer, c: Change) {
    CanUpdate(files, rows, d, enabled, valid, transform) && c == VhostChange(files, rows, d, enabled, transform)
  }

  /** What is staged for the domains, one change for each, sets their vhosts. */
  lemma {:induction false} StagedIsSet(files: Files, rows: Rows, domains: seq<string>, changes: seq<Change>, enabled: bool,
                                       valid: string -> bool, transform: Transformer)
    requires |changes| == |domains|
    requires forall i :: 0 <= i < |domains| ==> Stages(files, rows, domains[i], enabled, valid, transform, changes[i])
    ensures Applied(files, changes) == VhostsSet(files, rows, Of(domains), enabled, transform)
  {
    hide Stages, VhostsSet, Put;
    if domains == [] {
      NoneSet(files, rows, enabled, transform);
      assert Of(domains) == {};
    } else {
      var k := |domains| - 1;
      var d, c := domains[k], changes[k];
      StagedIsSet(files, rows, domains[..k], changes[..k], enabled, valid, transform);
      assert Of(domains) == Of(domains[..k]) + {d};
      assert Stages(files, rows, d, enabled, valid, transform, c);
      ChangePut(files, rows, Of(domains[..k]), d, enabled, valid, transform, c);
    }
  }

  /** Putting the change to a vhost sets it; a change that is skipped would have set it to what is there. */
  lemma ChangePut(files: Files, rows: Rows, domains: set<string>, d: string, enabled: bool, valid: string -> bool, transform: Transformer, c: Change)
    requires Stages(files, rows, d, enabled, valid, transform, c)
    ensures
      var before := VhostsSet(files, rows, domains, enabled, transform);
      (if Effective(c) then Put(before, c.backup, c.content) else before) == VhostsSet(files, rows, domains + {d}, enabled, transform)
  {
    DomainOfVhost(d);
    OneMoreSet(files, rows, domains, d, enabled, valid, transform);
  }

  /** Sites turned on one after the other, each with the rows the earlier ones left. */
  lemma MoreSet(files: Files, rows: Rows, on: set<string>, d: string, transform: Transformer)
    requires d !in on
    ensures VhostsSet(VhostsSet(files, rows, on, true, transform), WithFlag(rows, on, true), {d}, true, transform)
         == VhostsSet(files, rows, on + {d}, true, transform)
  {
  }

  /** Nothing but the domain's own vhost decides whether it can be updated: turning others on does not. */
  lemma StillCanUpdate(files: Files, rows: Rows, on: set<string>, d: string, valid: string -> bool, transform: Transformer)
    requires d !in on
    ensures
      var still := CanUpdate(VhostsSet(files, rows, on, true, transform), WithFlag(rows, on, true), d, true, valid, transform);
      still <==> CanUpdate(files, rows, d, true, valid, transform)
  {
    DomainOfVhost(d);
  }

  ghost predicate AllCan(files: Files, rows: Rows, domains: seq<string>, enabled: bool, valid: string -> bool, transform: Transformer) {
    forall d :: d in domains ==> CanUpdate(files, rows, d, enabled, valid, transform)
  }

  /** Every domain can be updated, and Nginx accepts the vhosts that gives. */
  ghost predicate CanSet(files: Files, rows: Rows, domains: seq<string>, enabled: bool, valid: string -> bool, transform: Transformer,
                         accepts: Files -> bool)
  {
    AllCan(files, rows, domains, enabled, valid, transform) && accepts(VhostsSet(files, rows, Of(domains), enabled, transform))
  }

  // ---- A pass, one site after the other ----

  ghost predicate Lists(list: seq<string>, rows: Rows) {
    && (forall d :: d in list <==> d in rows)
    && (forall i, j :: 0 <= i < j < |list| ==> list[i] != list[j])
  }

  /** The members of the list that are in the set, in their order. */
  function Among(list: seq<string>, wanted: set<string>): seq<string> {
    if list == [] then []
    else
      var d := list[|list| - 1];
      Among(list[..|list| - 1], wanted) + (if d in wanted then [d] else [])
  }

  lemma {:induction false} AmongMeans(list: seq<string>, wanted: set<string>)
    requires forall i, j :: 0 <= i < j < |list| ==> list[i] != list[j]
    ensures forall d :: d in Among(list, wanted) <==> d in list && d in wanted
    ensures forall i, j :: 0 <= i < j < |Among(list, wanted)| ==> Among(list, wanted)[i] != Among(list, wanted)[j]
  {
    if list != [] {
      AmongMeans(list[..|list| - 1], wanted);
      assert list == list[..|list| - 1] + [list[|list| - 1]];
    }
  }

  /** The domain can be updated, and Nginx accepts its vhost beside those turned on before it. */
  ghost predicate Takes(files: Files, rows: Rows, on: set<string>, d: string, valid: string -> bool, transform: Transformer, accepts: Files -> bool) {
    CanUpdate(files, rows, d, true, valid, transform) && accepts(VhostsSet(files, rows, on + {d}, true, transform))
  }

  /** The domains of the list that are turned on when nothing fails by chance. */
  ghost function TurnedOn(files: Files, rows: Rows, list: seq<string>, valid: string -> bool, transform: Transformer, accepts: Files -> bool): set<string> {
    if list == [] then {}
    else
      var d := list[|list| - 1];
      var on := TurnedOn(files, rows, list[..|list| - 1], valid, transform, accepts);
      if Takes(files, rows, on, d, valid, transform, accepts) then on + {d} else on
  }

  /** Whichever of these sites are turned on, Nginx accepts the vhosts. */
  ghost predicate AcceptsAny(files: Files, rows: Rows, wanted: set<string>, transform: Transformer, accepts: Files -> bool) {
    forall on :: on <= wanted ==> accepts(VhostsSet(files, rows, on, true, transform))
  }

  /** A vhost that cannot take the change fails alone: where Nginx does not mind, every other site is turned on. */
  lemma {:induction false} FailsAlone(files: Files, rows: Rows, list: seq<string>, wanted: set<string>, valid: string -> bool,
                                      transform: Transformer, accepts: Files -> bool)
    requires AcceptsAny(files, rows, wanted, transform, accepts) && Of(list) <= wanted
    ensures forall d ::
      (d in TurnedOn(files, rows, list, valid, transform, accepts) <==> d in list && CanUpdate(files, rows, d, true, valid, transform))
  {
    hide CanUpdate, VhostsSet;
    if list != [] {
      var front, d := list[..|list| - 1], list[|list| - 1];
      assert Of(front) <= Of(list);
      FailsAlone(files, rows, front, wanted, valid, transform, accepts);
      var on := TurnedOn(files, rows, front, valid, transform, accepts);
      assert on + {d} <= wanted;
    }
  }

  /** With the automation on, the rows of exactly those sites changed that were not known, may be on, were off, and did not fail. */
  ghost predicate OnlyNewChanged(p: Policy, before: Rows, rows: Rows, failed: set<string>) {
    && rows.Keys == before.Keys
    && forall d :: d in before ==>
         (rows[d] != before[d] <==>
            p.auto && before[d].id !in p.known && d !in p.excluded && !before[d].cloudflare && d !in failed)
  }

  /** A site that was known, or is to stay off, or was on, kept its vhost, whatever failed. */
  ghost predicate OldKept(p: Policy, sites: Rows, before: Files, files: Files) {
    forall d :: d in sites && (!p.auto || sites[d].id in p.known || d in p.excluded || sites[d].cloudflare) ==>
      SameAt(files, before, VhostPath(d))
  }

  lemma OldAreKept(p: Policy, sites: Rows, before: Files, files: Files)
    requires OthersStay(files, before, ToEnable(p, sites)) && p.auto
    ensures OldKept(p, sites, before, files)
  {
    hide SameAt, OthersStay;
    forall d | d in sites && d !in ToEnable(p, sites)
      ensures SameAt(files, before, VhostPath(d))
    {
      VhostStays(files, before, ToEnable(p, sites), d);
    }
  }

  lemma NewAreChanged(p: Policy, rows: Rows, failed: set<string>)
    requires p.auto
    ensures OnlyNewChanged(p, rows, WithFlag(rows, ToEnable(p, rows) - failed, true), failed)
  {
  }

  lemma NothingChanged(p: Policy, rows: Rows, files: Files)
    requires !p.auto
    ensures OnlyNewChanged(p, rows, rows, {}) && OldKept(p, rows, files, files)
  {
  }

  // ---- The actions as steps ----

  datatype State = State(file: Option<Policy>, rows: Rows)

  /** What can happen to policy and rows: the actions, with the sites a pass failed for, a set whose policy could not be
    * put back after it failed, and the panel's own changes. */
  datatype Step =
    | SetDomains(domains: seq<string>, enabled: bool)
    | SetPolicyOnly(domains: seq<string>, enabled: bool)
    | SetAuto(enabled: bool)
    | Pass(failed: set<string>, written: bool)
    | Panel(rows: Rows)
    | Nothing

  function Next(s: State, step: Step, valid: string -> bool): State {
    var p := Read(s.file, valid);
    match step
    case SetDomains(domains, enabled) =>
      State(Some(Stable(SelectedPolicy(p, s.rows, domains, enabled), valid)), WithFlag(s.rows, Of(domains), enabled))
    case SetPolicyOnly(domains, enabled) =>
      s.(file := Some(Stable(SelectedPolicy(p, s.rows, domains, enabled), valid)))
    case SetAuto(enabled) =>
      s.(file := Some(Stable(p.(auto := enabled, known := if enabled then Ids(s.rows) else p.known), valid)))
    case Pass(failed, written) =>
      if !p.auto then s
      else State(if written && Stable(PassedPolicy(p, s.rows, failed), valid) != p
                 then Some(Stable(PassedPolicy(p, s.rows, failed), valid)) else s.file,
                 WithFlag(s.rows, ToEnable(p, s.rows) - failed, true))
    case Panel(rows) => s.(rows := rows)
    case Nothing => s
  }

  // ---- The actions ----

  datatype Update = Updated | NotUpdated(failures: seq<Failure>)

  datatype SetResult = SetDone | SetFailed(failures: seq<Failure>, policyLost: bool)

  /** The sites a pass failed for, and what could not be put back after those failures. */
  datatype PassResult = PassDone(failed: set<string>, failures: seq<Failure>) | PassFailed(failed: set<string>, failures: seq<Failure>)

  class Cloudflare {
    const host: Host
    const valid: string -> bool
    const transform: Transformer
    /** The order in which the database lists its sites. */
    const listing: Rows -> seq<string>
    /** The policy file, when there is one. */
    var file: Option<Policy>

    constructor (host: Host, valid: string -> bool, transform: Transformer, listing: Rows -> seq<string>, file: Option<Policy>)
      ensures this.host == host && this.valid == valid && this.transform == transform && this.listing == listing && this.file == file
    {
      this.host, this.valid, this.transform, this.listing, this.file := host, valid, transform, listing, file;
    }

    ghost predicate Idle()
      reads this, host
    {
      !host.open && host.working == host.committed && OnlyTestedReloads(host.trace)
    }

    /** Policy and rows as they stand. */
    function Now(): State
      reads this, host
    {
      State(file, host.committed)
    }

    method WritePolicy(p: Policy) returns (ok: bool)
      modifies this`file, host`clock
      ensures file == if ok then Some(Stable(p, valid)) else old(file)
      ensures ok == !host.fails(old(host.clock)) && host.clock == old(host.clock) + 1
      ensures host.Failed() == old(host.Failed()) + (if ok then 0 else 1)
    {
      ok := host.Tick();
      if ok {
        file := Some(Stable(p, valid));
      }
    }

    ghost predicate Settable(files: Files, rows: Rows, domains: seq<string>, enabled: bool) {
      CanSet(files, rows, domains, enabled, valid, transform, host.accepts)
    }

    /**
     * Updates rows and vhosts of the domains, testing and reloading once. It is done exactly when every domain can be updated,
     * Nginx accepts the result and no operation fails; and a single fault leaves everything as it was.
     */
    method UpdateSites(domains: seq<string>, enabled: bool) returns (r: Update)
      requires Idle()
      modifies host
      ensures Idle()
      ensures r.Updated? ==>
        && host.committed == WithFlag(old(host.committed), Of(domains), enabled)
        && host.files == VhostsSet(old(host.files), old(host.committed), Of(domains), enabled, transform)
        && host.running == host.files && host.accepts(host.files)
      ensures r.NotUpdated? ==> host.committed == old(host.committed) && BackButFor(host.files, old(host.files), r.failures)
      ensures OthersStay(host.files, old(host.files), Of(domains))
      ensures r == NotUpdated([]) ==>
        host.files == old(host.files) && (host.running == old(host.running) || host.running == old(host.files))
      ensures host.Failed() >= old(host.Failed()) && host.clock >= old(host.clock)
      ensures r.Updated? <==>
        host.Failed() == old(host.Failed()) && Settable(old(host.files), old(host.committed), domains, enabled)
      ensures
        var causes := if Settable(old(host.files), old(host.committed), domains, enabled) then 1 else 0;
        r.NotUpdated? && host.Failed() <= old(host.Failed()) + causes ==>
          host.files == old(host.files) && (host.accepts(old(host.files)) ==> r.failures == [])
    {
      hide OnlyTestedReloads, Applied, Touched, UpdateStage, VhostsSet, CanUpdate, WithFlag, Host.Faults, Settable;
      hide BackButFor, SameOutside, OthersStay;
      var stage := UpdateStage(host.files, host.committed, domains, enabled, valid, transform);
      StageSettable(host.files, host.committed, domains, enabled);
      var outcome := WithNginxTransaction(host, true, stage, Options(true, true));
      host.Close();
      StagedOthersStay(host.files, old(host.files), old(host.committed), domains, enabled, valid, transform);
      match outcome {
        case Returned(_) =>
          UpdateStaged(old(host.files), old(host.committed), domains, enabled);
          r := Updated;
        case Threw(failures) =>
          r := NotUpdated(failures);
      }
    }

    lemma UpdateStaged(files: Files, rows: Rows, domains: seq<string>, enabled: bool)
      requires !UpdateStage(files, rows, domains, enabled, valid, transform).throws
      ensures forall d :: d in domains ==> CanUpdate(files, rows, d, enabled, valid, transform)
      ensures
        var stage := UpdateStage(files, rows, domains, enabled, valid, transform);
        && stage.rows == WithFlag(rows, Of(domains), enabled)
        && Applied(files, stage.changes) == VhostsSet(files, rows, Of(domains), enabled, transform)
    {
      hide CanUpdate, Applied, VhostsSet, WithFlag;
      var stage := UpdateStage(files, rows, domains, enabled, valid, transform);
      forall i | 0 <= i < |domains|
        ensures Stages(files, rows, domains[i], enabled, valid, transform, stage.changes[i])
      {
      }
      StagedIsSet(files, rows, domains, stage.changes, enabled, valid, transform);
    }

    /** When nothing is staged, or Nginx refuses what is staged, the domains cannot be set. */
    lemma StageSettable(files: Files, rows: Rows, domains: seq<string>, enabled: bool)
      ensures
        var stage := UpdateStage(files, rows, domains, enabled, valid, transform);
        var refused := stage.throws || Refused(host.accepts, files, true, stage, Options(true, true));
        Settable(files, rows, domains, enabled) <==> !refused
    {
      hide CanUpdate, Applied, VhostsSet, WithFlag;
      var stage := UpdateStage(files, rows, domains, enabled, valid, transform);
      if stage.throws {
        var i :| 0 <= i < |domains| && !CanUpdate(files, rows, domains[i], enabled, valid, transform);
        assert domains[i] in domains;
      } else {
        UpdateStaged(files, rows, domains, enabled);
      }
    }

    /** Turns the automation on, with every site there is known, or off. */
    method SetPolicy(enabled: bool) returns (ok: bool)
      modifies this`file, host`clock
      ensures Now() == Next(old(Now()), if ok then SetAuto(enabled) else Nothing, valid)
      ensures ok == !host.fails(old(host.clock))
    {
      var p := Read(file, valid);
      p := p.(auto := enabled, known := if enabled then Ids(host.committed) else p.known);
      ok := WritePolicy(p);
    }

    /** Turns the domains on or off and remembers which are to stay off. */
    method SetSelected(domains: seq<string>, enabled: bool) returns (r: SetResult)
      requires Idle()
      modifies this`file, host
      ensures Idle()
      ensures Now() == Next(old(Now()),
        if r.SetDone? then SetDomains(domains, enabled)
        else if r.policyLost then SetPolicyOnly(domains, enabled)
        else Nothing, valid)
      ensures r.SetDone? ==>
        && host.files == VhostsSet(old(host.files), old(host.committed), Of(domains), enabled, transform)
        && host.running == host.files && host.accepts(host.files)
      ensures r.SetFailed? ==> BackButFor(host.files, old(host.files), r.failures)
      ensures OthersStay(host.files, old(host.files), Of(domains))
      ensures r == SetFailed([], false) ==>
        host.files == old(host.files) && (host.running == old(host.running) || host.running == old(host.files))
      ensures host.Failed() >= old(host.Failed()) && host.clock >= old(host.clock)
      ensures r.SetDone? <==>
        host.Failed() == old(host.Failed()) && Settable(old(host.files), old(host.committed), domains, enabled)
      ensures
        var causes := if Settable(old(host.files), old(host.committed), domains, enabled) then 1 else 0;
        r.SetFailed? && host.Failed() <= old(host.Failed()) + causes ==>
          !r.policyLost && host.files == old(host.files) && (host.accepts(old(host.files)) ==> r.failures == [])
    {
      hide OnlyTestedReloads, VhostsSet, CanUpdate, Host.Faults, Settable, BackButFor, OthersStay;
      var before := file;
      AllStay(host.files, Of(domains));
      var p := SelectedPolicy(Read(file, valid), host.committed, domains, enabled);
      var ok := WritePolicy(p);
      if !ok {
        return SetFailed([], false);
      }
      var update := UpdateSites(domains, enabled);
      if update.Updated? {
        return SetDone;
      }
      ok := host.Tick();
      if ok {
        file := before;
      }
      return SetFailed(update.failures, !ok);
    }

    /** From these files and rows the vhosts of `on` were set, and Nginx runs them, unless there are none. */
    ghost predicate Passed(files: Files, running: Files, rows: Rows, on: set<string>, files': Files, running': Files) {
      && files' == VhostsSet(files, rows, on, true, transform)
      && (if on == {} then running' == running || running' == files else running' == files' && host.accepts(files'))
    }

    lemma NonePassed(files: Files, running: Files, rows: Rows)
      ensures Passed(files, running, rows, {}, files, running)
    {
      NoneSet(files, rows, true, transform);
    }

    lemma PassedOn(files: Files, running: Files, rows: Rows, on: set<string>, d: string,
        files': Files, running': Files, files'': Files, running'': Files, update: Update)
      requires Passed(files, running, rows, on, files', running') && d !in on
      requires update.Updated? ==>
        files'' == VhostsSet(files', WithFlag(rows, on, true), {d}, true, transform) && running'' == files'' && host.accepts(files'')
      requires update == NotUpdated([]) ==> files'' == files' && (running'' == running' || running'' == files')
      ensures update.Updated? ==> Passed(files, running, rows, on + {d}, files'', running'')
      ensures update == NotUpdated([]) ==> Passed(files, running, rows, on, files'', running'')
    {
      hide VhostsSet, WithFlag;
      MoreSet(files, rows, on, d, transform);
      NoneSet(files, rows, true, transform);
    }

    ghost function Turned(files: Files, rows: Rows, list: seq<string>): set<string> {
      TurnedOn(files, rows, list, valid, transform, host.accepts)
    }

    /** The sites of the list whose vhost cannot take the change. */
    ghost function Unable(files: Files, rows: Rows, list: seq<string>): set<string> {
      set d | d in list && !CanUpdate(files, rows, d, true, valid, transform)
    }

    /** One more site, when the vhosts of `on` are set: it can be set exactly when it can be beside them. */
    lemma SettableBeside(files: Files, rows: Rows, on: set<string>, d: string)
      requires d !in on
      ensures
        var settable := Settable(VhostsSet(files, rows, on, true, transform), WithFlag(rows, on, true), [d], true);
        settable <==> Takes(files, rows, on, d, valid, transform, host.accepts)
    {
      hide CanUpdate, VhostsSet, WithFlag;
      StillCanUpdate(files, rows, on, d, valid, transform);
      MoreSet(files, rows, on, d, transform);
      assert Of([d]) == {d} && d in [d];
    }

    lemma TurnedSnoc(files: Files, rows: Rows, list: seq<string>, d: string)
      ensures
        var on := Turned(files, rows, list);
        Turned(files, rows, list + [d]) == if Takes(files, rows, on, d, valid, transform, host.accepts) then on + {d} else on
    {
      hide Takes;
      assert (list + [d])[..|list|] == list;
    }

    /** How many sites have failed that could be updated, after one more site. */
    lemma UnableSnoc(files: Files, rows: Rows, list: seq<string>, d: string, failed: set<string>)
      requires d !in list && failed <= Of(list)
      ensures failed - Unable(files, rows, list + [d]) == failed - Unable(files, rows, list)
      ensures (failed + {d}) - Unable(files, rows, list + [d])
        == failed - Unable(files, rows, list) + (if CanUpdate(files, rows, d, true, valid, transform) then {d} else {})
    {
      hide CanUpdate;
    }

    /** How many of the first sites failed although they could be updated is no more than how many operations failed. */
    ghost predicate FewFailed(files: Files, rows: Rows, list: seq<string>, failed: set<string>, faults: int) {
      |failed - Unable(files, rows, list)| <= faults
    }

    lemma FewFailedSnoc(files: Files, rows: Rows, list: seq<string>, d: string, failed: set<string>, faults: int, faults': int, updated: bool)
      requires d !in list && failed <= Of(list) && FewFailed(files, rows, list, failed, faults) && faults <= faults'
      requires !updated && CanUpdate(files, rows, d, true, valid, transform) ==> faults < faults'
      ensures FewFailed(files, rows, list + [d], if updated then failed else failed + {d}, faults')
    {
      hide CanUpdate, Unable;
      UnableSnoc(files, rows, list, d, failed);
      var few := failed - Unable(files, rows, list);
      assert d !in few && |few + {d}| == |few| + 1;
    }

    /** Where Nginx does not mind, a site that can be updated can be set beside those set before it. */
    lemma AbleIsSettable(files: Files, rows: Rows, wanted: set<string>, on: set<string>, d: string)
      requires AcceptsAny(files, rows, wanted, transform, host.accepts) && on + {d} <= wanted
      ensures CanUpdate(files, rows, d, true, valid, transform) <==> Takes(files, rows, on, d, valid, transform, host.accepts)
    {
      hide CanUpdate, VhostsSet;
    }

    /**
     * The sites of the list, one at a time. With no fault exactly those are turned on that can be and that Nginx accepts
     * beside the ones before; and where Nginx does not mind, a vhost that cannot take the change fails alone, and so does a
     * site whose update meets a fault.
     */
    method TurnOnEach(enable: seq<string>) returns (failed: set<string>, failures: seq<Failure>)
      requires Idle() && forall i, j :: 0 <= i < j < |enable| ==> enable[i] != enable[j]
      modifies host
      ensures Idle() && failed <= Of(enable)
      ensures host.committed == WithFlag(old(host.committed), Of(enable) - failed, true)
      ensures OthersStay(host.files, old(host.files), Of(enable))
      ensures failures == [] ==>
        Passed(old(host.files), old(host.running), old(host.committed), Of(enable) - failed, host.files, host.running)
      ensures host.Failed() >= old(host.Failed()) && host.clock >= old(host.clock)
      ensures host.Failed() == old(host.Failed()) ==>
        && Of(enable) - failed == Turned(old(host.files), old(host.committed), enable)
        && host.files == VhostsSet(old(host.files), old(host.committed), Of(enable) - failed, true, transform)
      ensures failures == [] && AcceptsAny(old(host.files), old(host.committed), Of(enable), transform, host.accepts) ==>
        FewFailed(old(host.files), old(host.committed), enable, failed, host.Failed() - old(host.Failed()))
    {
      hide OnlyTestedReloads, VhostsSet, CanUpdate, WithFlag, Passed, Host.Faults, Settable, Takes, AcceptsAny, FewFailed, TurnedOn;
      hide OthersStay, BackButFor;
      ghost var files, running, rows, faults := host.files, host.running, host.committed, host.Failed();
      failed, failures := {}, [];
      ghost var on: set<string> := {};
      NoFlags(rows);
      NonePassed(files, running, rows);
      NoneSet(files, rows, true, transform);
      NoneTurned(files, rows, enable);
      AllStay(files, Of(enable[..0]));
      for k := 0 to |enable|
        invariant Idle() && failed <= Of(enable[..k]) && on == Of(enable[..k]) - failed
        invariant host.committed == WithFlag(rows, on, true)
        invariant OthersStay(host.files, files, Of(enable[..k]))
        invariant failures == [] ==> Passed(files, running, rows, on, host.files, host.running)
        invariant host.Failed() >= faults && host.clock >= old(host.clock)
        invariant host.Failed() == faults ==>
          on == Turned(files, rows, enable[..k]) && host.files == VhostsSet(files, rows, on, true, transform)
        invariant failures == [] && AcceptsAny(files, rows, Of(enable), transform, host.accepts) ==>
          FewFailed(files, rows, enable[..k], failed, host.Failed() - faults)
      {
        var d := enable[k];
        ghost var list := enable[..k];
        assert enable[..k + 1] == list + [d] && d !in list && Of(list + [d]) == Of(list) + {d};
        ghost var files', running', faults' := host.files, host.running, host.Failed();
        var update := UpdateSites([d], true);
        assert Of([d]) == {d};
        OthersStayOn(host.files, files, files', Of(list), Of([d]));
        SettableBeside(files, rows, on, d);
        TurnedSnoc(files, rows, list, d);
        MoreSet(files, rows, on, d, transform);
        MoreFlags(rows, on, d);
        if failures == [] {
          PassedOn(files, running, rows, on, d, files', running', host.files, host.running, update);
          PassedFiles(files, running, rows, on, files', running');
          if AcceptsAny(files, rows, Of(enable), transform, host.accepts) {
            AbleIsSettable(files, rows, Of(enable), on, d);
            FewFailedSnoc(files, rows, list, d, failed, faults' - faults, host.Failed() - faults, update.Updated?);
          }
        }
        if update.NotUpdated? {
          failed := failed + {d};
          failures := failures + update.failures;
          assert Of(list + [d]) - failed == on;
        } else {
          assert Of(list + [d]) - failed == on + {d};
          on := on + {d};
        }
      }
      assert enable[..|enable|] == enable;
    }

    lemma NoneTurned(files: Files, rows: Rows, list: seq<string>)
      ensures Turned(files, rows, list[..0]) == {} && FewFailed(files, rows, list[..0], {}, 0)
    {
    }

    lemma PassedFiles(files: Files, running: Files, rows: Rows, on: set<string>, files': Files, running': Files)
      requires Passed(files, running, rows, on, files', running')
      ensures files' == VhostsSet(files, rows, on, true, transform)
    {
      hide VhostsSet;
    }

    /** The sites of a pass, in the order in which the database lists them. */
    function Enable(p: Policy, rows: Rows): seq<string> {
      Among(listing(rows), ToEnable(p, rows))
    }

    lemma EnableMeans(p: Policy, rows: Rows)
      requires Lists(listing(rows), rows)
      ensures Of(Enable(p, rows)) == ToEnable(p, rows)
      ensures forall i, j :: 0 <= i < j < |Enable(p, rows)| ==> Enable(p, rows)[i] != Enable(p, rows)[j]
    {
      AmongMeans(listing(rows), ToEnable(p, rows));
    }

    /** One pass over the sites: those that are new, and not to stay off, are turned on one at a time. */
    method ReconcileNewSites() returns (r: PassResult)
      requires Idle() && Lists(listing(host.committed), host.committed)
      modifies this`file, host
      ensures Idle()
      ensures r.failed <= ToEnable(Read(old(file), valid), old(host.committed))
      ensures Now() == Next(old(Now()), Pass(r.failed, r.PassDone?), valid)
      ensures OnlyNewChanged(Read(old(file), valid), old(host.committed), host.committed, r.failed)
      ensures OldKept(Read(old(file), valid), old(host.committed), old(host.files), host.files)
      ensures !Read(old(file), valid).auto ==> r == PassDone({}, []) && host.files == old(host.files) && host.running == old(host.running)
      ensures
        var wanted := ToEnable(Read(old(file), valid), old(host.committed));
        r.failures == [] && Read(old(file), valid).auto ==>
          Passed(old(host.files), old(host.running), old(host.committed), wanted - r.failed, host.files, host.running)
      ensures host.Failed() >= old(host.Failed()) && host.clock >= old(host.clock)
      ensures
        var enable := Enable(Read(old(file), valid), old(host.committed));
        && (host.Failed() == old(host.Failed()) && Read(old(file), valid).auto ==>
              r.PassDone? && Of(enable) - r.failed == Turned(old(host.files), old(host.committed), enable))
        && (r.failures == [] && AcceptsAny(old(host.files), old(host.committed), Of(enable), transform, host.accepts) ==>
              FewFailed(old(host.files), old(host.committed), enable, r.failed, host.Failed() - old(host.Failed())))
    {
      hide OnlyTestedReloads, VhostsSet, CanUpdate, WithFlag, Passed, Host.Faults, AcceptsAny, TurnedOn, Enable, OthersStay;
      hide ToEnable, OnlyNewChanged, OldKept;
      var p := Read(file, valid);
      if !p.auto {
        assert {} - Unable(host.files, host.committed, Enable(p, host.committed)) == {};
        NothingChanged(p, host.committed, host.files);
        return PassDone({}, []);
      }
      var sites := host.committed;
      EnableMeans(p, sites);
      ghost var files := host.files;
      var failed, failures := TurnOnEach(Enable(p, sites));
      OldAreKept(p, sites, files, host.files);
      NewAreChanged(p, sites, failed);
      var p' := PassedPolicy(p, sites, failed);
      StableTwice(file, valid);
      if Stable(p', valid) != Stable(p, valid) {
        var ok := WritePolicy(p');
        if !ok {
          return PassFailed(failed, failures);
        }
        StableTwice(file, valid);
      }
      return PassDone(failed, failures);
    }
  }

  lemma NoFlags(rows: Rows)
    ensures WithFlag(rows, {}, true) == rows
  {
  }

  lemma MoreFlags(rows: Rows, on: set<string>, d: string)
    ensures WithFlag(WithFlag(rows, on, true), Of([d]), true) == WithFlag(rows, on + {d}, true)
  {
  }

  lemma StableTwice(file: Option<Policy>, valid: string -> bool)
    ensures Stable(Read(file, valid), valid) == Read(file, valid)
    ensures Read(Some(Read(file, valid)), valid) == Read(file, valid)
  {
  }

  // ---- Runs ----

  function Run(s: State, steps: seq<Step>, valid: string -> bool): State
    decreases |steps|
  {
    if steps == [] then s else Run(Next(s, steps[0], valid), steps[1..], valid)
  }

  /** The domains that are to stay off: only setting domains changes them. */
  predicate SetsDomains(step: Step) {
    step.SetDomains? || step.SetPolicyOnly?
  }

  function ExcludedAfter(excluded: set<string>, steps: seq<Step>): set<string>
    decreases |steps|
  {
    if steps == [] then excluded
    else if SetsDomains(steps[0]) then
      var domains := Of(steps[0].domains);
      ExcludedAfter(if steps[0].enabled then excluded - domains else excluded + domains, steps[1..])
    else ExcludedAfter(excluded, steps[1..])
  }

  predicate ValidDomains(steps: seq<Step>, valid: string -> bool) {
    forall i :: 0 <= i < |steps| && SetsDomains(steps[i]) ==> forall d :: d in steps[i].domains ==> valid(d)
  }

  lemma {:induction false} OnlySetExcludes(s: State, steps: seq<Step>, valid: string -> bool)
    requires ValidDomains(steps, valid)
    ensures Read(Run(s, steps, valid).file, valid).excluded == ExcludedAfter(Read(s.file, valid).excluded, steps)
    decreases |steps|
  {
    if steps != [] {
      var next := Next(s, steps[0], valid);
      StepExcludes(s, steps[0], valid);
      OnlySetExcludes(next, steps[1..], valid);
    }
  }

  lemma StepExcludes(s: State, step: Step, valid: string -> bool)
    requires SetsDomains(step) ==> forall d :: d in step.domains ==> valid(d)
    ensures
      var excluded := Read(s.file, valid).excluded;
      Read(Next(s, step, valid).file, valid).excluded
        == if !SetsDomains(step) then excluded
           else if step.enabled then excluded - Of(step.domains) else excluded + Of(step.domains)
  {
  }

  predicate IsOff(rows: Rows, d: string) {
    d in rows ==> !rows[d].cloudflare
  }

  /** No step but setting the domain, or the panel itself, can turn the domain on. */
  ghost predicate LeftAlone(steps: seq<Step>, d: string) {
    forall i :: 0 <= i < |steps| ==>
      (SetsDomains(steps[i]) && steps[i].enabled ==> d !in steps[i].domains) && (steps[i].Panel? ==> IsOff(steps[i].rows, d))
  }

  /** A domain that was set to stay off stays off through any run that does not set it on again. */
  lemma {:induction false} ExcludedStaysOff(s: State, steps: seq<Step>, valid: string -> bool, d: string)
    requires valid(d) && d in Read(s.file, valid).excluded && IsOff(s.rows, d) && LeftAlone(steps, d)
    ensures d in Read(Run(s, steps, valid).file, valid).excluded && IsOff(Run(s, steps, valid).rows, d)
    decreases |steps|
  {
    if steps != [] {
      assert LeftAlone(steps[1..], d);
      ExcludedStaysOff(Next(s, steps[0], valid), steps[1..], valid, d);
    }
  }

  /** After a written pass with the automation on, the known sites are the current ones it did not fail for, and each
    * that was not known before is excluded or on. */
  lemma PassKnows(s: State, failed: set<string>, valid: string -> bool)
    requires Read(s.file, valid).auto && failed <= ToEnable(Read(s.file, valid), s.rows)
    requires forall d, e :: d in s.rows && e in s.rows && s.rows[d].id == s.rows[e].id ==> d == e
    ensures
      var p, next := Read(s.file, valid), Next(s, Pass(failed, true), valid);
      var q := Read(next.file, valid);
      && q.auto && q.excluded == p.excluded
      && (forall d :: d in s.rows && s.rows[d].id > 0 ==> (s.rows[d].id in q.known <==> d !in failed))
      && (forall id :: id in q.known ==> id in Ids(s.rows))
      && (forall d :: d in s.rows && s.rows[d].id in q.known && s.rows[d].id !in p.known ==>
            d in p.excluded || next.rows[d].cloudflare)
      && (forall d :: d in s.rows && d in p.excluded ==> next.rows[d] == s.rows[d])
  {
    var p, next := Read(s.file, valid), Next(s, Pass(failed, true), valid);
    var q := Read(next.file, valid);
    var failedIds := set d | d in s.rows && d in failed :: s.rows[d].id;
    forall d | d in s.rows && s.rows[d].id > 0
      ensures s.rows[d].id in q.known <==> d !in failed
    {
      assert s.rows[d].id in failedIds <==> d in failed;
      assert s.rows[d].id !in failedIds ==> s.rows[d].id in PassedPolicy(p, s.rows, failed).known;
    }
  }

  /** What a pass changes, in terms of the rows and the policy it found. */
  lemma PassChanges(s: State, failed: set<string>, written: bool, valid: string -> bool)
    requires Read(s.file, valid).auto || failed == {}
    ensures OnlyNewChanged(Read(s.file, valid), s.rows, Next(s, Pass(failed, written), valid).rows, failed)
  {
  }

  /** Without a policy file, and with the automation off, a pass is idle. */
  lemma IdlePass(s: State, failed: set<string>, written: bool, valid: string -> bool)
    requires s.file.Some? ==> !s.file.value.auto
    ensures Next(s, Pass(failed, written), valid) == s
  {
  }

  /** `id` is that of a site there is, among these domains. */
  predicate IsIdOf(rows: Rows, domains: set<string>, id: int) {
    exists d :: d in rows && d in domains && rows[d].id == id
  }

  /** Turning the automation on makes every site there is a known one, and turning it off none. */
  lemma AutoKnows(s: State, enabled: bool, valid: string -> bool)
    ensures
      var p, next := Read(s.file, valid), Next(s, SetAuto(enabled), valid);
      var q := Read(next.file, valid);
      && next.rows == s.rows && q.auto == enabled && q.excluded == p.excluded
      && forall id: int :: id in q.known <==> id > 0 && if enabled then IsIdOf(s.rows, s.rows.Keys, id) else id in p.known
  {
  }

  /** Setting domains makes them known, sets their flags, and keeps them off or no longer off; the policy alone does not set
    * the flags. */
  lemma SetMeans(s: State, domains: seq<string>, enabled: bool, valid: string -> bool)
    requires forall d :: d in domains ==> valid(d)
    ensures
      var p, next := Read(s.file, valid), Next(s, SetDomains(domains, enabled), valid);
      var q := Read(next.file, valid);
      && q.auto == p.auto
      && (forall id: int :: id in q.known <==> id in p.known || (id > 0 && IsIdOf(s.rows, Of(domains), id)))
      && (forall d :: d in q.excluded <==> if d in domains then !enabled else d in p.excluded)
      && next.rows.Keys == s.rows.Keys
      && (forall d :: d in s.rows && d in domains ==> next.rows[d] == s.rows[d].(cloudflare := enabled))
      && (forall d :: d in s.rows && d !in domains ==> next.rows[d] == s.rows[d])
      && Next(s, SetPolicyOnly(domains, enabled), valid) == State(next.file, s.rows)
  {
    var p := Read(s.file, valid);
    var chosen := SelectedPolicy(p, s.rows, domains, enabled);
    forall id: int
      ensures id in chosen.known <==> id in p.known || IsIdOf(s.rows, Of(domains), id)
    {
    }
  }

  // ---- Sites that were there are spared ----

  /** No two sites share an id. */
  ghost predicate UniqueIds(rows: Rows) {
    forall d, e :: d in rows && e in rows && rows[d].id == rows[e].id ==> d == e
  }

  /** Nobody sets the domain or changes its row, and a pass fails only for sites that are not known. */
  ghost predicate Spares(s: State, steps: seq<Step>, valid: string -> bool, d: string)
    decreases |steps|
  {
    steps == [] ||
    var step := steps[0];
    && (SetsDomains(step) ==> d !in step.domains)
    && (step.Panel? ==> d in s.rows && d in step.rows && step.rows[d] == s.rows[d] && UniqueIds(step.rows))
    && (step.Pass? ==> forall e :: e in step.failed ==> e in s.rows && s.rows[e].id !in Read(s.file, valid).known)
    && Spares(Next(s, step, valid), steps[1..], valid, d)
  }

  lemma StepSpares(s: State, step: Step, valid: string -> bool, d: string)
    requires d in s.rows && s.rows[d].id > 0 && s.rows[d].id in Read(s.file, valid).known && UniqueIds(s.rows)
    requires SetsDomains(step) ==> d !in step.domains
    requires step.Panel? ==> d in step.rows && step.rows[d] == s.rows[d] && UniqueIds(step.rows)
    requires step.Pass? ==> forall e :: e in step.failed ==> e in s.rows && s.rows[e].id !in Read(s.file, valid).known
    ensures
      var next := Next(s, step, valid);
      d in next.rows && next.rows[d] == s.rows[d] && s.rows[d].id in Read(next.file, valid).known && UniqueIds(next.rows)
  {
    hide UniqueIds;
    var p, next := Read(s.file, valid), Next(s, step, valid);
    if step.Pass? && p.auto {
      var failedIds := set e | e in s.rows && e in step.failed :: s.rows[e].id;
      assert s.rows[d].id !in failedIds;
      assert s.rows[d].id in PassedPolicy(p, s.rows, step.failed).known;
      FlagsKeepIds(s.rows, ToEnable(p, s.rows) - step.failed, true);
    } else if step.SetDomains? {
      FlagsKeepIds(s.rows, Of(step.domains), step.enabled);
    }
  }

  lemma FlagsKeepIds(rows: Rows, domains: set<string>, enabled: bool)
    requires UniqueIds(rows)
    ensures UniqueIds(WithFlag(rows, domains, enabled))
  {
  }

  /** A site that is known is left as it is by any run in which nobody else touches it: no pass turns it on. */
  lemma {:induction false} KnownIsSpared(s: State, steps: seq<Step>, valid: string -> bool, d: string)
    requires d in s.rows && s.rows[d].id > 0 && s.rows[d].id in Read(s.file, valid).known && UniqueIds(s.rows)
    requires Spares(s, steps, valid, d)
    ensures d in Run(s, steps, valid).rows && Run(s, steps, valid).rows[d] == s.rows[d]
    decreases |steps|
  {
    hide Next, Read, UniqueIds;
    if steps != [] {
      StepSpares(s, steps[0], valid, d);
      KnownIsSpared(Next(s, steps[0], valid), steps[1..], valid, d);
    }
  }

  /** A site that was there when the automation was turned on is turned on by no pass. */
  lemma AutomationSpares(s: State, steps: seq<Step>, valid: string -> bool, d: string)
    requires d in s.rows && s.rows[d].id > 0 && UniqueIds(s.rows)
    requires Spares(Next(s, SetAuto(true), valid), steps, valid, d)
    ensures d in Run(s, [SetAuto(true)] + steps, valid).rows && Run(s, [SetAuto(true)] + steps, valid).rows[d] == s.rows[d]
  {
    hide Read, UniqueIds;
    var all := [SetAuto(true)] + steps;
    assert all[0] == SetAuto(true) && all[1..] == steps;
    AutoKnows(s, true, valid);
    assert IsIdOf(s.rows, s.rows.Keys, s.rows[d].id);
    KnownIsSpared(Next(s, SetAuto(true), valid), steps, valid, d);
  }
}
