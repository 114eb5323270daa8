/** The Cloudflare rules of one vhost turned on and off (transformVhost of addons/cloudflare-ips/action.ts). */
module CloudflareVhost {
  import opened Outcomes
  import opened Text

  const INCLUDE := "include /etc/nginx/cloudflare/ips;"
  const MAIN := "main"
  const CLOUDFLARE := "cloudflare"

  // ---- Lines, as `^` and `$` see them ----

  /** The characters of a line, and the one that ends it; the last line has none. */
  datatype Line = Line(body: string, end: string)

  function BodyLength(s: string): (n: nat)
    ensures n <= |s|
    ensures n < |s| ==> IsLineTerminator(s[n])
  {
    if s == "" || IsLineTerminator(s[0]) then 0 else 1 + BodyLength(s[1..])
  }

  function Lines(s: string): seq<Line>
    decreases |s|
  {
    var n := BodyLength(s);
    if n == |s| then [Line(s, "")] else [Line(s[..n], [s[n]])] + Lines(s[n + 1..])
  }

  function Whole(lines: seq<Line>): string {
    if lines == [] then "" else lines[0].body + lines[0].end + Whole(lines[1..])
  }

  predicate IsBody(s: string) {
    forall i :: 0 <= i < |s| ==> !IsLineTerminator(s[i])
  }

  ghost predicate AreLines(lines: seq<Line>) {
    && lines != [] && IsBody(lines[0].body)
    && (if |lines| == 1 then lines[0].end == ""
        else |lines[0].end| == 1 && IsLineTerminator(lines[0].end[0]) && AreLines(lines[1..]))
  }

  // ---- The two kinds of lines the program looks for ----

  function BlankRun(s: string): (n: nat)
    ensures n <= |s|
  {
    if s != "" && IsBlank(s[0]) then 1 + BlankRun(s[1..]) else 0
  }

  /** How many blanks the text ends with. */
  function BlankEnd(s: string): (n: nat)
    ensures n <= |s|
  {
    if s != "" && IsBlank(s[|s| - 1]) then 1 + BlankEnd(s[..|s| - 1]) else 0
  }

  predicate AllBlank(s: string) {
    BlankEnd(s) == |s|
  }

  function HomeLog(user: string): string {
    "/home/" + user + "/logs/nginx/access.log"
  }

  function VarLog(user: string): string {
    "/var/log/clp-addons-nginx/" + user + "/access.log"
  }

  /** Up to the name of the log's format: the directive, one of the two logs of the site, and blanks behind each. */
  predicate IsHead(head: string, user: string) {
    var directive := head[BlankRun(head)..];
    StartsWith(directive, "access_log") &&
    var blanks := directive[10..];
    BlankRun(blanks) > 0 &&
    var log := blanks[BlankRun(blanks)..];
    (StartsWith(log, HomeLog(user)) && |log| > |HomeLog(user)| && AllBlank(log[|HomeLog(user)|..]))
    || (StartsWith(log, VarLog(user)) && |log| > |VarLog(user)| && AllBlank(log[|VarLog(user)|..]))
  }

  /** How long the semicolon at the end of the line is with the blanks around it. */
  function TailLength(s: string): (n: Option<nat>)
    ensures n.Some? ==> 0 < n.value <= |s|
  {
    var behind := BlankEnd(s);
    var rest := s[..|s| - behind];
    if rest == "" || rest[|rest| - 1] != ';' then None
    else Some(behind + 1 + BlankEnd(rest[..|rest| - 1]))
  }

  /** An access log of the site, cut around the name of its format. */
  datatype Access = Access(head: string, mode: string, tail: string)

  function ModeOf(front: string): (mode: Option<string>)
    ensures mode.Some? ==> EndsWith(front, mode.value)
  {
    if EndsWith(front, MAIN) then Some(MAIN) else if EndsWith(front, CLOUDFLARE) then Some(CLOUDFLARE) else None
  }

  function AccessOf(body: string, user: string): (a: Option<Access>)
    ensures a.Some? ==> a.value.head + a.value.mode + a.value.tail == body
  {
    hide IsHead, TailLength, EndsWith, MAIN, CLOUDFLARE;
    match TailLength(body)
    case None => None
    case Some(n) =>
      var front := body[..|body| - n];
      match ModeOf(front)
      case None => None
      case Some(mode) =>
        EndIsThere(front, mode);
        var head := front[..|front| - |mode|];
        if IsHead(head, user) then Some(Access(head, mode, body[|body| - n..])) else None
  }

  lemma EndIsThere(s: string, p: string)
    requires EndsWith(s, p)
    ensures |p| <= |s| && s == s[..|s| - |p|] + p
  {
  }

  predicate IsAccess(line: Line, user: string) {
    AccessOf(line.body, user).Some?
  }

  predicate IsInclude(line: Line) {
    var rest := line.body[BlankRun(line.body)..];
    StartsWith(rest, INCLUDE) && AllBlank(rest[|INCLUDE|..])
  }

  // ---- The three replacements ----

  function WithMode(line: Line, user: string, mode: string): Line {
    match AccessOf(line.body, user)
    case None => line
    case Some(a) => line.(body := a.head + mode + a.tail)
  }

  function ModeSet(lines: seq<Line>, user: string, mode: string): (r: seq<Line>)
    ensures |r| == |lines|
  {
    if lines == [] then [] else [WithMode(lines[0], user, mode)] + ModeSet(lines[1..], user, mode)
  }

  /** A line break is taken with the include only as LF or CR LF. */
  function WithoutIncludes(lines: seq<Line>): seq<Line>
    decreases |lines|
  {
    if lines == [] then []
    else if !IsInclude(lines[0]) then [lines[0]] + WithoutIncludes(lines[1..])
    else if lines[0].end == "\n" then WithoutIncludes(lines[1..])
    else if lines[0].end == "\r" && |lines| > 1 && lines[1] == Line("", "\n") then WithoutIncludes(lines[2..])
    else [Line("", lines[0].end)] + WithoutIncludes(lines[1..])
  }

  function WithInclude(lines: seq<Line>, user: string): seq<Line> {
    if lines == [] then []
    else if IsAccess(lines[0], user) then
      [Line(lines[0].body, "\n"), Line("  " + INCLUDE, lines[0].end)] + WithInclude(lines[1..], user)
    else [lines[0]] + WithInclude(lines[1..], user)
  }

  function Accesses(lines: seq<Line>, user: string): nat {
    if lines == [] then 0 else (if IsAccess(lines[0], user) then 1 else 0) + Accesses(lines[1..], user)
  }

  function ModeFor(enabled: bool): string {
    if enabled then CLOUDFLARE else MAIN
  }

  /** The rules turned on or off in one vhost, which must have one access log of the site's user. */
  function Transform(content: string, user: string, enabled: bool): Option<string> {
    if Accesses(Lines(content), user) != 1 then None
    else
      var formatted := Whole(ModeSet(Lines(content), user, ModeFor(enabled)));
      var bare := Whole(WithoutIncludes(Lines(formatted)));
      Some(if enabled then Whole(WithInclude(Lines(bare), user)) else bare)
  }
}
