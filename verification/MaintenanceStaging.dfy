/** What staging the maintenance include comes to: which block serves a domain, what is taken out of a text, which sites
  * change, that off undoes on for every site, and when status reports which gap. */
module MaintenanceStaging {
  import opened Outcomes
  import opened Text
  import opened NginxConfig
  import opened MaintenanceVhosts
  import opened MaintenanceProofs

  // ---- The serving block ----

  /** Some directive of the block is `name` with one of `values` first. */
  predicate Says(b: Block, name: string, values: seq<string>) {
    exists i :: 0 <= i < |b.directives|
      && |b.directives[i].words| >= 2 && b.directives[i].words[0] == name && b.directives[i].words[1] in values
  }

  /** The block names the domain, or leaves the name to CloudPanel, and redirects nowhere. */
  predicate MayServe(b: Block, domain: string) {
    Says(b, "server_name", [domain, "{{server_name}}"]) && !Says(b, "return", ["301", "302", "307", "308"])
  }

  predicate OneLine(s: string) {
    forall i :: 0 <= i < |s| ==> !IsLineTerminator(s[i])
  }

  /** Port 8080 alone, or behind an address on one line. */
  ghost predicate IsBackendPort(v: string) {
    v == "8080" || exists address: string :: v == address + ":8080" && OneLine(address)
  }

  ghost predicate ServesBackend(b: Block) {
    exists i :: 0 <= i < |b.directives| && |b.directives[i].words| >= 2
      && b.directives[i].words[0] == "listen" && IsBackendPort(b.directives[i].words[1])
  }

  lemma CandidateMeans(b: Block, domain: string)
    ensures IsCandidate(b, domain) <==> MayServe(b, domain)
  {
  }

  lemma PortMeans(v: string)
    ensures (v == "8080" || (EndsWith(v, ":8080") && forall i :: 0 <= i < |v| - 5 ==> !IsLineTerminator(v[i]))) <==> IsBackendPort(v)
  {
    hide IsLineTerminator;
    if EndsWith(v, ":8080") {
      var address := v[..|v| - 5];
      assert v == address + ":8080";
      assert OneLine(address) <==> forall i :: 0 <= i < |v| - 5 ==> !IsLineTerminator(v[i]);
    }
    forall address: string | v == address + ":8080"
      ensures EndsWith(v, ":8080") && v[..|v| - 5] == address
    {
      assert v[|v| - 5..|v| - 5 + 5] == ":8080";
    }
  }

  lemma BackendMeans(b: Block)
    ensures IsBackend(b) <==> ServesBackend(b)
  {
    hide IsBackendPort;
    forall i | 0 <= i < |b.directives| && |b.directives[i].words| >= 2
      ensures ListensBackend(b.directives[i].words) <==> b.directives[i].words[0] == "listen" && IsBackendPort(b.directives[i].words[1])
    {
      PortMeans(b.directives[i].words[1]);
    }
  }

  /** `b` is the only block that passes. */
  ghost predicate Only(bs: seq<Block>, b: Block, passes: Block -> bool) {
    exists k :: 0 <= k < |bs| && bs[k] == b && OnlyAt(bs, k, passes)
  }

  ghost predicate OnlyAt(bs: seq<Block>, k: int, passes: Block -> bool) {
    0 <= k < |bs| && passes(bs[k]) && forall j :: 0 <= j < |bs| && j != k ==> !passes(bs[j])
  }

  ghost predicate Nowhere(bs: seq<Block>, passes: Block -> bool) {
    forall j :: 0 <= j < |bs| ==> !passes(bs[j])
  }

  lemma OnlyFirst(bs: seq<Block>, b: Block, passes: Block -> bool)
    requires bs != [] && passes(bs[0])
    ensures Only(bs, b, passes) <==> bs[0] == b && Nowhere(bs[1..], passes)
  {
    assert forall j :: 0 <= j < |bs| - 1 ==> bs[1..][j] == bs[j + 1];
    if bs[0] == b && Nowhere(bs[1..], passes) {
      assert forall j :: 0 < j < |bs| ==> bs[j] == bs[1..][j - 1];
      assert OnlyAt(bs, 0, passes);
    }
  }

  lemma OnlyBehind(bs: seq<Block>, b: Block, passes: Block -> bool)
    requires bs != [] && !passes(bs[0])
    ensures Only(bs, b, passes) <==> Only(bs[1..], b, passes)
  {
    var rest := bs[1..];
    assert forall j :: 0 < j < |bs| ==> bs[j] == rest[j - 1];
    if Only(rest, b, passes) {
      var k :| 0 <= k < |rest| && rest[k] == b && OnlyAt(rest, k, passes);
      assert OnlyAt(bs, k + 1, passes);
    }
    if Only(bs, b, passes) {
      var k :| 0 <= k < |bs| && bs[k] == b && OnlyAt(bs, k, passes);
      assert k > 0 && rest[k - 1] == b;
      assert forall j :: 0 <= j < |rest| ==> rest[j] == bs[j + 1];
      assert OnlyAt(rest, k - 1, passes);
    }
  }

  lemma {:induction false} SelectNothing(bs: seq<Block>, keep: Block -> bool)
    ensures Select(bs, keep) == [] <==> Nowhere(bs, keep)
  {
    if bs != [] {
      SelectNothing(bs[1..], keep);
      assert bs == [bs[0]] + bs[1..];
    }
  }

  lemma {:induction false} SelectOnly(bs: seq<Block>, keep: Block -> bool, b: Block)
    ensures Select(bs, keep) == [b] <==> Only(bs, b, keep)
  {
    hide Only, Nowhere;
    if bs == [] {
      NothingOnly(b, keep);
    } else {
      SelectNothing(bs[1..], keep);
      SelectOnly(bs[1..], keep, b);
      SelectFirst(bs, keep, b);
      if keep(bs[0]) {
        OnlyFirst(bs, b, keep);
      } else {
        OnlyBehind(bs, b, keep);
      }
    }
  }

  lemma NothingOnly(b: Block, keep: Block -> bool)
    ensures !Only([], b, keep)
  {
  }

  lemma SelectFirst(bs: seq<Block>, keep: Block -> bool, b: Block)
    requires bs != []
    ensures keep(bs[0]) ==> (Select(bs, keep) == [b] <==> bs[0] == b && Select(bs[1..], keep) == [])
    ensures !keep(bs[0]) ==> Select(bs, keep) == Select(bs[1..], keep)
  {
    var rest := Select(bs[1..], keep);
    if keep(bs[0]) {
      assert Select(bs, keep) == [bs[0]] + rest && ([bs[0]] + rest)[1..] == rest && [b][1..] == [];
      assert rest == [] ==> [bs[0]] + rest == [bs[0]];
    } else {
      assert [] + rest == rest;
    }
  }

  lemma {:induction false} SelectTwice(bs: seq<Block>, p: Block -> bool, q: Block -> bool)
    ensures Select(Select(bs, p), q) == Select(bs, b => p(b) && q(b))
  {
    var both := (b: Block) => p(b) && q(b);
    if bs != [] {
      var rest := Select(bs[1..], p);
      SelectTwice(bs[1..], p, q);
      assert ([bs[0]] + rest)[1..] == rest && [] + rest == rest;
      assert [] + Select(rest, q) == Select(rest, q);
    }
  }

  /** The block that serves a domain: the only one that may and listens for the backend, or, when none listens for it, the
    * only one that may. */
  lemma ServingExactly(bs: seq<Block>, domain: string, b: Block)
    ensures
      var may := (x: Block) => MayServe(x, domain);
      var backend := (x: Block) => MayServe(x, domain) && ServesBackend(x);
      ServingOf(bs, domain) == Ok(b) <==> Only(bs, b, backend) || (Nowhere(bs, backend) && Only(bs, b, may))
  {
    hide MayServe, ServesBackend, IsCandidate, IsBackend, Only, Nowhere, Select;
    var candidate := (x: Block) => IsCandidate(x, domain);
    var isBackend := (x: Block) => IsBackend(x);
    var both := (x: Block) => candidate(x) && isBackend(x);
    var may := (x: Block) => MayServe(x, domain);
    var backend := (x: Block) => MayServe(x, domain) && ServesBackend(x);
    forall x
      ensures candidate(x) == may(x) && both(x) == backend(x)
    {
      CandidateMeans(x, domain);
      BackendMeans(x);
    }
    SelectTwice(bs, candidate, isBackend);
    SelectOnly(bs, candidate, b);
    SelectOnly(bs, both, b);
    SelectNothing(bs, both);
    OnlySame(bs, b, candidate, may);
    OnlySame(bs, b, both, backend);
    var selected := if Select(bs, both) != [] then Select(bs, both) else Select(bs, candidate);
    assert ServingOf(bs, domain) == Ok(b) <==> selected == [b];
  }

  lemma OnlySame(bs: seq<Block>, b: Block, p: Block -> bool, q: Block -> bool)
    requires forall x :: p(x) == q(x)
    ensures Only(bs, b, p) <==> Only(bs, b, q)
    ensures Nowhere(bs, p) <==> Nowhere(bs, q)
  {
    forall k
      ensures OnlyAt(bs, k, p) <==> OnlyAt(bs, k, q)
    {
    }
  }

  // ---- What the expression takes out ----

  /** The lines of an include, however they are indented and ended. */
  datatype Lines = Lines(newlines: (string, string, string, string), blanks: (string, string, string, string), path: string)

  predicate Blanks(s: string) {
    forall k :: 0 <= k < |s| ==> IsBlank(s[k])
  }

  predicate AreLines(l: Lines) {
    && IsNewline(l.newlines.0) && IsNewline(l.newlines.1) && IsNewline(l.newlines.2) && IsNewline(l.newlines.3)
    && Blanks(l.blanks.0) && Blanks(l.blanks.1) && Blanks(l.blanks.2) && Blanks(l.blanks.3)
    && IsPath(l.path)
  }

  function LinesText(l: Lines): string {
    l.newlines.0 + l.blanks.0 + START_MARK
    + l.newlines.1 + l.blanks.1 + "include " + l.path + ";"
    + l.newlines.2 + l.blanks.2 + END_MARK + l.blanks.3 + l.newlines.3
  }

  /** The lines from one of their parts on, followed by `z`. */
  ghost function LastLine(l: Lines, mark: string, z: string): string {
    l.newlines.2 + (l.blanks.2 + (mark + (l.blanks.3 + (l.newlines.3 + z))))
  }

  ghost function FromStatement(l: Lines, word: string, mark: string, z: string): string {
    l.newlines.1 + (l.blanks.1 + (word + (l.path + ";" + LastLine(l, mark, z))))
  }

  ghost function FromStart(l: Lines, start: string, word: string, mark: string, z: string): string {
    l.newlines.0 + (l.blanks.0 + (start + FromStatement(l, word, mark, z)))
  }

  lemma LinesApart(l: Lines, z: string)
    ensures LinesText(l) + z == FromStart(l, START_MARK, "include ", END_MARK, z)
  {
    hide START_MARK, END_MARK;
    var last := l.newlines.2 + l.blanks.2 + END_MARK + l.blanks.3 + l.newlines.3;
    assert last + z == LastLine(l, END_MARK, z);
    var statement := l.newlines.1 + l.blanks.1 + "include " + l.path + ";";
    assert statement + (last + z) == FromStatement(l, "include ", END_MARK, z);
    var start := l.newlines.0 + l.blanks.0 + START_MARK;
    assert start + (statement + (last + z)) == FromStart(l, START_MARK, "include ", END_MARK, z);
    assert LinesText(l) == start + (statement + last);
    assert (start + (statement + last)) + z == start + (statement + (last + z));
  }

  lemma MarkLineRead(s: string, i: nat, newline: string, blanks: string, mark: string, b: string)
    requires RestIs(s, i, newline + (blanks + (mark + b))) && IsNewline(newline) && Blanks(blanks) && IsMark(mark)
    ensures MarkLineEnd(s, i, mark) == Some(i + |newline| + |blanks| + |mark|)
    ensures RestIs(s, i + |newline| + |blanks| + |mark|, b)
  {
    hide BlanksEnd, NewlineAt, IsNewline, RestIs, OccursAt;
    NewlineNext(s, i, newline, blanks + (mark + b));
    assert (mark + b)[0] == mark[0];
    BlanksNext(s, i + |newline|, blanks, mark + b);
    Drop(s, i + |newline|, blanks, mark + b);
    Drop(s, i + |newline| + |blanks|, mark, b);
  }

  lemma MarkLineIs(s: string, i: nat, mark: string, end: nat) returns (newline: string, blanks: string)
    requires i <= |s| && MarkLineEnd(s, i, mark) == Some(end)
    ensures IsNewline(newline) && Blanks(blanks)
    ensures end <= |s| && s[i..] == newline + (blanks + (mark + s[end..]))
  {
    hide BlanksEnd;
    var line := NewlineAt(s, i).value;
    newline := NewlineIs(s, i);
    var at := BlanksEnd(s, line);
    blanks := s[line..at];
    assert s[line..] == blanks + s[at..];
    assert s[at..] == s[at..at + |mark|] + s[at + |mark|..];
  }

  lemma NewlineIs(s: string, i: nat) returns (newline: string)
    requires i <= |s| && NewlineAt(s, i).Some?
    ensures IsNewline(newline) && s[i..] == newline + s[NewlineAt(s, i).value..]
  {
    var end := NewlineAt(s, i).value;
    newline := s[i..end];
    assert s[i..] == s[i..end] + s[end..];
  }

  lemma StatementIs(s: string, i: nat, end: nat) returns (path: string)
    requires i <= |s| && StatementEnd(s, i) == Some(end)
    ensures IsPath(path) && end <= |s| && s[i..] == path + ";" + s[end..]
  {
    path := s[i..end - 1];
    assert s[i..] == path + [s[end - 1]] + s[end..];
  }

  lemma LinesRead(s: string, i: nat, l: Lines, start: string, word: string, mark: string, z: string)
    requires RestIs(s, i, FromStart(l, start, word, mark, z)) && AreLines(l) && IsMark(start) && IsMark(word) && IsMark(mark)
    ensures
      var statement := i + |l.newlines.0| + |l.blanks.0| + |start|;
      var value := statement + |l.newlines.1| + |l.blanks.1| + |word|;
      var closing := value + |l.path| + 1;
      var last := closing + |l.newlines.2| + |l.blanks.2| + |mark|;
      && MarkLineEnd(s, i, start) == Some(statement)
      && MarkLineEnd(s, statement, word) == Some(value)
      && StatementEnd(s, value) == Some(closing)
      && MarkLineEnd(s, closing, mark) == Some(last)
      && last <= |s| && NewlineAt(s, BlanksEnd(s, last)) == Some(last + |l.blanks.3| + |l.newlines.3|)
  {
    hide NewlineAt, MarkLineEnd, StatementEnd, BlanksEnd, IsPath, IsMark, RestIs, LastLine, FromStatement;
    var statement := i + |l.newlines.0| + |l.blanks.0| + |start|;
    MarkLineRead(s, i, l.newlines.0, l.blanks.0, start, FromStatement(l, word, mark, z));
    StatementRead(s, statement, l, word, mark, z);
    var closing := statement + |l.newlines.1| + |l.blanks.1| + |word| + |l.path| + 1;
    LastRead(s, closing, l, mark, z);
  }

  lemma StatementRead(s: string, i: nat, l: Lines, word: string, mark: string, z: string)
    requires RestIs(s, i, FromStatement(l, word, mark, z)) && AreLines(l) && IsMark(word)
    ensures
      var value := i + |l.newlines.1| + |l.blanks.1| + |word|;
      && MarkLineEnd(s, i, word) == Some(value)
      && StatementEnd(s, value) == Some(value + |l.path| + 1)
      && RestIs(s, value + |l.path| + 1, LastLine(l, mark, z))
  {
    hide MarkLineEnd, StatementEnd, RestIs, IsMark;
    MarkLineRead(s, i, l.newlines.1, l.blanks.1, word, l.path + ";" + LastLine(l, mark, z));
    assert LastLine(l, mark, z)[0] == l.newlines.2[0];
    StatementNext(s, i + |l.newlines.1| + |l.blanks.1| + |word|, l.path, LastLine(l, mark, z));
  }

  lemma LastRead(s: string, i: nat, l: Lines, mark: string, z: string)
    requires RestIs(s, i, LastLine(l, mark, z)) && AreLines(l) && IsMark(mark)
    ensures
      var last := i + |l.newlines.2| + |l.blanks.2| + |mark|;
      && MarkLineEnd(s, i, mark) == Some(last)
      && last <= |s| && NewlineAt(s, BlanksEnd(s, last)) == Some(last + |l.blanks.3| + |l.newlines.3|)
  {
    hide MarkLineEnd, IsMark, NewlineAt, BlanksEnd, IsNewline, Blanks, RestIs, IsPath;
    MarkLineRead(s, i, l.newlines.2, l.blanks.2, mark, l.blanks.3 + (l.newlines.3 + z));
    EndRead(s, i + |l.newlines.2| + |l.blanks.2| + |mark|, l.blanks.3, l.newlines.3, z);
  }

  lemma EndRead(s: string, i: nat, blanks: string, newline: string, z: string)
    requires RestIs(s, i, blanks + (newline + z)) && Blanks(blanks) && IsNewline(newline)
    ensures i <= |s| && NewlineAt(s, BlanksEnd(s, i)) == Some(i + |blanks| + |newline|)
  {
    hide NewlineAt, BlanksEnd;
    assert (newline + z)[0] == newline[0];
    BlanksNext(s, i, blanks, newline + z);
    Drop(s, i, blanks, newline + z);
    NewlineNext(s, i + |blanks|, newline, z);
  }

  /** Lines of an include are matched whole, whatever follows them. */
  lemma LinesAreMatched(s: string, i: nat, l: Lines, z: string)
    requires RestIs(s, i, LinesText(l) + z) && AreLines(l)
    ensures i <= |s| && IncludeAt(s, i) == Some(i + |LinesText(l)|)
  {
    hide IncludeAt, RestIs, NewlineAt, MarkLineEnd, StatementEnd, BlanksEnd, AreLines, FromStart, IsMark, START_MARK, END_MARK;
    MarksAreMarks();
    LinesApart(l, z);
    RestBound(s, i, LinesText(l) + z);
    LinesRead(s, i, l, START_MARK, "include ", END_MARK, z);
    var statement := i + |l.newlines.0| + |l.blanks.0| + |START_MARK|;
    var value := statement + |l.newlines.1| + |l.blanks.1| + 8;
    var closing := value + |l.path| + 1;
    IncludeByParts(s, i, statement, value, closing, closing + |l.newlines.2| + |l.blanks.2| + |END_MARK|);
  }

  /** What the expression matches are such lines. */
  lemma MatchIsLines(s: string, i: nat) returns (l: Lines)
    requires i <= |s| && IncludeAt(s, i).Some?
    ensures AreLines(l) && s[i..] == LinesText(l) + s[IncludeAt(s, i).value..]
  {
    hide NewlineAt, MarkLineEnd, StatementEnd, BlanksEnd, IsPath, IsNewline, Blanks, START_MARK, END_MARK, LinesText;
    var statement := MarkLineEnd(s, i, START_MARK).value;
    var value := MarkLineEnd(s, statement, "include ").value;
    var closing := StatementEnd(s, value).value;
    var last := MarkLineEnd(s, closing, END_MARK).value;
    var n0, b0 := MarkLineIs(s, i, START_MARK, statement);
    var n1, b1 := MarkLineIs(s, statement, "include ", value);
    var path := StatementIs(s, value, closing);
    var n2, b2 := MarkLineIs(s, closing, END_MARK, last);
    var b3 := BlanksIs(s, last);
    var n3 := NewlineIs(s, BlanksEnd(s, last));
    var z := s[IncludeAt(s, i).value..];
    l := Lines((n0, n1, n2, n3), (b0, b1, b2, b3), path);
    LinesApart(l, z);
    assert s[closing..] == LastLine(l, END_MARK, z);
    assert s[statement..] == FromStatement(l, "include ", END_MARK, z);
  }

  lemma BlanksIs(s: string, i: nat) returns (blanks: string)
    requires i <= |s|
    ensures Blanks(blanks) && s[i..] == blanks + s[BlanksEnd(s, i)..]
  {
    var end := BlanksEnd(s, i);
    blanks := s[i..end];
    assert s[i..] == s[i..end] + s[end..];
  }

  /** The expression matches exactly the lines of an include, however they are indented and ended. */
  lemma IncludeAtExactly(s: string, i: nat, end: nat)
    requires i <= |s|
    ensures IncludeAt(s, i) == Some(end) <==> i <= end <= |s| && exists l :: AreLines(l) && s[i..end] == LinesText(l)
  {
    hide IncludeAt, AreLines, LinesText;
    if IncludeAt(s, i) == Some(end) {
      var l := MatchIsLines(s, i);
      Front(s, i, end, LinesText(l));
    }
    if i <= end <= |s| && exists l :: AreLines(l) && s[i..end] == LinesText(l) {
      var l :| AreLines(l) && s[i..end] == LinesText(l);
      assert s[i..] == s[i..end] + s[end..];
      LinesAreMatched(s, i, l, s[end..]);
    }
  }

  lemma Front(s: string, i: nat, end: nat, a: string)
    requires i <= end <= |s| && s[i..] == a + s[end..]
    ensures s[i..end] == a
  {
    assert |a| == end - i;
    assert s[i..end] == s[i..][..end - i];
  }

  lemma IncludeBehind(a: string, z: string, i: nat)
    requires i <= |z|
    ensures IncludeAt(a + z, |a| + i) == match IncludeAt(z, i) case None => None case Some(end) => Some(|a| + end)
  {
    hide IncludeAt, AreLines, LinesText;
    var s := a + z;
    if IncludeAt(z, i).Some? {
      var end := IncludeAt(z, i).value;
      assert s[|a| + i..|a| + end] == z[i..end];
      IncludeAtExactly(z, i, end);
      IncludeAtExactly(s, |a| + i, |a| + end);
    } else if IncludeAt(s, |a| + i).Some? {
      var end := IncludeAt(s, |a| + i).value;
      assert s[|a| + i..end] == z[i..end - |a|];
      IncludeAtExactly(s, |a| + i, end);
      IncludeAtExactly(z, i, end - |a|);
    }
  }

  lemma {:induction false} CleanShift(a: string, z: string, i: nat)
    requires i <= |z|
    ensures CleanFrom(a + z, |a| + i) == CleanFrom(z, i)
    decreases |z| - i
  {
    hide IncludeAt;
    if i < |z| {
      IncludeBehind(a, z, i);
      match IncludeAt(z, i)
      case Some(end) => CleanShift(a, z, end);
      case None => CleanShift(a, z, i + 1);
    }
  }

  /** No include begins in the first `n` characters. */
  ghost predicate NoneBegins(s: string, n: nat) {
    n <= |s| && forall i :: 0 <= i < n ==> IncludeAt(s, i).None?
  }

  lemma {:induction false} CleanPlain(s: string, n: nat, i: nat)
    requires NoneBegins(s, n) && i <= n
    ensures CleanFrom(s, i) == s[i..n] + CleanFrom(s, n)
    decreases n - i
  {
    hide IncludeAt;
    if i < n {
      CleanPlain(s, n, i + 1);
      assert s[i..n] == [s[i]] + s[i + 1..n];
    }
  }

  /** Cleaning takes out the first include, and goes on behind it; a text in which none begins stays. */
  lemma CleanMeans(a: string, l: Lines, z: string, s: string)
    requires AreLines(l) && s == a + LinesText(l) + z && NoneBegins(s, |a|)
    ensures Clean(s) == a + Clean(z)
  {
    hide IncludeAt, AreLines, LinesText, CleanFrom;
    var text := LinesText(l);
    CleanPlain(s, |a|, 0);
    assert s[0..|a|] == a;
    assert s[|a|..] == text + z;
    LinesAreMatched(s, |a|, l, z);
    CleanTaken(s, |a|);
    assert s == (a + text) + z;
    CleanShift(a + text, z, 0);
  }

  lemma CleanTaken(s: string, i: nat)
    requires i <= |s| && IncludeAt(s, i).Some?
    ensures CleanFrom(s, i) == CleanFrom(s, IncludeAt(s, i).value)
  {
  }

  lemma CleanStays(s: string)
    requires NoneBegins(s, |s|)
    ensures Clean(s) == s
  {
    hide IncludeAt;
    CleanPlain(s, |s|, 0);
    assert s[0..|s|] == s && s + "" == s;
  }

  // ---- On and off, of one text ----

  /** When a text can take the include or lose it, and what losing it gives. */
  lemma TransformExactly(content: string, domain: string, enabled: bool, path: string)
    ensures
      var clean := Clean(content);
      var marked := Occurs(clean, START_MARK) || Occurs(clean, END_MARK);
      var stays := !enabled || Occurs(clean, "global_settings");
      var serving := ServingBlock(clean, domain);
      && (Transform(content, domain, enabled, path).Ok? <==>
            !marked && (stays || (serving.Ok? && !Includes(serving.value, path))))
      && (!marked && stays ==> Transform(content, domain, enabled, path) == Ok(clean))
      && (marked ==> Transform(content, domain, enabled, path) == Err(MalformedMarker))
  {
    hide Clean, ServingBlock, Includes, START_MARK, END_MARK;
  }

  /** A text that holds neither mark. */
  ghost predicate Unmarked(s: string) {
    !Occurs(s, START_MARK) && !Occurs(s, END_MARK)
  }

  lemma UnmarkedClean(s: string)
    requires Unmarked(s)
    ensures Clean(s) == s
  {
    hide CleanFrom, START_MARK, END_MARK;
    CleanWithoutMark(s, 0);
    assert s[0..] == s;
  }

  lemma OffKeeps(s: string, domain: string, path: string)
    requires Unmarked(s)
    ensures Transform(s, domain, false, path) == Ok(s)
  {
    hide Clean, START_MARK, END_MARK;
    UnmarkedClean(s);
    TransformExactly(s, domain, false, path);
  }

  // ---- Line ends ----

  /** Every line feed has a carriage return before it. */
  predicate AllReturns(s: string) {
    forall i :: 0 <= i < |s| && s[i] == LF ==> i > 0 && s[i - 1] == CR
  }

  /** No line feed has one. */
  predicate NoReturns(s: string) {
    forall i :: 0 < i < |s| && s[i] == LF ==> s[i - 1] != CR
  }

  lemma ReturnsMean(s: string)
    ensures Contains(s, "\r\n") <==> !NoReturns(s)
  {
    if Contains(s, "\r\n") {
      var i :| OccursAt(s, "\r\n", i);
      OccursChar(s, "\r\n", i, 0);
      OccursChar(s, "\r\n", i, 1);
    }
    if !NoReturns(s) {
      var i :| 0 < i < |s| && s[i] == LF && s[i - 1] == CR;
      assert s[i - 1..i - 1 + 2] == "\r\n";
      assert OccursAt(s, "\r\n", i - 1);
    }
  }

  lemma NoFeed(s: string)
    requires LF !in s
    ensures AllReturns(s) && NoReturns(s)
  {
  }

  lemma ReturnsJoin(a: string, b: string)
    requires b != "" && b[0] != LF
    ensures AllReturns(a) && AllReturns(b) ==> AllReturns(a + b)
    ensures NoReturns(a) && NoReturns(b) ==> NoReturns(a + b)
  {
    var s := a + b;
    assert forall i :: 0 <= i < |a| ==> s[i] == a[i];
    assert forall i :: |a| <= i < |s| ==> s[i] == b[i - |a|];
  }

  lemma OneLineFeed(newline: string)
    requires IsNewline(newline)
    ensures newline == "\r\n" ==> AllReturns(newline)
    ensures newline == "\n" ==> NoReturns(newline)
  {
  }

  lemma IncludeLineEnds(newline: string, path: string)
    requires IsNewline(newline) && IsPath(path)
    ensures newline == "\r\n" ==> AllReturns(IncludeText(newline, path))
    ensures newline == "\n" ==> NoReturns(IncludeText(newline, path))
  {
    hide START_MARK, END_MARK, IncludeText;
    MarksAreOneLine();
    EndIsOneLine();
    var a, b, c := "  " + START_MARK, "  include " + path + ";", "  " + END_MARK;
    NoFeed(a);
    NoFeed(b);
    NoFeed(c);
    OneLineFeed(newline);
    LineEnded(newline, a, newline);
    LineEnded(newline, b, newline + a + newline);
    LineEnded(newline, c, newline + a + newline + b + newline);
    IncludeLines(newline, path);
  }

  lemma IncludeLines(newline: string, path: string)
    ensures
      var a, b, c := "  " + START_MARK, "  include " + path + ";", "  " + END_MARK;
      IncludeText(newline, path) == newline + a + newline + b + newline + c + newline
  {
    hide START_MARK, END_MARK;
  }

  lemma EndIsOneLine()
    ensures LF !in END_MARK && CR !in END_MARK && END_MARK != ""
  {
    NoReturnAtEnd();
    assert |END_MARK| > 0;
  }

  lemma NoReturnAtEnd()
    ensures CR !in END_MARK
  {
  }

  /** One more line, without a carriage return of its own at its end. */
  lemma LineEnded(newline: string, line: string, before: string)
    requires IsNewline(newline) && line != "" && LF !in line && line[|line| - 1] != CR
    ensures newline == "\r\n" && AllReturns(before) ==> AllReturns(before + line + newline)
    ensures newline == "\n" && NoReturns(before) ==> NoReturns(before + line + newline)
  {
    var s := before + line + newline;
    assert forall i :: 0 <= i < |before| ==> s[i] == before[i];
    assert forall i :: 0 <= i < |line| ==> s[|before| + i] == line[i];
    assert forall i :: 0 <= i < |newline| ==> s[|before| + |line| + i] == newline[i];
  }

  /** Text that begins with a line break, put behind a brace, keeps the line ends of the whole as they are. */
  lemma InsertedLineEnds(s: string, p: nat, text: string)
    requires 0 < p <= |s| && s[p - 1] == '{' && text != "" && (text[0] == LF || text[0] == CR)
    requires text[|text| - 1] == LF
    ensures AllReturns(s) && AllReturns(text) ==> AllReturns(s[..p] + text + s[p..])
    ensures NoReturns(s) && NoReturns(text) ==> NoReturns(s[..p] + text + s[p..])
  {
    hide AllReturns, NoReturns;
    var a, z := s[..p], s[p..];
    assert s == a + z;
    Halves(a, z);
    Spliced(a, text, z);
  }

  /** A text cut behind a brace. */
  lemma Halves(a: string, z: string)
    requires a != "" && a[|a| - 1] == '{'
    ensures AllReturns(a + z) ==> AllReturns(a) && AllReturns(z)
    ensures NoReturns(a + z) ==> NoReturns(a) && NoReturns(z)
  {
    var s := a + z;
    assert forall i :: 0 <= i < |a| ==> s[i] == a[i];
    assert forall i :: 0 <= i < |z| ==> s[|a| + i] == z[i];
  }

  /** A text put between two others, behind a brace. */
  lemma Spliced(a: string, text: string, z: string)
    requires a != "" && a[|a| - 1] == '{' && text != "" && text[|text| - 1] == LF
    ensures AllReturns(a) && AllReturns(text) && AllReturns(z) ==> AllReturns(a + text + z)
    ensures NoReturns(a) && NoReturns(text) && NoReturns(z) ==> NoReturns(a + text + z)
  {
    hide AllReturns, NoReturns;
    Joined(a, text);
    Joined(a + text, z);
    assert (a + text)[|a + text| - 1] == text[|text| - 1];
  }

  /** Two texts, the first of which does not end with a carriage return. */
  lemma Joined(a: string, b: string)
    requires a != "" && a[|a| - 1] != CR
    ensures AllReturns(a) && AllReturns(b) ==> AllReturns(a + b)
    ensures NoReturns(a) && NoReturns(b) ==> NoReturns(a + b)
  {
    var s := a + b;
    assert forall i :: 0 <= i < |a| ==> s[i] == a[i];
    assert forall i :: |a| <= i < |s| ==> s[i] == b[i - |a|];
  }

  lemma IncludeTextEnds(newline: string, path: string)
    requires IsNewline(newline)
    ensures IncludeText(newline, path) != "" && IncludeText(newline, path)[|IncludeText(newline, path)| - 1] == LF
  {
  }

  /** The include takes the line ends of the text it goes into: a text with carriage returns throughout keeps them throughout,
    * and one without gets none. */
  lemma LineEndsKept(content: string, domain: string, path: string)
    requires IsPath(path) && Transform(content, domain, true, path).Ok?
    ensures
      var clean, result := Clean(content), Transform(content, domain, true, path).value;
      && (LF in clean && AllReturns(clean) ==> AllReturns(result))
      && (NoReturns(clean) ==> NoReturns(result))
  {
    hide Clean, ServingBlock, IncludeText, Includes, AllReturns, NoReturns, IsPath, START_MARK, END_MARK;
    var clean := Clean(content);
    if !OptedOut(clean) {
      var open := ServingBlock(clean, domain).value.open;
      var newline := NewlineOf(clean);
      ServingBrace(clean, domain);
      ReturnsMean(clean);
      ReturnsThroughout(clean);
      IncludeTextHead(newline, path);
      IncludeTextEnds(newline, path);
      IncludeLineEnds(newline, path);
      InsertedLineEnds(clean, open, IncludeText(newline, path));
    }
  }

  lemma ReturnsThroughout(s: string)
    ensures LF in s && AllReturns(s) ==> !NoReturns(s)
  {
    if LF in s && AllReturns(s) {
      var i :| 0 <= i < |s| && s[i] == LF;
      assert s[i - 1] == CR;
    }
  }

  // ---- Every site ----

  /** A site changes when its domain is valid and both its texts can take the include, or lose it. */
  predicate Takes(site: SiteRow, vhosts: map<string, string>, valid: string -> bool, enabled: bool, path: string) {
    && valid(site.domain)
    && Transform(site.template, site.domain, enabled, path).Ok?
    && (site.domain in vhosts ==> Transform(vhosts[site.domain], site.domain, enabled, path).Ok?)
  }

  /** Both texts of a site are transformed, or neither. */
  lemma StagedExactly(site: SiteRow, vhosts: map<string, string>, valid: string -> bool, enabled: bool, path: string)
    ensures StagedSite(site, vhosts, valid, enabled, path).Some? <==> Takes(site, vhosts, valid, enabled, path)
    ensures !Takes(site, vhosts, valid, enabled, path) ==> TemplateAfter(site, vhosts, valid, enabled, path) == site.template
    ensures Takes(site, vhosts, valid, enabled, path) ==>
      Ok(TemplateAfter(site, vhosts, valid, enabled, path)) == Transform(site.template, site.domain, enabled, path)
    ensures site.domain in vhosts && !Takes(site, vhosts, valid, enabled, path) ==>
      VhostAfter(site, vhosts, valid, enabled, path) == vhosts[site.domain]
    ensures site.domain in vhosts && Takes(site, vhosts, valid, enabled, path) ==>
      Ok(VhostAfter(site, vhosts, valid, enabled, path)) == Transform(vhosts[site.domain], site.domain, enabled, path)
  {
    hide Transform;
  }

  /** Neither the site's stored template nor its vhost holds a mark. */
  ghost predicate SiteUnmarked(site: SiteRow, vhosts: map<string, string>) {
    Unmarked(site.template) && (site.domain in vhosts ==> Unmarked(vhosts[site.domain]))
  }

  /** Off after on gives back the texts of a site, whether or not it could take the include. */
  lemma OffRestoresSite(site: SiteRow, vhosts: map<string, string>, valid: string -> bool, path: string, after: map<string, string>)
    requires IsPath(path) && SiteUnmarked(site, vhosts)
    requires site.domain in after <==> site.domain in vhosts
    requires site.domain in vhosts ==> after[site.domain] == VhostAfter(site, vhosts, valid, true, path)
    ensures
      var row := SiteRow(site.domain, TemplateAfter(site, vhosts, valid, true, path));
      && TemplateAfter(row, after, valid, false, path) == site.template
      && (site.domain in vhosts ==> VhostAfter(row, after, valid, false, path) == vhosts[site.domain])
  {
    hide Transform, StagedSite, TemplateAfter, VhostAfter, Unmarked;
    var row := SiteRow(site.domain, TemplateAfter(site, vhosts, valid, true, path));
    StagedExactly(site, vhosts, valid, true, path);
    StagedExactly(row, after, valid, false, path);
    OffRestoresText(site.template, site.domain, path);
    if site.domain in vhosts {
      OffRestoresText(vhosts[site.domain], site.domain, path);
    }
  }

  lemma OffRestoresText(s: string, domain: string, path: string)
    requires IsPath(path) && Unmarked(s)
    ensures Transform(s, domain, false, path) == Ok(s)
    ensures Transform(s, domain, true, path).Ok? ==> Transform(Transform(s, domain, true, path).value, domain, false, path) == Ok(s)
  {
    hide Transform, START_MARK, END_MARK;
    OffKeeps(s, domain, path);
    if Transform(s, domain, true, path).Ok? {
      OffRestores(s, domain, path);
    }
  }

  /**
   * Staging every site on, writing the vhosts, and then staging every site off gives back every row and every vhost when none
   * held a mark: those that took the include, those that could not, and those of no site.
   */
  lemma OffUndoesOn(sites: seq<SiteRow>, vhosts: map<string, string>, valid: string -> bool, path: string,
                    rows: seq<SiteRow>, between: map<string, string>, rows': seq<SiteRow>, after: map<string, string>)
    requires IsPath(path) && DistinctDomains(sites) && forall i :: 0 <= i < |sites| ==> SiteUnmarked(sites[i], vhosts)
    requires RowsDone(sites, |sites|, vhosts, valid, true, path, rows)
    requires VhostsDone(sites, |sites|, vhosts, valid, true, path, between)
    requires RowsDone(rows, |rows|, between, valid, false, path, rows')
    requires VhostsDone(rows, |rows|, between, valid, false, path, after)
    ensures rows' == sites && after == vhosts
  {
    hide StagedSite, TemplateAfter, VhostAfter, SiteUnmarked;
    forall i | 0 <= i < |sites|
      ensures rows'[i] == sites[i]
      ensures sites[i].domain in vhosts ==> after[sites[i].domain] == vhosts[sites[i].domain]
    {
      OffRestoresSite(sites[i], vhosts, valid, path, between);
    }
    forall d | d in vhosts
      ensures after[d] == vhosts[d]
    {
      if forall i :: 0 <= i < |sites| ==> sites[i].domain != d {
        assert forall i :: 0 <= i < |rows| ==> rows[i].domain == sites[i].domain;
      }
    }
  }

  // ---- What status reports ----

  /** The block includes the check's file or the global settings, and only the file when the settings are missing. */
  predicate Runs(b: Block, path: string, settingsMissing: bool) {
    if settingsMissing then Says(b, "include", [path]) && !Says(b, "include", ["/etc/nginx/global_settings"])
    else !(Says(b, "include", [path]) <==> Says(b, "include", ["/etc/nginx/global_settings"]))
  }

  ghost predicate TextRuns(s: string, domain: string, path: string, settingsMissing: bool) {
    ServingBlock(s, domain).Ok? && Runs(ServingBlock(s, domain).value, path, settingsMissing)
  }

  lemma CoveredMeans(b: Block, path: string, settingsMissing: bool)
    ensures Covered(b, path, settingsMissing) <==> Runs(b, path, settingsMissing)
  {
    IncludesMeans(b, path);
    IncludesMeans(b, SETTINGS_PATH);
    hide Includes, Says;
  }

  lemma IncludesMeans(b: Block, path: string)
    ensures Includes(b, path) <==> Says(b, "include", [path])
  {
  }

  /** Each gap is reported exactly when there is that reason: first a missing vhost, then one that opted out, then the first
    * of vhost and template that has no serving block or does not run the check. */
  lemma GapExactly(site: SiteRow, vhosts: map<string, string>, valid: string -> bool, path: string, settingsMissing: bool)
    ensures
      var gap := SiteGap(site, vhosts, valid, path, settingsMissing);
      var rendered := if site.domain in vhosts then vhosts[site.domain] else "";
      var known := valid(site.domain) && site.domain in vhosts;
      var out := Occurs(rendered, "global_settings") && !Occurs(rendered, "include /etc/nginx/global_settings");
      var served := ServingBlock(rendered, site.domain).Ok?;
      var runs := TextRuns(rendered, site.domain, path, settingsMissing);
      && (gap == Some(NoVhost) <==> !known)
      && (gap == Some(OptsOut) <==> known && out)
      && (gap == Some(NoSingleBlock) <==> known && !out && (!served || (runs && ServingBlock(site.template, site.domain).Err?)))
      && (gap == None <==> known && !out && runs && TextRuns(site.template, site.domain, path, settingsMissing))
  {
    hide ServingBlock, Covered, Runs, Occurs;
    assert "include " + SETTINGS_PATH == "include /etc/nginx/global_settings";
    if site.domain in vhosts {
      GapParts(vhosts[site.domain], site.domain, path, settingsMissing);
    }
    GapParts(site.template, site.domain, path, settingsMissing);
  }

  lemma GapParts(s: string, domain: string, path: string, settingsMissing: bool)
    ensures TextRuns(s, domain, path, settingsMissing)
       <==> ServingBlock(s, domain).Ok? && Covered(ServingBlock(s, domain).value, path, settingsMissing)
  {
    hide ServingBlock, Covered, Runs;
    if ServingBlock(s, domain).Ok? {
      CoveredMeans(ServingBlock(s, domain).value, path, settingsMissing);
    }
  }
}
