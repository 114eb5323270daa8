/** Inserting one directive right after an opening brace changes nothing else that the parser of NginxConfig reports. */
module NginxInsertion {
  import opened Outcomes
  import opened Text
  import opened NginxConfig

  /** `length` characters inserted at offset `at`, holding the directive `added`. */
  datatype Edit = Edit(at: nat, length: nat, added: Directive)

  // ---- What the parser reports afterwards, in terms of what it reported before ----

  /** An offset where something starts: everything from the insertion point on moves. */
  function MovedStart(e: Edit, x: nat): nat {
    if x >= e.at then x + e.length else x
  }

  /** An offset where something ends: what ends at the insertion point stays. */
  function MovedEnd(e: Edit, x: nat): nat {
    if x > e.at then x + e.length else x
  }

  /** An empty directive keeps the start of the last word before it, which may be the added directive's. */
  function MovedDirective(e: Edit, d: Directive): Directive {
    Directive(d.words, if d.start < e.at < d.end then e.added.start else MovedStart(e, d.start), MovedEnd(e, d.end))
  }

  function MovedDirectives(e: Edit, open: nat, ds: seq<Directive>): seq<Directive> {
    (if open == e.at then [e.added] else []) + seq(|ds|, i requires 0 <= i < |ds| => MovedDirective(e, ds[i]))
  }

  /** The same block, moved; the one that opens at the insertion point gains the added directive first. */
  function MovedBlock(e: Edit, b: Block): Block {
    Block(b.words, MovedEnd(e, b.open), MovedEnd(e, b.end), MovedDirectives(e, b.open, b.directives),
          seq(|b.children|, i requires 0 <= i < |b.children| => MovedBlock(e, b.children[i])))
  }

  function MovedBlocks(e: Edit, bs: seq<Block>): seq<Block> {
    seq(|bs|, i requires 0 <= i < |bs| => MovedBlock(e, bs[i]))
  }

  function MovedFrame(e: Edit, f: Frame): Frame {
    Frame(f.words, MovedEnd(e, f.open), MovedDirectives(e, f.open, f.directives), MovedBlocks(e, f.children))
  }

  function MovedStack(e: Edit, fs: seq<Frame>): seq<Frame> {
    seq(|fs|, i requires 0 <= i < |fs| => MovedFrame(e, fs[i]))
  }

  function Inserted(s: string, p: nat, text: string): string
    requires p <= |s|
  {
    s[..p] + text + s[p..]
  }

  // ---- Scanners look no further than the text they consume ----

  lemma {:induction false} BraceRunAppend(a: string, z: string)
    ensures BraceRun(a + z) == if BraceRun(a) < |a| then BraceRun(a) else |a| + BraceRun(z)
  {
    if a == [] {
      assert a + z == z;
    } else if a[0] != '}' {
      assert (a + z)[1..] == a[1..] + z;
      BraceRunAppend(a[1..], z);
    }
  }

  lemma {:induction false} SpaceRunAppend(a: string, z: string)
    ensures SpaceRun(a + z) == if SpaceRun(a) < |a| then SpaceRun(a) else |a| + SpaceRun(z)
  {
    if a == [] {
      assert a + z == z;
    } else if IsSpace(a[0]) {
      assert (a + z)[1..] == a[1..] + z;
      SpaceRunAppend(a[1..], z);
    }
  }

  lemma {:induction false} LineRunAppend(a: string, z: string)
    ensures LineRun(a + z) == if LineRun(a) < |a| then LineRun(a) else |a| + LineRun(z)
  {
    if a == [] {
      assert a + z == z;
    } else if a[0] != LF {
      assert (a + z)[1..] == a[1..] + z;
      LineRunAppend(a[1..], z);
    }
  }

  lemma {:induction false} QuotedLocal(a: string, z: string, y: string, quote: char)
    requires QuotedLength(a + z, quote).Some? && QuotedLength(a + z, quote).value <= |a|
    ensures QuotedLength(a + y, quote) == QuotedLength(a + z, quote)
  {
    if a[0] != quote {
      if a[0] == '\\' {
        assert (a + z)[2..] == a[2..] + z;
        assert (a + y)[2..] == a[2..] + y;
        QuotedLocal(a[2..], z, y, quote);
      } else {
        assert (a + z)[1..] == a[1..] + z;
        assert (a + y)[1..] == a[1..] + y;
        QuotedLocal(a[1..], z, y, quote);
      }
    }
  }

  /** Text that may be inserted: it holds no closing brace and starts on a new line. */
  predicate Neutral(text: string) {
    text != [] && (text[0] == LF || text[0] == CR) && BraceRun(text) == |text|
  }

  /** The text before an insertion point: it ends with an opening brace that no `$` precedes. */
  predicate EndsWithBrace(a: string) {
    a != [] && a[|a| - 1] == '{' && (|a| >= 2 ==> a[|a| - 2] != '$')
  }

  lemma VariableIs(x: string)
    ensures !StartsWith(x, "${") ==> VariableLength(x) == None
    ensures StartsWith(x, "${") ==> |x| >= 2
    ensures StartsWith(x, "${") ==>
      var k := BraceRun(x[2..]);
      VariableLength(x) == if 0 < k && 2 + k < |x| then Some(3 + k) else None
  {
    hide BraceRun;
  }

  lemma VariableLocal(a: string, z: string, text: string)
    requires EndsWithBrace(a) && Neutral(text)
    requires VariableLength(a + z).Some? ==> VariableLength(a + z).value <= |a|
    ensures VariableLength(a + text + z) == VariableLength(a + z)
  {
    hide VariableLength, BraceRun, StartsWith;
    var y := text + z;
    assert a + text + z == a + y;
    HeadTwo(a, z, "${");
    HeadTwo(a, y, "${");
    VariableIs(a + z);
    VariableIs(a + y);
    StartsWithTwo(a, "${");
    if |a| >= 2 && StartsWith(a, "${") {
      assert |a| >= 3;
      assert (a + z)[2..] == a[2..] + z && (a + y)[2..] == a[2..] + y;
      BraceRunAppend(a[2..], z);
      BraceRunAppend(a[2..], y);
      BraceRunAppend(text, z);
    }
  }

  lemma StartsWithTwo(x: string, p: string)
    requires |p| == 2
    ensures StartsWith(x, p) <==> |x| >= 2 && x[0] == p[0] && x[1] == p[1]
  {
    if |x| >= 2 {
      assert x[0..2] == [x[0], x[1]] && p == [p[0], p[1]];
    }
  }

  lemma HeadTwo(a: string, z: string, p: string)
    requires |p| == 2 && |a| >= 1
    ensures |a| >= 2 ==> (StartsWith(a + z, p) <==> StartsWith(a, p))
    ensures |a| == 1 && StartsWith(a + z, p) ==> a[0] == p[0]
    ensures |a| == 1 && StartsWith(a + z, p) ==> z != [] && z[0] == p[1]
  {
    if |a| >= 2 {
      assert (a + z)[0..2] == a[0..2];
    } else if StartsWith(a + z, p) {
      assert p == (a + z)[0..2];
      assert p[0] == (a + z)[0] && p[1] == (a + z)[1];
    }
  }

  /** How many characters one item of a word takes, or none when the word ends here. */
  function WordItem(r: string): (n: nat)
    requires r != []
    ensures n <= |r|
    ensures WordRun(r) == if n == 0 then 0 else n + WordRun(r[n..])
  {
    match VariableLength(r)
    case Some(n) => n
    case None =>
      if r[0] == '\\' then if |r| >= 2 && !IsLineTerminator(r[1]) then 2 else 0
      else if IsPlain(r[0]) then 1
      else 0
  }

  lemma WordItemLocal(a: string, z: string, text: string)
    requires EndsWithBrace(a) && Neutral(text)
    requires WordItem(a + z) < |a|
    ensures WordItem(a + text + z) == WordItem(a + z)
  {
    assert a + text + z == a + (text + z);
    VariableLocal(a, z, text);
  }

  lemma {:induction false} WordLocal(a: string, z: string, text: string)
    requires EndsWithBrace(a) && Neutral(text)
    requires WordRun(a + z) < |a|
    ensures WordRun(a + text + z) == WordRun(a + z)
  {
    hide VariableLength, IsPlain, WordItem, WordRun, EndsWithBrace, Neutral;
    SomeBrace(a);
    WordItemLocal(a, z, text);
    var n := WordItem(a + z);
    if n > 0 {
      BraceTail(a, n);
      assert (a + z)[n..] == a[n..] + z && (a + text + z)[n..] == a[n..] + text + z;
      WordLocal(a[n..], z, text);
    }
  }

  lemma SomeBrace(a: string)
    requires EndsWithBrace(a)
    ensures a != []
  {
  }

  lemma MustacheIs(x: string)
    ensures !StartsWith(x, "{{") ==> MustacheLength(x) == None
    ensures StartsWith(x, "{{") ==> |x| >= 2
    ensures StartsWith(x, "{{") ==>
      var k := 2 + BraceRun(x[2..]);
      MustacheLength(x) == if k + 1 < |x| && x[k + 1] == '}' then Some(k + 2) else None
  {
    hide BraceRun;
  }

  lemma MustacheLocal(a: string, z: string, text: string)
    requires EndsWithBrace(a) && |a| >= 2 && Neutral(text)
    requires MustacheLength(a + z).Some? ==> MustacheLength(a + z).value <= |a|
    ensures MustacheLength(a + text + z) == MustacheLength(a + z)
  {
    hide MustacheLength, BraceRun, StartsWith, EndsWithBrace, Neutral;
    var y := text + z;
    assert a + text + z == a + y;
    HeadTwo(a, z, "{{");
    HeadTwo(a, y, "{{");
    MustacheIs(a + z);
    MustacheIs(a + y);
    if StartsWith(a, "{{") {
      FirstBraceBehind(a, z, text);
      var i, i' := 2 + BraceRun((a + z)[2..]), 2 + BraceRun((a + y)[2..]);
      SameBehind(a, z, text, i, i');
    }
  }

  /** What stands right behind the first closing brace, in `a` or moved with `z`. */
  lemma SameBehind(a: string, z: string, text: string, i: nat, i': nat)
    requires (i == i' && i + 1 < |a|) || (i >= |a| && i' == i + |text|)
    ensures i + 1 < |a + z| <==> i' + 1 < |a + (text + z)|
    ensures i + 1 < |a + z| ==> (a + z)[i + 1] == (a + (text + z))[i' + 1]
  {
    if i >= |a| && i + 1 < |a + z| {
      assert (a + z)[i + 1] == z[i + 1 - |a|];
      assert (a + (text + z))[i' + 1] == (text + z)[i' + 1 - |a|] == z[i + 1 - |a|];
    }
  }

  /** The first closing brace is in `a`, before its last character, or it moves with `z`. */
  lemma FirstBraceBehind(a: string, z: string, text: string)
    requires EndsWithBrace(a) && |a| >= 2 && Neutral(text)
    ensures
      var i, i' := 2 + BraceRun((a + z)[2..]), 2 + BraceRun((a + (text + z))[2..]);
      (i == i' && i + 1 < |a|) || (i >= |a| && i' == i + |text|)
  {
    var y := text + z;
    assert (a + z)[2..] == a[2..] + z && (a + y)[2..] == a[2..] + y;
    BraceRunAppend(a[2..], z);
    BraceRunAppend(a[2..], y);
    BraceRunAppend(text, z);
    var k := BraceRun(a[2..]);
    assert k < |a| - 2 ==> a[2..][k] == a[k + 2] == '}';
  }

  /** A token that ends before the brace is the same token after an insertion behind the brace. */
  lemma TokenLocal(a: string, z: string, text: string)
    requires EndsWithBrace(a) && Neutral(text)
    requires TokenLength(a + z).Some? && TokenLength(a + z).value < |a|
    ensures TokenLength(a + text + z) == TokenLength(a + z)
  {
    var y := text + z;
    assert a + text + z == a + y;
    if IsSpace(a[0]) {
      SpaceRunAppend(a, z);
      SpaceRunAppend(a, y);
    } else if a[0] == '#' {
      LineRunAppend(a, z);
      LineRunAppend(a, y);
    } else {
      MustacheLocal(a, z, text);
      if MustacheLength(a + z).None? {
        if a[0] == '"' || a[0] == '\'' {
          assert (a + z)[1..] == a[1..] + z && (a + y)[1..] == a[1..] + y;
          QuotedLocal(a[1..], z, y, a[0]);
        } else {
          WordLocal(a, z, text);
        }
      }
    }
  }

  lemma BraceLocal(z: string, text: string)
    requires TokenLength("{" + z) == Some(1) && Neutral(text)
    ensures TokenLength("{" + text + z) == Some(1)
  {
    HeadTwo("{", text + z, "{{");
    assert "{" + text + z == "{" + (text + z);
  }

  // ---- The parser up to the insertion point ----

  /** Reading `r`, which starts at offset `at`, the parser meets an opening brace that ends at `p`. */
  predicate MeetsBrace(r: string, at: nat, p: nat)
    decreases |r|
  {
    r != [] && TokenLength(r).Some? &&
    var n := TokenLength(r).value;
    (r[..n] == "{" && at + n == p) || MeetsBrace(r[n..], at + n, p)
  }

  lemma {:induction false} MeetsBraceBound(r: string, at: nat, p: nat)
    requires MeetsBrace(r, at, p)
    ensures at < p <= at + |r| && r[p - at - 1] == '{'
  {
    hide TokenLength;
    var n := TokenLength(r).value;
    if !(r[..n] == "{" && at + n == p) {
      MeetsBraceBound(r[n..], at + n, p);
    }
  }

  // ---- Moving commutes with everything the parser does to its state ----

  lemma MovedAppend(e: Edit, bs: seq<Block>, b: Block)
    ensures MovedBlocks(e, bs + [b]) == MovedBlocks(e, bs) + [MovedBlock(e, b)]
  {
  }

  lemma MovedAddDirective(e: Edit, fs: seq<Frame>, d: Directive)
    ensures MovedStack(e, AddDirective(fs, d)) == AddDirective(MovedStack(e, fs), MovedDirective(e, d))
  {
    if fs != [] {
      var top := fs[|fs| - 1];
      var top' := top.(directives := top.directives + [d]);
      assert MovedDirectives(e, top.open, top'.directives)
          == MovedDirectives(e, top.open, top.directives) + [MovedDirective(e, d)];
      assert MovedFrame(e, top') == MovedFrame(e, top).(directives := MovedFrame(e, top).directives + [MovedDirective(e, d)]);
    }
  }

  lemma MovedAddChild(e: Edit, fs: seq<Frame>, b: Block)
    ensures MovedStack(e, AddChild(fs, b)) == AddChild(MovedStack(e, fs), MovedBlock(e, b))
  {
    if fs != [] {
      var top := fs[|fs| - 1];
      MovedAppend(e, top.children, b);
      assert MovedFrame(e, top.(children := top.children + [b]))
          == MovedFrame(e, top).(children := MovedFrame(e, top).children + [MovedBlock(e, b)]);
    }
  }

  lemma MovedClosed(e: Edit, f: Frame, end: nat)
    ensures MovedBlock(e, Closed(f, end)) == Closed(MovedFrame(e, f), MovedEnd(e, end))
  {
  }

  lemma MovedPop(e: Edit, fs: seq<Frame>)
    requires fs != []
    ensures MovedStack(e, fs[..|fs| - 1]) == MovedStack(e, fs)[..|fs| - 1]
  {
  }

  /** Two states of the parser, before and after the edit, at the same token behind the insertion point. */
  ghost predicate Corresponds(e: Edit, st: State, st': State) {
    && st'.stack == MovedStack(e, st.stack)
    && st'.result == MovedBlocks(e, st.result)
    && st'.words == st.words
    && st'.start == if st.start >= e.at then st.start + e.length else e.added.start
  }

  lemma MovedPush(e: Edit, fs: seq<Frame>, words: seq<string>, open: nat)
    ensures MovedStack(e, fs + [Frame(words, open, [], [])])
         == MovedStack(e, fs) + [Frame(words, MovedEnd(e, open), if open == e.at then [e.added] else [], [])]
  {
    var f := Frame(words, open, [], []);
    assert MovedFrame(e, f) == Frame(words, MovedEnd(e, open), if open == e.at then [e.added] else [], []);
  }

  lemma MovedClose(e: Edit, fs: seq<Frame>, result: seq<Block>, end: nat)
    requires fs != []
    ensures
      var fs', end' := MovedStack(e, fs), MovedEnd(e, end);
      var b, b' := Closed(fs[|fs| - 1], end), Closed(fs'[|fs'| - 1], end');
      && b'.words == b.words
      && MovedStack(e, AddChild(fs[..|fs| - 1], b)) == AddChild(fs'[..|fs'| - 1], b')
      && MovedBlocks(e, result + [b]) == MovedBlocks(e, result) + [b']
  {
    var b := Closed(fs[|fs| - 1], end);
    MovedPop(e, fs);
    MovedClosed(e, fs[|fs| - 1], end);
    MovedAddChild(e, fs[..|fs| - 1], b);
    MovedAppend(e, result, b);
  }

  lemma MovedLength(e: Edit, fs: seq<Frame>)
    ensures |MovedStack(e, fs)| == |fs|
  {
  }

  lemma StepBehind(e: Edit, st: State, st': State, value: string, at: nat)
    requires value != [] && e.at <= at && Corresponds(e, st, st')
    requires Step(st, value, at).Ok?
    ensures Step(st', value, at + e.length).Ok?
    ensures Corresponds(e, Step(st, value, at).value, Step(st', value, at + e.length).value)
  {
    hide MovedStack, MovedBlocks, AddDirective, AddChild, Closed, Joined;
    var after := at + |value|;
    MovedLength(e, st.stack);
    if IsSpace(value[0]) || value[0] == '#' {
    } else if StartsWith(value, "{{") && st.words == [] {
      MovedAddDirective(e, st.stack, Directive(["server_name", value], at, after));
    } else if value == "{" {
      MovedPush(e, st.stack, st.words, at + 1);
    } else if value == "}" {
      MovedClose(e, st.stack, st.result, after);
    } else if value == ";" {
      MovedAddDirective(e, st.stack, Directive(st.words, st.start, after));
    }
  }

  lemma {:induction false} RunBehind(e: Edit, r: string, at: nat, st: State, st': State)
    requires e.at <= at && Corresponds(e, st, st')
    requires Run(r, at, st).Ok?
    ensures Run(r, at + e.length, st').Ok?
    ensures Corresponds(e, Run(r, at, st).value, Run(r, at + e.length, st').value)
    decreases |r|
  {
    hide Step, TokenLength, MovedStack, MovedBlocks;
    if r != [] {
      var n := TokenLength(r).value;
      StepBehind(e, st, st', r[..n], at);
      RunBehind(e, r[n..], at + n, Step(st, r[..n], at).value, Step(st', r[..n], at + e.length).value);
    }
  }

  // ---- The parser up to the insertion point ----

  /** Nothing recorded so far is moved by the edit. */
  ghost predicate Untouched(e: Edit, st: State) {
    && MovedStack(e, st.stack) == st.stack
    && MovedBlocks(e, st.result) == st.result
    && st.start < e.at
  }

  lemma StepBefore(e: Edit, st: State, value: string, at: nat)
    requires value != [] && at + |value| < e.at && Untouched(e, st)
    requires Step(st, value, at).Ok?
    ensures Untouched(e, Step(st, value, at).value)
  {
    hide MovedStack, MovedBlocks, AddDirective, AddChild, Closed, Joined;
    var after := at + |value|;
    if IsSpace(value[0]) || value[0] == '#' {
    } else if StartsWith(value, "{{") && st.words == [] {
      MovedAddDirective(e, st.stack, Directive(["server_name", value], at, after));
    } else if value == "{" {
      MovedPush(e, st.stack, st.words, at + 1);
    } else if value == "}" {
      MovedClose(e, st.stack, st.result, after);
    } else if value == ";" {
      MovedAddDirective(e, st.stack, Directive(st.words, st.start, after));
    }
  }

  lemma StepAt(e: Edit, st: State, at: nat)
    requires at + 1 == e.at && Untouched(e, st)
    ensures Step(st, "{", at) == Ok(State(st.stack + [Frame(st.words, e.at, [], [])], st.result, [], st.start))
    ensures
      var stack := st.stack + [Frame(st.words, e.at, [], [])];
      MovedStack(e, stack) == AddDirective(stack, e.added)
  {
    assert !StartsWith("{", "{{");
    MovedPush(e, st.stack, st.words, e.at);
    var stack := st.stack + [Frame(st.words, e.at, [], [])];
    assert stack[..|stack| - 1] == st.stack && [] + [e.added] == [e.added];
    assert MovedStack(e, st.stack) == st.stack;
    assert AddDirective(stack, e.added) == st.stack + [Frame(st.words, e.at, [e.added], [])];
  }

  /** The parser comes to the insertion point in one and the same state, whatever neutral text follows it. */
  lemma {:induction false} RunBefore(e: Edit, a: string, z: string, text: string, at: nat, st: State) returns (mid: State)
    requires EndsWithBrace(a) && Neutral(text) && e.at == at + |a|
    requires MeetsBrace(a + z, at, e.at) && Untouched(e, st)
    requires Run(a + z, at, st).Ok?
    ensures Run(a + z, at, st) == Run(z, e.at, mid)
    ensures Run(a + text + z, at, st) == Run(text + z, e.at, mid)
    ensures mid.words == [] && mid.stack != [] && mid.start < e.at
    ensures MovedBlocks(e, mid.result) == mid.result
    ensures mid.stack[|mid.stack| - 1] == Frame(mid.stack[|mid.stack| - 1].words, e.at, [], [])
    ensures MovedStack(e, mid.stack) == AddDirective(mid.stack, e.added)
    decreases |a|
  {
    hide Step, TokenLength, MovedStack, MovedBlocks, EndsWithBrace, Neutral;
    var n := TokenLength(a + z).value;
    assert (a + z)[..n] + (a + z)[n..] == a + z;
    if (a + z)[..n] == "{" && at + n == e.at {
      assert a == "{";
      StepAt(e, st, at);
      mid := Step(st, "{", at).value;
      RunAtBrace(z, text, at, st);
    } else {
      MeetsBraceBound((a + z)[n..], at + n, e.at);
      BraceTail(a, n);
      TokenLocal(a, z, text);
      TakeLocal(a, z, text, n);
      StepBefore(e, st, a[..n], at);
      mid := RunBefore(e, a[n..], z, text, at + n, Step(st, a[..n], at).value);
    }
  }

  lemma RunAtBrace(z: string, text: string, at: nat, st: State)
    requires TokenLength("{" + z) == Some(1) && Neutral(text) && Step(st, "{", at).Ok?
    ensures Run("{" + z, at, st) == Run(z, at + 1, Step(st, "{", at).value)
    ensures Run("{" + text + z, at, st) == Run(text + z, at + 1, Step(st, "{", at).value)
  {
    hide Step, TokenLength, Neutral, Run;
    BraceLocal(z, text);
    assert "{" + text + z == "{" + (text + z);
    RunTake("{", z, at, st);
    RunTake("{", text + z, at, st);
  }

  lemma BraceTail(a: string, n: nat)
    requires EndsWithBrace(a) && n < |a|
    ensures EndsWithBrace(a[n..])
  {
  }

  lemma TakeLocal(a: string, z: string, text: string, n: nat)
    requires n <= |a|
    ensures (a + z)[..n] == a[..n] == (a + text + z)[..n]
    ensures (a + z)[n..] == a[n..] + z && (a + text + z)[n..] == a[n..] + text + z
  {
  }

  // ---- Every reported block opens at a brace the parser met, and no two open at the same place ----

  lemma JoinedSpace(words: seq<string>)
    requires |words| >= 2
    ensures ' ' in Joined(words)
  {
    assert Joined(words)[|words[0]|] == ' ';
  }

  lemma JoinedServer(words: seq<string>)
    requires IsServer(words)
    ensures words == ["server"]
  {
    if |words| >= 2 {
      JoinedSpace(words);
    }
  }

  /** `open` is where the parser of `s` met a brace, and no `$` comes before the brace of a `server` block. */
  ghost predicate OpenKnown(s: string, words: seq<string>, open: nat) {
    && 0 < open <= |s|
    && MeetsBrace(s, 0, open)
    && (IsServer(words) ==> EndsWithBrace(s[..open]))
  }

  ghost predicate FramesKnown(s: string, fs: seq<Frame>) {
    forall i :: 0 <= i < |fs| ==> OpenKnown(s, fs[i].words, fs[i].open)
  }

  ghost predicate ServersKnown(s: string, bs: seq<Block>) {
    forall i :: 0 <= i < |bs| ==> OpenKnown(s, bs[i].words, bs[i].open) && IsServer(bs[i].words)
  }

  ghost predicate OpensKnown(s: string, st: State) {
    FramesKnown(s, st.stack) && ServersKnown(s, st.result)
  }

  /** A `$` right before a brace is the end of the last word. */
  ghost predicate DollarIsWord(s: string, at: nat, st: State) {
    0 < at < |s| && s[at - 1] == '$' && s[at] == '{' ==>
      st.words != [] && st.words[|st.words| - 1] != "server"
  }

  lemma AddKeepsOpens(s: string, fs: seq<Frame>, d: Directive, b: Block)
    requires FramesKnown(s, fs)
    ensures FramesKnown(s, AddDirective(fs, d)) && FramesKnown(s, AddChild(fs, b))
  {
    hide OpenKnown;
  }

  /** What is closed was known while it was open. */
  lemma CloseKeepsOpens(s: string, fs: seq<Frame>, result: seq<Block>, end: nat)
    requires fs != [] && FramesKnown(s, fs) && ServersKnown(s, result)
    ensures
      var block := Closed(fs[|fs| - 1], end);
      FramesKnown(s, fs[..|fs| - 1]) && (IsServer(block.words) ==> ServersKnown(s, result + [block]))
  {
    hide OpenKnown, IsServer;
  }

  lemma PushKeepsOpens(s: string, st: State, at: nat)
    requires at < |s| && s[at] == '{' && MeetsBrace(s, 0, at + 1)
    requires DollarIsWord(s, at, st) && FramesKnown(s, st.stack)
    ensures FramesKnown(s, st.stack + [Frame(st.words, at + 1, [], [])])
  {
    hide MeetsBrace;
    if IsServer(st.words) {
      JoinedServer(st.words);
    }
    assert OpenKnown(s, st.words, at + 1);
    hide OpenKnown;
  }

  lemma StepOpensKnown(s: string, st: State, value: string, at: nat)
    requires value != [] && at + |value| <= |s| && s[at..at + |value|] == value
    requires OpensKnown(s, st) && DollarIsWord(s, at, st)
    requires value == "{" ==> MeetsBrace(s, 0, at + 1)
    requires Step(st, value, at).Ok?
    ensures OpensKnown(s, Step(st, value, at).value)
  {
    hide FramesKnown, ServersKnown, DollarIsWord, MeetsBrace, AddDirective, AddChild, IsServer;
    var after := at + |value|;
    var none := Closed(Frame([], 0, [], []), 0);
    if IsSpace(value[0]) || value[0] == '#' {
    } else if StartsWith(value, "{{") && st.words == [] {
      AddKeepsOpens(s, st.stack, Directive(["server_name", value], at, after), none);
    } else if value == "{" {
      assert s[at] == value[0];
      PushKeepsOpens(s, st, at);
    } else if value == "}" {
      CloseKeepsOpens(s, st.stack, st.result, after);
      AddKeepsOpens(s, st.stack[..|st.stack| - 1], Directive([], 0, 0), Closed(st.stack[|st.stack| - 1], after));
    } else if value == ";" {
      AddKeepsOpens(s, st.stack, Directive(st.words, st.start, after), none);
    }
  }

  /** A token that ends with a `$` is neither white space nor, with a brace behind it, a comment or a quoted string. */
  lemma DollarEnds(r: string, n: nat)
    requires r != [] && TokenLength(r) == Some(n) && 0 < n < |r| && r[n - 1] == '$' && r[n] == '{'
    ensures !IsSpace(r[0]) && r[0] !in "#{\"'"
  {
    if IsSpace(r[0]) {
      SpaceRunAll(r);
    } else if r[0] == '#' {
      LineRunEnd(r);
    } else if MustacheLength(r).Some? {
      MustacheEnds(r);
    } else if r[0] == '"' || r[0] == '\'' {
      QuotedEnd(r[1..], r[0]);
    }
    if r[0] == '{' {
      StartsWithTwo(r, "${");
    }
  }

  lemma MustacheEnds(r: string)
    requires MustacheLength(r).Some?
    ensures r[MustacheLength(r).value - 1] == '}'
  {
  }

  /** Whatever token ends with a `$` that a brace follows, it is a word. */
  lemma StepDollar(s: string, st: State, n: nat, at: nat)
    requires at < |s| && TokenLength(s[at..]) == Some(n) && Step(st, s[at..at + n], at).Ok?
    ensures DollarIsWord(s, at + n, Step(st, s[at..at + n], at).value)
  {
    hide TokenLength, AddDirective, AddChild, IsServer;
    var r, value := s[at..], s[at..at + n];
    var next := at + n;
    if next < |s| && s[next - 1] == '$' && s[next] == '{' {
      assert r[n - 1] == '$' && r[n] == '{' && r[..n] == value;
      DollarEnds(r, n);
      assert value[0] == r[0] && value[n - 1] == '$';
      WordIsKept(st, value, at);
    }
  }

  lemma WordIsKept(st: State, value: string, at: nat)
    requires value != [] && !IsSpace(value[0]) && value[0] !in "#{\"'" && value[|value| - 1] == '$'
    ensures Step(st, value, at) == Ok(st.(words := st.words + [value], start := if st.words == [] then at else st.start))
    ensures value != "server"
  {
    hide AddDirective, AddChild, IsServer;
    StartsWithTwo(value, "{{");
    assert Unquoted(value) == value;
  }

  lemma {:induction false} SpaceRunAll(r: string)
    ensures forall i :: 0 <= i < SpaceRun(r) ==> IsSpace(r[i])
    ensures SpaceRun(r) < |r| ==> !IsSpace(r[SpaceRun(r)])
  {
    if r != [] && IsSpace(r[0]) {
      SpaceRunAll(r[1..]);
    }
  }

  lemma {:induction false} LineRunEnd(r: string)
    ensures LineRun(r) < |r| ==> r[LineRun(r)] == LF
    ensures forall i :: 0 <= i < LineRun(r) ==> r[i] != LF
  {
    if r != [] && r[0] != LF {
      LineRunEnd(r[1..]);
    }
  }

  lemma {:induction false} QuotedEnd(r: string, quote: char)
    ensures QuotedLength(r, quote).Some? ==> r[QuotedLength(r, quote).value - 1] == quote
  {
    if r != [] && r[0] != quote {
      if r[0] == '\\' {
        if |r| >= 2 {
          QuotedEnd(r[2..], quote);
        }
      } else {
        QuotedEnd(r[1..], quote);
      }
    }
  }

  lemma {:induction false} RunOpensKnown(s: string, at: nat, st: State)
    requires at <= |s| && OpensKnown(s, st) && DollarIsWord(s, at, st)
    requires forall p :: MeetsBrace(s[at..], at, p) ==> MeetsBrace(s, 0, p)
    requires Run(s[at..], at, st).Ok?
    ensures OpensKnown(s, Run(s[at..], at, st).value)
    decreases |s| - at
  {
    hide Step, TokenLength, OpensKnown, DollarIsWord;
    if at < |s| {
      var r := s[at..];
      var n := TokenLength(r).value;
      assert r[n..] == s[at + n..] && r[..n] == s[at..at + n];
      StepDollar(s, st, n, at);
      StepOpensKnown(s, st, r[..n], at);
      RunOpensKnown(s, at + n, Step(st, r[..n], at).value);
    }
  }

  lemma ServerOpens(s: string, b: Block)
    requires Servers(s).Ok? && b in Servers(s).value
    ensures IsServer(b.words)
    ensures 0 < b.open <= |s| && EndsWithBrace(s[..b.open]) && MeetsBrace(s, 0, b.open)
  {
    assert s[0..] == s;
    RunOpensKnown(s, 0, START);
  }

  /** The offsets where blocks open, each block before its children, in the order of the text. */
  ghost function Opens(bs: seq<Block>): seq<nat> {
    if bs == [] then [] else [bs[0].open] + Opens(bs[0].children) + Opens(bs[1..])
  }

  ghost function StackOpens(fs: seq<Frame>): seq<nat> {
    if fs == [] then [] else [fs[0].open] + Opens(fs[0].children) + StackOpens(fs[1..])
  }

  ghost predicate Increasing(xs: seq<nat>) {
    forall i, j :: 0 <= i < j < |xs| ==> xs[i] < xs[j]
  }

  lemma {:induction false} OpensAppend(a: seq<Block>, b: seq<Block>)
    ensures Opens(a + b) == Opens(a) + Opens(b)
  {
    if a == [] {
      assert a + b == b;
    } else {
      assert (a + b)[1..] == a[1..] + b;
      OpensAppend(a[1..], b);
    }
  }

  lemma {:induction false} StackOpensAppend(a: seq<Frame>, b: seq<Frame>)
    ensures StackOpens(a + b) == StackOpens(a) + StackOpens(b)
  {
    if a == [] {
      assert a + b == b;
    } else {
      assert (a + b)[1..] == a[1..] + b;
      StackOpensAppend(a[1..], b);
    }
  }

  lemma StackOpensTop(fs: seq<Frame>)
    requires fs != []
    ensures StackOpens(fs) == StackOpens(fs[..|fs| - 1]) + [fs[|fs| - 1].open] + Opens(fs[|fs| - 1].children)
  {
    hide StackOpens, Opens;
    LastApart(fs);
    StackOpensPush(fs[..|fs| - 1], fs[|fs| - 1]);
  }

  lemma LastApart<T>(s: seq<T>)
    requires s != []
    ensures s == s[..|s| - 1] + [s[|s| - 1]]
  {
  }

  lemma StackOpensOne(f: Frame)
    ensures StackOpens([f]) == [f.open] + Opens(f.children)
  {
    assert [f][1..] == [];
    assert [f.open] + Opens(f.children) + [] == [f.open] + Opens(f.children);
  }

  lemma StackOpensAdd(fs: seq<Frame>, d: Directive, b: Block)
    ensures StackOpens(AddDirective(fs, d)) == StackOpens(fs)
    ensures fs != [] ==> StackOpens(AddChild(fs, b)) == StackOpens(fs) + [b.open] + Opens(b.children)
  {
    hide StackOpens, Opens;
    if fs != [] {
      var below, top := fs[..|fs| - 1], fs[|fs| - 1];
      var added, withChild := top.(directives := top.directives + [d]), top.(children := top.children + [b]);
      StackOpensPush(below, top);
      StackOpensPush(below, added);
      StackOpensPush(below, withChild);
      assert fs == below + [top];
      OpensAppend(top.children, [b]);
      OneOpen(b);
    }
  }

  lemma StackOpensPush(below: seq<Frame>, top: Frame)
    ensures StackOpens(below + [top]) == StackOpens(below) + [top.open] + Opens(top.children)
  {
    hide StackOpens, Opens;
    StackOpensAppend(below, [top]);
    StackOpensOne(top);
  }

  /** Offsets in increasing order, none of them past `at`. */
  ghost predicate Within(opens: seq<nat>, at: nat) {
    Increasing(opens) && forall i :: 0 <= i < |opens| ==> opens[i] <= at
  }

  ghost function AllOpens(st: State): seq<nat> {
    Opens(st.result) + StackOpens(st.stack)
  }

  ghost predicate Ordered(st: State, at: nat) {
    Within(AllOpens(st), at)
  }

  lemma WithinLater(opens: seq<nat>, at: nat, later: nat)
    requires Within(opens, at) && at <= later
    ensures Within(opens, later)
  {
  }

  lemma WithinFront(opens: seq<nat>, front: seq<nat>, at: nat)
    requires Within(opens, at) && front <= opens
    ensures Within(front, at)
  {
  }

  lemma WithinSnoc(opens: seq<nat>, at: nat, open: nat)
    requires Within(opens, at) && at < open
    ensures Within(opens + [open], open)
  {
  }

  /** An opening brace adds its offset, last. */
  lemma PushOpens(st: State, words: seq<string>, open: nat)
    ensures StackOpens(st.stack + [Frame(words, open, [], [])]) == StackOpens(st.stack) + [open]
  {
    hide Opens, StackOpens;
    StackOpensPush(st.stack, Frame(words, open, [], []));
    NoOpens();
  }

  /** A closing brace keeps the offsets of what it closes, or drops them with a top block that is not a server. */
  lemma CloseOpens(st: State, end: nat)
    requires st.stack != []
    ensures
      var below, block := st.stack[..|st.stack| - 1], Closed(st.stack[|st.stack| - 1], end);
      var result := if below == [] && IsServer(block.words) then st.result + [block] else st.result;
      Opens(result) + StackOpens(AddChild(below, block)) <= AllOpens(st)
  {
    hide Joined, Opens, StackOpens, AddDirective, AddChild;
    var below, b := st.stack[..|st.stack| - 1], Closed(st.stack[|st.stack| - 1], end);
    StackOpensTop(st.stack);
    NoOpens();
    if below == [] {
      OpensAppend(st.result, [b]);
      OneOpen(b);
      NoChild(b);
      assert Opens(st.result) + ([b.open] + Opens(b.children)) == AllOpens(st);
    } else {
      StackOpensAdd(below, Directive([], 0, 0), b);
      assert StackOpens(AddChild(below, b)) == StackOpens(st.stack);
    }
  }

  lemma StepOrdered(st: State, value: string, at: nat)
    requires value != [] && Ordered(st, at) && Step(st, value, at).Ok?
    ensures Ordered(Step(st, value, at).value, at + |value|)
  {
    hide IsServer, Opens, StackOpens, AddDirective, AddChild, Within;
    var after := at + |value|;
    var none := Closed(Frame([], 0, [], []), 0);
    var next := Step(st, value, at).value;
    WithinLater(AllOpens(st), at, after);
    if IsSpace(value[0]) || value[0] == '#' {
    } else if StartsWith(value, "{{") && st.words == [] {
      StackOpensAdd(st.stack, Directive(["server_name", value], at, after), none);
    } else if value == "{" {
      PushOpens(st, st.words, at + 1);
      assert AllOpens(next) == AllOpens(st) + [at + 1];
      WithinSnoc(AllOpens(st), at, at + 1);
    } else if value == "}" {
      CloseOpens(st, after);
      WithinFront(AllOpens(st), AllOpens(next), after);
    } else if value == ";" {
      StackOpensAdd(st.stack, Directive(st.words, st.start, after), none);
    }
  }

  lemma OneOpen(b: Block)
    ensures Opens([b]) == [b.open] + Opens(b.children)
  {
    assert Opens([b][1..]) == [];
  }

  lemma NoOpens()
    ensures Opens([]) == [] && StackOpens([]) == []
  {
  }

  lemma NoChild(b: Block)
    ensures AddChild([], b) == []
  {
  }

  lemma {:induction false} RunOrdered(r: string, at: nat, st: State)
    requires Ordered(st, at) && Run(r, at, st).Ok?
    ensures Ordered(Run(r, at, st).value, at + |r|)
    decreases |r|
  {
    hide Step, TokenLength, Ordered;
    if r != [] {
      var n := TokenLength(r).value;
      StepOrdered(st, r[..n], at);
      RunOrdered(r[n..], at + n, Step(st, r[..n], at).value);
    }
  }

  /** No two blocks of a vhost, at any depth, open at the same offset. */
  lemma OpensDistinct(s: string)
    requires Servers(s).Ok?
    ensures Increasing(Opens(Servers(s).value))
  {
    RunOrdered(s, 0, START);
    var st := Run(s, 0, START).value;
    assert Opens(st.result) + StackOpens(st.stack) == Opens(st.result);
  }

  // ---- The inserted text ----

  lemma RunTake(value: string, r: string, at: nat, st: State)
    requires value != [] && TokenLength(value + r) == Some(|value|)
    ensures Run(value + r, at, st) == match Step(st, value, at) case Err(e) => Err(e) case Ok(next) => Run(r, at + |value|, next)
  {
    hide Step, TokenLength;
    assert (value + r)[..|value|] == value && (value + r)[|value|..] == r;
  }

  lemma RunSpaceToken(space: string, r: string, at: nat, st: State)
    requires space != [] && SpaceRun(space) == |space| && SpaceRun(r) == 0
    ensures Run(space + r, at, st) == Run(r, at + |space|, st)
  {
    hide Run, WordRun, MustacheLength, QuotedLength, LineRun;
    SpaceRunAppend(space, r);
    RunTake(space, r, at, st);
  }

  lemma {:induction false} SpaceRunOf(space: string)
    requires forall i :: 0 <= i < |space| ==> IsSpace(space[i])
    ensures SpaceRun(space) == |space|
  {
    if space != [] {
      SpaceRunOf(space[1..]);
    }
  }

  lemma SpaceRunSplit(r: string)
    ensures SpaceRun(r[..SpaceRun(r)]) == SpaceRun(r) && SpaceRun(r[SpaceRun(r)..]) == 0
  {
    SpaceRunAll(r);
    SpaceRunOf(r[..SpaceRun(r)]);
  }

  /** White space is skipped, also where more of it follows. */
  lemma RunSpaces(space: string, r: string, at: nat, st: State)
    requires space != [] && SpaceRun(space) == |space|
    ensures Run(space + r, at, st) == Run(r, at + |space|, st)
  {
    hide Run, SpaceRun;
    var k := SpaceRun(r);
    SpaceRunSplit(r);
    var all := space + r[..k];
    assert space + r == all + r[k..] && r == r[..k] + r[k..];
    SpaceRunAppend(space, r[..k]);
    RunSpaceToken(all, r[k..], at, st);
    if k > 0 {
      RunSpaceToken(r[..k], r[k..], at + |space|, st);
    } else {
      assert r[k..] == r && all == space;
    }
  }

  lemma RunComment(comment: string, r: string, at: nat, st: State)
    requires comment != [] && comment[0] == '#' && LineRun(comment) == |comment|
    requires r != [] && r[0] == LF
    ensures Run(comment + r, at, st) == Run(r, at + |comment|, st)
  {
    hide Run;
    LineRunAppend(comment, r);
    RunTake(comment, r, at, st);
  }

  predicate PlainWord(w: string) {
    w != [] && forall i :: 0 <= i < |w| ==> IsPlain(w[i])
  }

  lemma {:induction false} PlainWordRun(w: string, r: string)
    requires forall i :: 0 <= i < |w| ==> IsPlain(w[i])
    requires r != [] && (IsSpace(r[0]) || r[0] == ';')
    ensures WordRun(w + r) == |w|
  {
    if w == [] {
      assert w + r == r;
      StartsWithTwo(r, "${");
    } else {
      var x := w + r;
      StartsWithTwo(x, "${");
      assert x[1..] == w[1..] + r;
      PlainWordRun(w[1..], r);
    }
  }

  lemma RunWord(w: string, r: string, at: nat, st: State)
    requires PlainWord(w) && r != [] && (IsSpace(r[0]) || r[0] == ';')
    ensures Run(w + r, at, st) == Run(r, at + |w|, st.(words := st.words + [w], start := if st.words == [] then at else st.start))
  {
    hide Run;
    PlainWordRun(w, r);
    var x := w + r;
    assert x[0] == w[0];
    StartsWithTwo(x, "{{");
    RunTake(w, r, at, st);
    StartsWithTwo(w, "{{");
  }

  lemma RunSemicolon(r: string, at: nat, st: State)
    ensures Run(";" + r, at, st)
         == Run(r, at + 1, st.(stack := AddDirective(st.stack, Directive(st.words, st.start, at + 1)), words := []))
  {
    hide Run;
    var x := ";" + r;
    StartsWithTwo(x, "${");
    StartsWithTwo(x, "{{");
    RunTake(";", r, at, st);
  }

  // ---- The theorem ----

  /** Read at offset `at`, with no directive begun, `text` is the directive `added` and nothing else. */
  ghost predicate IsDirective(text: string, at: nat, added: Directive) {
    forall r: string, st: State | st.words == [] ::
      Run(text + r, at, st) == Run(r, at + |text|, st.(stack := AddDirective(st.stack, added), start := added.start))
  }

  lemma RunInserted(e: Edit, a: string, z: string, text: string)
    requires EndsWithBrace(a) && Neutral(text) && IsDirective(text, e.at, e.added)
    requires e.at == |a| && e.length == |text| && MeetsBrace(a + z, 0, e.at)
    requires Run(a + z, 0, START).Ok?
    ensures Run(a + text + z, 0, START).Ok?
    ensures Corresponds(e, Run(a + z, 0, START).value, Run(a + text + z, 0, START).value)
  {
    hide Run, MeetsBrace, MovedStack, MovedBlocks, AddDirective, Neutral, EndsWithBrace;
    NothingUntouched(e);
    assert e.at > 0 by {
      MeetsBraceBound(a + z, 0, e.at);
    }
    var mid := RunBefore(e, a, z, text, 0, START);
    var mid' := mid.(stack := AddDirective(mid.stack, e.added), start := e.added.start);
    assert Run(text + z, e.at, mid) == Run(z, e.at + |text|, mid');
    RunBehind(e, z, e.at, mid, mid');
  }

  /** Text that reads as one directive, put behind the opening brace of a server block, adds that directive to
    * that block, first, and changes nothing else but offsets. */
  lemma InsertDirective(s: string, b: Block, text: string, added: Directive)
    requires Servers(s).Ok? && b in Servers(s).value
    requires Neutral(text) && IsDirective(text, b.open, added)
    ensures b.open <= |s|
    ensures Servers(Inserted(s, b.open, text)) == Ok(MovedBlocks(Edit(b.open, |text|, added), Servers(s).value))
  {
    hide Run, MeetsBrace, MovedStack, MovedBlocks, Neutral, EndsWithBrace, IsDirective;
    ServerOpens(s, b);
    var e := Edit(b.open, |text|, added);
    var a, z := s[..b.open], s[b.open..];
    assert a + z == s && Inserted(s, b.open, text) == a + text + z;
    RunInserted(e, a, z, text);
    NothingUntouched(e);
  }

  lemma NothingUntouched(e: Edit)
    ensures MovedStack(e, []) == [] && MovedBlocks(e, []) == []
  {
  }
}
