/** What the maintenance include keeps: the parse of the vhost, and an exact way back. */
module MaintenanceProofs {
  import opened Outcomes
  import opened Text
  import opened NginxConfig
  import opened NginxInsertion
  import opened MaintenanceVhosts

  // ---- The included text reads as one directive ----

  predicate IsNewline(newline: string) {
    newline == "\n" || newline == "\r\n"
  }

  /** The directive as the parser reports it when the text is put at offset `at`. */
  function IncludeDirective(newline: string, path: string, at: nat): Directive {
    var start := at + |newline| + 2 + |START_MARK| + |newline| + 2;
    Directive(["include", path], start, start + |"include "| + |path| + 1)
  }

  lemma {:induction false} LineRunOf(line: string)
    requires LF !in line
    ensures LineRun(line) == |line|
  {
    if line != [] {
      LineRunOf(line[1..]);
    }
  }

  lemma IndentIsSpace(newline: string)
    requires IsNewline(newline)
    ensures SpaceRun(newline + "  ") == |newline + "  "|
  {
    SpaceRunOf(newline + "  ");
  }

  lemma FeedIsSpace()
    ensures SpaceRun("\n  ") == |"\n  "| && SpaceRun("\n") == |"\n"| && SpaceRun(" ") == |" "|
  {
    SpaceRunOf("\n  ");
    SpaceRunOf("\n");
    SpaceRunOf(" ");
  }

  /** What precedes the line feed of a line break. */
  function BeforeFeed(newline: string): string
    requires IsNewline(newline)
  {
    newline[..|newline| - 1]
  }

  lemma MarkLine(mark: string, newline: string)
    requires IsNewline(newline) && mark in [START_MARK, END_MARK]
    ensures var line := mark + BeforeFeed(newline);
      line != [] && line[0] == '#' && LineRun(line) == |line|
  {
    assert LF !in START_MARK && LF !in END_MARK;
    LineRunOf(mark + BeforeFeed(newline));
  }

  lemma RunMark(mark: string, newline: string, r: string, at: nat, st: State)
    requires IsNewline(newline) && mark in [START_MARK, END_MARK]
    ensures Run(newline + "  " + mark + newline + r, at, st) == Run("\n" + r, at + |newline| + 2 + |mark| + |newline| - 1, st)
  {
    hide Run, SpaceRun, LineRun;
    IndentIsSpace(newline);
    MarkLine(mark, newline);
    var line := mark + BeforeFeed(newline);
    assert newline + "  " + mark + newline + r == (newline + "  ") + (line + ("\n" + r));
    RunSpaces(newline + "  ", line + ("\n" + r), at, st);
    RunComment(line, "\n" + r, at + |newline| + 2, st);
  }

  lemma RunInclude(path: string, r: string, at: nat, st: State)
    requires PlainWord(path) && st.words == []
    ensures Run("include " + path + ";" + r, at, st)
         == Run(r, at + 8 + |path| + 1,
                st.(stack := AddDirective(st.stack, Directive(["include", path], at, at + 8 + |path| + 1)), start := at))
  {
    hide Run, SpaceRun, AddDirective;
    FeedIsSpace();
    assert PlainWord("include");
    var tail := path + (";" + r);
    assert "include " + path + ";" + r == "include" + (" " + tail);
    RunWord("include", " " + tail, at, st);
    assert [] + ["include"] == ["include"] && ["include"] + [path] == ["include", path];
    var st1 := st.(words := ["include"], start := at);
    RunSpaces(" ", tail, at + 7, st1);
    RunWord(path, ";" + r, at + 8, st1);
    RunSemicolon(r, at + 8 + |path|, st1.(words := ["include", path]));
  }

  /** A mark on its own line, and the blanks that begin the next one. */
  lemma RunMarkLine(mark: string, newline: string, blanks: string, r: string, at: nat, st: State)
    requires IsNewline(newline) && mark in [START_MARK, END_MARK] && blanks in ["", "  "]
    ensures Run(newline + "  " + mark + newline + blanks + r, at, st) == Run(r, at + |newline| + 2 + |mark| + |newline| + |blanks|, st)
  {
    hide Run, SpaceRun;
    FeedIsSpace();
    assert newline + "  " + mark + newline + blanks + r == newline + "  " + mark + newline + (blanks + r);
    RunMark(mark, newline, blanks + r, at, st);
    assert "\n" + (blanks + r) == ("\n" + blanks) + r;
    assert "\n" + "" == "\n" && "\n" + "  " == "\n  ";
    RunSpaces("\n" + blanks, r, at + |newline| + 2 + |mark| + |newline| - 1, st);
  }

  lemma IncludeTextParts(newline: string, path: string, r: string)
    ensures
      var close := newline + "  " + END_MARK + newline + "" + r;
      IncludeText(newline, path) + r == newline + "  " + START_MARK + newline + "  " + ("include " + path + ";" + close)
  {
    hide START_MARK, END_MARK;
  }

  lemma IncludeTextLength(newline: string, path: string)
    ensures |IncludeText(newline, path)| == 4 * |newline| + 15 + |START_MARK| + |path| + |END_MARK|
  {
    hide START_MARK, END_MARK;
  }

  lemma RunIncludeText(newline: string, path: string, r: string, at: nat, st: State)
    requires IsNewline(newline) && PlainWord(path) && st.words == []
    ensures
      var added := IncludeDirective(newline, path, at);
      Run(IncludeText(newline, path) + r, at, st)
        == Run(r, at + |IncludeText(newline, path)|, st.(stack := AddDirective(st.stack, added), start := added.start))
  {
    hide Run, AddDirective, PlainWord, IncludeText, START_MARK, END_MARK;
    var added := IncludeDirective(newline, path, at);
    var close := newline + "  " + END_MARK + newline + "" + r;
    IncludeTextParts(newline, path, r);
    IncludeTextLength(newline, path);
    RunMarkLine(START_MARK, newline, "  ", "include " + path + ";" + close, at, st);
    assert |"include "| == 8;
    RunInclude(path, close, added.start, st);
    var st1 := st.(stack := AddDirective(st.stack, added), start := added.start);
    RunMarkLine(END_MARK, newline, "", r, added.end, st1);
  }

  lemma IncludeIsDirective(newline: string, path: string, at: nat)
    requires IsNewline(newline) && PlainWord(path)
    ensures IsDirective(IncludeText(newline, path), at, IncludeDirective(newline, path, at))
  {
    hide Run, AddDirective, IncludeText, IncludeDirective, PlainWord;
    forall r: string, st: State | st.words == []
      ensures
        var added := IncludeDirective(newline, path, at);
        Run(IncludeText(newline, path) + r, at, st)
          == Run(r, at + |IncludeText(newline, path)|, st.(stack := AddDirective(st.stack, added), start := added.start))
    {
      RunIncludeText(newline, path, r, at, st);
    }
  }

  // ---- Taking the include out again ----

  /** Wherever the expression matches there is a start mark, alone with blanks on its line. */
  lemma IncludeAtMark(s: string, i: nat)
    requires i <= |s| && IncludeAt(s, i).Some?
    ensures NewlineAt(s, i).Some?
    ensures OccursAt(s, START_MARK, BlanksEnd(s, NewlineAt(s, i).value))
  {
  }

  lemma {:induction false} CleanWithoutMark(s: string, i: nat)
    requires i <= |s| && forall m :: i <= m ==> !OccursAt(s, START_MARK, m)
    ensures CleanFrom(s, i) == s[i..]
    decreases |s| - i
  {
    hide IncludeAt, OccursAt, START_MARK, END_MARK;
    if i < |s| {
      if IncludeAt(s, i).Some? {
        IncludeAtMark(s, i);
        assert false;
      }
      CleanWithoutMark(s, i + 1);
      assert s[i..] == [s[i]] + s[i + 1..];
    }
  }

  /** A mark holds no line break, so it lies on one side of a line break. */
  lemma MarkSide(mark: string, a: string, b: string, m: nat)
    requires OccursAt(a + b, mark, m)
    requires CR !in mark && LF !in mark && mark != []
    requires b != [] && (b[0] == CR || b[0] == LF)
    ensures OccursAt(a, mark, m) || m > |a|
  {
    if m <= |a| < m + |mark| {
      OccursChar(a + b, mark, m, |a| - m);
    } else if m + |mark| <= |a| {
      assert a[m..m + |mark|] == (a + b)[m..m + |mark|];
    }
  }

  /** No match begins in front of inserted text that starts a new line after a character other than a carriage return. */
  lemma NoIncludeBefore(a: string, b: string, i: nat)
    requires !Occurs(a, START_MARK) && i < |a| && a[|a| - 1] != CR
    requires b != [] && (b[0] == CR || b[0] == LF)
    ensures IncludeAt(a + b, i).None?
  {
    hide IncludeAt, OccursAt, START_MARK, END_MARK;
    var s := a + b;
    if IncludeAt(s, i).Some? {
      IncludeAtMark(s, i);
      var line := NewlineAt(s, i).value;
      var m := BlanksEnd(s, line);
      MarksAreOneLine();
      MarkSide(START_MARK, a, b, m);
      assert m > |a| && s[|a|] == b[0];
      OccursChar(s, "\r\n", i, 0);
    }
  }

  lemma MarksAreOneLine()
    ensures CR !in START_MARK && LF !in START_MARK && START_MARK != []
  {
    NoReturnInMark();
    NoFeedInMark();
    assert |START_MARK| > 0;
  }

  lemma NoReturnInMark()
    ensures CR !in START_MARK
  {
  }

  lemma NoFeedInMark()
    ensures LF !in START_MARK
  {
  }

  lemma {:induction false} CleanUpTo(a: string, b: string, i: nat)
    requires !Occurs(a, START_MARK) && i <= |a| && a != [] && a[|a| - 1] != CR
    requires b != [] && (b[0] == CR || b[0] == LF)
    ensures CleanFrom(a + b, i) == a[i..] + CleanFrom(a + b, |a|)
    decreases |a| - i
  {
    hide IncludeAt, START_MARK, END_MARK, CleanFrom;
    if i == |a| {
      assert a[i..] == "";
    } else {
      NoIncludeBefore(a, b, i);
      CleanUpTo(a, b, i + 1);
      CleanStep(a + b, i);
      assert a[i..] == [a[i]] + a[i + 1..] && (a + b)[i] == a[i];
    }
  }

  lemma CleanStep(s: string, i: nat)
    requires i < |s| && IncludeAt(s, i).None?
    ensures CleanFrom(s, i) == [s[i]] + CleanFrom(s, i + 1)
  {
    hide IncludeAt;
  }

  predicate IsPath(path: string) {
    path != [] && CR !in path && LF !in path
  }

  lemma NewlineNext(s: string, i: nat, newline: string, b: string)
    requires RestIs(s, i, newline + b) && IsNewline(newline)
    ensures NewlineAt(s, i) == Some(i + |newline|) && RestIs(s, i + |newline|, b)
  {
    Drop(s, i, newline, b);
    OccursChar(s, newline, i, 0);
    if OccursAt(s, "\r\n", i) {
      OccursChar(s, "\r\n", i, 0);
    }
  }

  lemma {:induction false} BlanksNext(s: string, i: nat, blanks: string, b: string)
    requires RestIs(s, i, blanks + b)
    requires forall k :: 0 <= k < |blanks| ==> IsBlank(blanks[k])
    requires b == [] || !IsBlank(b[0])
    ensures BlanksEnd(s, i) == i + |blanks|
    decreases |blanks|
  {
    if blanks != [] {
      assert s[i] == s[i..][0] == blanks[0];
      assert s[i + 1..] == s[i..][1..] == blanks[1..] + b;
      BlanksNext(s, i + 1, blanks[1..], b);
    } else if i < |s| {
      assert s[i] == s[i..][0] == b[0];
    }
  }

  predicate IsMark(mark: string) {
    mark != [] && !IsBlank(mark[0])
  }

  lemma IndentNext(s: string, i: nat, mark: string, b: string)
    requires RestIs(s, i, "  " + (mark + b)) && IsMark(mark)
    ensures BlanksEnd(s, i) == i + 2 && OccursAt(s, mark, i + 2) && RestIs(s, i + 2 + |mark|, b)
  {
    hide BlanksEnd;
    assert (mark + b)[0] == mark[0];
    BlanksNext(s, i, "  ", mark + b);
    Drop(s, i, "  ", mark + b);
    Drop(s, i + 2, mark, b);
  }

  lemma MarkLineNext(s: string, i: nat, newline: string, mark: string, b: string)
    requires RestIs(s, i, newline + ("  " + (mark + b))) && IsNewline(newline) && IsMark(mark)
    ensures MarkLineEnd(s, i, mark) == Some(i + |newline| + 2 + |mark|) && RestIs(s, i + |newline| + 2 + |mark|, b)
  {
    hide BlanksEnd, NewlineAt, IsNewline, RestIs, OccursAt, IsMark;
    NewlineNext(s, i, newline, "  " + (mark + b));
    IndentNext(s, i + |newline|, mark, b);
  }

  lemma {:induction false} LineNext(s: string, i: nat, line: string, b: string)
    requires RestIs(s, i, line + b) && CR !in line && LF !in line
    requires b != [] && (b[0] == CR || b[0] == LF)
    ensures LineEnd(s, i) == i + |line|
    decreases |line|
  {
    if line != [] {
      assert s[i] == s[i..][0] == line[0];
      assert s[i + 1..] == s[i..][1..] == line[1..] + b;
      LineNext(s, i + 1, line[1..], b);
    } else {
      assert s[i] == s[i..][0] == b[0];
    }
  }

  lemma StatementNext(s: string, i: nat, path: string, b: string)
    requires RestIs(s, i, path + ";" + b)
    requires IsPath(path) && b != [] && (b[0] == CR || b[0] == LF)
    ensures StatementEnd(s, i) == Some(i + |path| + 1) && RestIs(s, i + |path| + 1, b)
  {
    LineNext(s, i, path + ";", b);
    Drop(s, i, path + ";", b);
    OccursChar(s, path + ";", i, |path|);
  }

  /** The inserted text from its last line on, followed by `z`. */
  ghost function Closing(newline: string, mark: string, z: string): string {
    newline + ("  " + (mark + (newline + z)))
  }

  /** The inserted text from its statement on, followed by `z`. */
  ghost function Statement(newline: string, word: string, path: string, mark: string, z: string): string {
    newline + ("  " + (word + (path + ";" + Closing(newline, mark, z))))
  }

  /** The inserted text, followed by `z`. */
  ghost function Whole(newline: string, start: string, word: string, path: string, mark: string, z: string): string {
    newline + ("  " + (start + Statement(newline, word, path, mark, z)))
  }

  lemma IncludeTextWhole(newline: string, path: string, z: string)
    ensures IncludeText(newline, path) + z == Whole(newline, START_MARK, "include ", path, END_MARK, z)
  {
    hide START_MARK, END_MARK;
    assert "  " + "include " == "  include ";
  }

  lemma LastLineNext(s: string, i: nat, newline: string, z: string)
    requires RestIs(s, i, newline + z) && IsNewline(newline)
    ensures NewlineAt(s, BlanksEnd(s, i)) == Some(i + |newline|)
  {
    hide NewlineAt;
    Drop(s, i, newline, z);
    OccursChar(s, newline, i, 0);
    NewlineNext(s, i, newline, z);
  }

  lemma StatementTextNext(s: string, i: nat, newline: string, word: string, path: string, mark: string, z: string)
    requires RestIs(s, i, Statement(newline, word, path, mark, z))
    requires IsNewline(newline) && IsPath(path) && IsMark(word)
    ensures
      var statement := i + |newline| + 2 + |word|;
      && MarkLineEnd(s, i, word) == Some(statement)
      && StatementEnd(s, statement) == Some(statement + |path| + 1)
      && RestIs(s, statement + |path| + 1, Closing(newline, mark, z))
  {
    hide MarkLineEnd, StatementEnd, RestIs;
    MarkLineNext(s, i, newline, word, path + ";" + Closing(newline, mark, z));
    assert Closing(newline, mark, z)[0] == newline[0];
    StatementNext(s, i + |newline| + 2 + |word|, path, Closing(newline, mark, z));
  }

  lemma ClosingNext(s: string, i: nat, newline: string, mark: string, z: string)
    requires RestIs(s, i, Closing(newline, mark, z)) && IsNewline(newline) && IsMark(mark)
    ensures
      var last := i + |newline| + 2 + |mark|;
      && MarkLineEnd(s, i, mark) == Some(last)
      && last <= |s| && NewlineAt(s, BlanksEnd(s, last)) == Some(last + |newline|)
  {
    hide MarkLineEnd, IsNewline, RestIs, IsMark, NewlineAt;
    MarkLineNext(s, i, newline, mark, newline + z);
    LastLineNext(s, i + |newline| + 2 + |mark|, newline, z);
  }

  lemma MarksAreMarks()
    ensures IsMark(START_MARK) && IsMark("include ") && IsMark(END_MARK) && |"include "| == 8
  {
  }

  lemma WholeNext(s: string, i: nat, newline: string, start: string, word: string, path: string, mark: string, z: string)
    requires RestIs(s, i, Whole(newline, start, word, path, mark, z))
    requires IsNewline(newline) && IsPath(path) && IsMark(start) && IsMark(word) && IsMark(mark)
    ensures
      var statement := i + |newline| + 2 + |start|;
      var value := statement + |newline| + 2 + |word|;
      var closing := value + |path| + 1;
      var last := closing + |newline| + 2 + |mark|;
      && MarkLineEnd(s, i, start) == Some(statement)
      && MarkLineEnd(s, statement, word) == Some(value)
      && StatementEnd(s, value) == Some(closing)
      && MarkLineEnd(s, closing, mark) == Some(last)
      && NewlineAt(s, BlanksEnd(s, last)) == Some(last + |newline|)
  {
    hide NewlineAt, MarkLineEnd, StatementEnd, BlanksEnd, IsPath, Statement, Closing, IsNewline, IsMark, RestIs;
    MarkLineNext(s, i, newline, start, Statement(newline, word, path, mark, z));
    var statement := i + |newline| + 2 + |start|;
    StatementTextNext(s, statement, newline, word, path, mark, z);
    ClosingNext(s, statement + |newline| + 2 + |word| + |path| + 1, newline, mark, z);
  }

  lemma IncludeWhole(s: string, i: nat, newline: string, path: string, z: string)
    requires RestIs(s, i, Whole(newline, START_MARK, "include ", path, END_MARK, z))
    requires IsNewline(newline) && IsPath(path)
    ensures i <= |s| && IncludeAt(s, i) == Some(i + 4 * |newline| + 15 + |START_MARK| + |path| + |END_MARK|)
  {
    hide IncludeAt, RestIs, NewlineAt, MarkLineEnd, StatementEnd, BlanksEnd, IsPath, Whole, IsNewline, IsMark, START_MARK, END_MARK;
    MarksAreMarks();
    WholeNext(s, i, newline, START_MARK, "include ", path, END_MARK, z);
    var statement := i + |newline| + 2 + |START_MARK|;
    var value := statement + |newline| + 10;
    var closing := value + |path| + 1;
    RestBound(s, i, Whole(newline, START_MARK, "include ", path, END_MARK, z));
    IncludeByParts(s, i, statement, value, closing, closing + |newline| + 2 + |END_MARK|);
  }

  lemma RestBound(s: string, i: nat, rest: string)
    requires RestIs(s, i, rest)
    ensures i <= |s|
  {
  }

  lemma IncludeByParts(s: string, i: nat, statement: nat, value: nat, closing: nat, last: nat)
    requires i <= |s| && MarkLineEnd(s, i, START_MARK) == Some(statement)
    requires MarkLineEnd(s, statement, "include ") == Some(value)
    requires StatementEnd(s, value) == Some(closing)
    requires MarkLineEnd(s, closing, END_MARK) == Some(last)
    ensures IncludeAt(s, i) == NewlineAt(s, BlanksEnd(s, last))
  {
    hide NewlineAt, MarkLineEnd, StatementEnd, BlanksEnd, START_MARK, END_MARK;
  }

  /** The expression matches exactly the text that was put in. */
  lemma IncludeAtText(a: string, newline: string, path: string, z: string)
    requires IsNewline(newline) && IsPath(path)
    ensures IncludeAt(a + IncludeText(newline, path) + z, |a|) == Some(|a + IncludeText(newline, path)|)
  {
    hide IncludeAt, IncludeText, Whole, IsPath, IsNewline, START_MARK, END_MARK;
    IncludeTextWhole(newline, path, z);
    IncludeTextLength(newline, path);
    assert RestIs(a + IncludeText(newline, path) + z, |a|, IncludeText(newline, path) + z);
    IncludeWhole(a + IncludeText(newline, path) + z, |a|, newline, path, z);
  }

  lemma OccursShift(a: string, z: string, mark: string, m: int)
    requires OccursAt(a + z, mark, m) && |a| <= m
    ensures OccursAt(z, mark, m - |a|)
  {
    assert z[m - |a|..m - |a| + |mark|] == (a + z)[m..m + |mark|];
  }

  lemma CleanBehind(a: string, z: string)
    requires !Occurs(z, START_MARK)
    ensures CleanFrom(a + z, |a|) == z
  {
    hide OccursAt, START_MARK, CleanFrom;
    forall m | |a| <= m
      ensures !OccursAt(a + z, START_MARK, m)
    {
      if OccursAt(a + z, START_MARK, m) {
        OccursShift(a, z, START_MARK, m);
      }
    }
    CleanWithoutMark(a + z, |a|);
    assert (a + z)[|a|..] == z;
  }

  lemma OccursInPart(s: string, p: nat, mark: string, m: int)
    requires p <= |s|
    ensures OccursAt(s[..p], mark, m) ==> OccursAt(s, mark, m)
    ensures OccursAt(s[p..], mark, m) ==> OccursAt(s, mark, p + m)
  {
    if OccursAt(s[..p], mark, m) {
      assert s[..p][m..m + |mark|] == s[m..m + |mark|];
    }
    if OccursAt(s[p..], mark, m) {
      assert s[p..][m..m + |mark|] == s[p + m..p + m + |mark|];
    }
  }

  lemma NoMarkInParts(s: string, p: nat)
    requires p <= |s| && !Occurs(s, START_MARK)
    ensures !Occurs(s[..p], START_MARK) && !Occurs(s[p..], START_MARK)
  {
    hide START_MARK, OccursAt;
    forall m {
      OccursInPart(s, p, START_MARK, m);
    }
  }

  /** Taking out what was put in leaves the text as it was. */
  lemma CleanInserted(s: string, p: nat, newline: string, path: string)
    requires 0 < p <= |s| && s[p - 1] == '{' && !Occurs(s, START_MARK)
    requires IsNewline(newline) && IsPath(path)
    ensures Clean(Inserted(s, p, IncludeText(newline, path))) == s
  {
    hide IncludeText, IncludeAt, OccursAt, START_MARK, END_MARK;
    var a, z, text := s[..p], s[p..], IncludeText(newline, path);
    NoMarkInParts(s, p);
    assert text != [] && (text[0] == CR || text[0] == LF) by {
      IncludeTextHead(newline, path);
    }
    assert a + text + z == a + (text + z);
    CleanUpTo(a, text + z, 0);
    IncludeAtText(a, newline, path, z);
    assert (a + text) + z == a + text + z;
    CleanBehind(a + text, z);
    assert a[0..] + z == s;
  }

  lemma IncludeTextHead(newline: string, path: string)
    requires IsNewline(newline)
    ensures IncludeText(newline, path) != [] && (IncludeText(newline, path)[0] == CR || IncludeText(newline, path)[0] == LF)
  {
  }

  // ---- The serving block stays the serving block ----

  lemma WordsMoved(e: Edit, b: Block)
    ensures
      var b', k := MovedBlock(e, b), if b.open == e.at then 1 else 0;
      && |b'.directives| == |b.directives| + k
      && (k == 1 ==> b'.directives[0] == e.added)
      && (forall i :: 0 <= i < |b.directives| ==> b'.directives[i + k].words == b.directives[i].words)
  {
  }

  /** A test of directives that the added one does not pass finds the same in a moved block. */
  lemma HasDirectiveMoved(e: Edit, b: Block, test: seq<string> -> bool)
    requires !test(e.added.words)
    ensures HasDirective(MovedBlock(e, b), test) == HasDirective(b, test)
  {
    hide MovedBlock;
    WordsMoved(e, b);
    var b', k := MovedBlock(e, b), if b.open == e.at then 1 else 0;
    if HasDirective(b, test) {
      var i :| 0 <= i < |b.directives| && test(b.directives[i].words);
      assert test(b'.directives[i + k].words);
    }
    if HasDirective(b', test) {
      var i :| 0 <= i < |b'.directives| && test(b'.directives[i].words);
      assert i >= k;
      assert b'.directives[i - k + k].words == b.directives[i - k].words;
    }
  }

  lemma CandidateMoved(e: Edit, b: Block, domain: string)
    requires e.added.words != [] && e.added.words[0] == "include"
    ensures IsCandidate(MovedBlock(e, b), domain) == IsCandidate(b, domain)
    ensures IsBackend(MovedBlock(e, b)) == IsBackend(b)
  {
    hide MovedBlock, HasDirective;
    assert "include"[0] == 'i' && "server_name"[0] == 's' && "return"[0] == 'r' && "listen"[0] == 'l';
    HasDirectiveMoved(e, b, Names(domain));
    HasDirectiveMoved(e, b, Redirects);
    HasDirectiveMoved(e, b, ListensBackend);
  }

  lemma MovedJoin(e: Edit, a: seq<Block>, b: seq<Block>)
    ensures MovedBlocks(e, a + b) == MovedBlocks(e, a) + MovedBlocks(e, b)
  {
    hide MovedBlock;
  }

  lemma MovedOne(e: Edit, b: Block)
    ensures MovedBlocks(e, [b]) == [MovedBlock(e, b)]
  {
    hide MovedBlock;
  }

  lemma {:induction false} SelectMoved(e: Edit, bs: seq<Block>, keep: Block -> bool)
    requires forall b :: keep(MovedBlock(e, b)) == keep(b)
    ensures Select(MovedBlocks(e, bs), keep) == MovedBlocks(e, Select(bs, keep))
  {
    hide MovedBlock, MovedBlocks;
    NothingUntouched(e);
    if bs != [] {
      var b, rest := bs[0], bs[1..];
      assert bs == [b] + rest;
      MovedOne(e, b);
      MovedJoin(e, [b], rest);
      assert MovedBlocks(e, bs)[1..] == MovedBlocks(e, rest);
      SelectMoved(e, rest, keep);
      MovedJoin(e, [b], Select(rest, keep));
      assert [] + Select(rest, keep) == Select(rest, keep);
      assert [] + MovedBlocks(e, Select(rest, keep)) == MovedBlocks(e, Select(rest, keep));
    }
  }

  lemma ServingMoved(e: Edit, bs: seq<Block>, domain: string)
    requires e.added.words != [] && e.added.words[0] == "include"
    requires ServingOf(bs, domain).Ok?
    ensures ServingOf(MovedBlocks(e, bs), domain) == Ok(MovedBlock(e, ServingOf(bs, domain).value))
  {
    hide IsCandidate, IsBackend, MovedBlock, Select;
    forall b: Block
      ensures IsCandidate(MovedBlock(e, b), domain) == IsCandidate(b, domain)
      ensures IsBackend(MovedBlock(e, b)) == IsBackend(b)
    {
      CandidateMoved(e, b, domain);
    }
    var isCandidate := (b: Block) => IsCandidate(b, domain);
    var isBackend := (b: Block) => IsBackend(b);
    SelectMoved(e, bs, isCandidate);
    SelectMoved(e, Select(bs, isCandidate), isBackend);
  }

  // ---- The theorems ----

  /** What turning the include on does to a vhost that takes it. */
  lemma EnabledKeepsParse(content: string, domain: string, path: string)
    requires PlainWord(path) && !OptedOut(Clean(content)) && Transform(content, domain, true, path).Ok?
    ensures
      var clean, result := Clean(content), Transform(content, domain, true, path).value;
      var newline := NewlineOf(clean);
      && ServingBlock(clean, domain).Ok?
      && var block := ServingBlock(clean, domain).value;
      var e := Edit(block.open, |IncludeText(newline, path)|, IncludeDirective(newline, path, block.open));
      && result == Inserted(clean, block.open, IncludeText(newline, path))
      && Servers(result) == Ok(MovedBlocks(e, Servers(clean).value))
      && ServingBlock(result, domain) == Ok(MovedBlock(e, block))
      && !Includes(block, path) && Includes(MovedBlock(e, block), path)
  {
    hide Clean, IncludeText, IncludeDirective, Servers, ServingOf, MovedBlocks, START_MARK, END_MARK;
    var clean := Clean(content);
    var newline := NewlineOf(clean);
    var block := ServingBlock(clean, domain).value;
    var text, added := IncludeText(newline, path), IncludeDirective(newline, path, block.open);
    IncludeIsDirective(newline, path, block.open);
    IncludeTextNeutral(newline, path);
    InsertDirective(clean, block, text, added);
    IncludeWords(newline, path, block.open);
    ServingMoved(Edit(block.open, |text|, added), Servers(clean).value, domain);
    IncludesAdded(Edit(block.open, |text|, added), block, path);
  }

  lemma IncludesAdded(e: Edit, b: Block, path: string)
    requires e.at == b.open && e.added.words == ["include", path]
    ensures Includes(MovedBlock(e, b), path)
  {
    assert MovedBlock(e, b).directives[0] == e.added;
  }

  lemma IncludeWords(newline: string, path: string, at: nat)
    ensures IncludeDirective(newline, path, at).words == ["include", path]
  {
  }

  lemma {:induction false} BraceRunOf(text: string)
    requires '}' !in text
    ensures BraceRun(text) == |text|
  {
    if text != [] {
      BraceRunOf(text[1..]);
    }
  }

  lemma MarksHoldNoBrace()
    ensures '}' !in START_MARK && '}' !in END_MARK
  {
  }

  lemma IncludeTextNeutral(newline: string, path: string)
    requires IsNewline(newline) && PlainWord(path)
    ensures Neutral(IncludeText(newline, path))
  {
    hide START_MARK, END_MARK;
    IncludeTextHead(newline, path);
    MarksHoldNoBrace();
    BraceRunOf(IncludeText(newline, path));
  }

  /** On and off, in any order: what a vhost becomes depends on the last one only. */
  lemma LastTransformWins(content: string, domain: string, path: string, first: bool, second: bool)
    requires IsPath(path) && Transform(content, domain, first, path).Ok?
    ensures Transform(Transform(content, domain, first, path).value, domain, second, path)
         == Transform(content, domain, second, path)
  {
    hide CleanFrom, IncludeText, Servers, Includes, START_MARK, END_MARK;
    var clean, result := Clean(content), Transform(content, domain, first, path).value;
    if result == clean {
      CleanWithoutMark(clean, 0);
      assert clean[0..] == clean;
    } else {
      var block := ServingBlock(clean, domain).value;
      ServingBrace(clean, domain);
      CleanInserted(clean, block.open, NewlineOf(clean), path);
      assert result == Inserted(clean, block.open, IncludeText(NewlineOf(clean), path));
    }
    assert Clean(result) == clean;
  }

  lemma ServingBrace(s: string, domain: string)
    requires ServingBlock(s, domain).Ok?
    ensures var open := ServingBlock(s, domain).value.open; 0 < open <= |s| && s[open - 1] == '{'
  {
    hide Servers, ServingOf, MeetsBrace;
    ServerOpens(s, ServingBlock(s, domain).value);
  }

  /** Off restores a vhost that held no mark, byte for byte. */
  lemma OffRestores(content: string, domain: string, path: string)
    requires IsPath(path) && !Occurs(content, START_MARK) && !Occurs(content, END_MARK)
    requires Transform(content, domain, true, path).Ok?
    ensures Transform(Transform(content, domain, true, path).value, domain, false, path) == Ok(content)
  {
    hide CleanFrom, IncludeText, ServingBlock, START_MARK, END_MARK;
    LastTransformWins(content, domain, path, true, false);
    CleanWithoutMark(content, 0);
    assert content[0..] == content;
  }

  // ---- Words are taken from the text ----

  ghost predicate WordsOccur(s: string, words: seq<string>) {
    forall i :: 0 <= i < |words| ==> Occurs(s, words[i])
  }

  ghost predicate DirectivesOccur(s: string, ds: seq<Directive>) {
    forall i :: 0 <= i < |ds| ==> WordsOccur(s, ds[i].words)
  }

  ghost predicate AllOccur(s: string, st: State) {
    && WordsOccur(s, st.words)
    && (forall i :: 0 <= i < |st.stack| ==> DirectivesOccur(s, st.stack[i].directives))
    && (forall i :: 0 <= i < |st.result| ==> DirectivesOccur(s, st.result[i].directives))
  }

  lemma UnquotedOccurs(s: string, at: nat, value: string)
    requires OccursAt(s, value, at)
    ensures Occurs(s, value) && Occurs(s, Unquoted(value))
  {
    if Unquoted(value) != value {
      var inner, n := Unquoted(value), |value| - 2;
      assert inner == value[1..|value| - 1] && |inner| == n;
      forall k | 0 <= k < n
        ensures s[at + 1..at + 1 + n][k] == inner[k]
      {
        OccursChar(s, value, at, k + 1);
      }
      assert s[at + 1..at + 1 + n] == inner;
      assert OccursAt(s, Unquoted(value), at + 1);
    }
  }

  lemma ServerNameOccurs(s: string, at: nat)
    requires OccursAt(s, "{{server_name}}", at)
    ensures Occurs(s, "server_name")
  {
    assert "{{server_name}}" == "{{" + "server_name" + "}}";
    MiddleOccurs(s, "{{", "server_name", "}}", at);
  }

  lemma MiddleOccurs(s: string, a: string, b: string, c: string, at: nat)
    requires OccursAt(s, a + b + c, at)
    ensures OccursAt(s, b, at + |a|)
  {
    forall k | 0 <= k < |b|
      ensures s[at + |a| + k] == b[k]
    {
      OccursChar(s, a + b + c, at, |a| + k);
    }
    assert s[at + |a|..at + |a| + |b|] == b;
  }

  lemma StepOccurs(s: string, st: State, value: string, at: nat)
    requires value != [] && OccursAt(s, value, at) && AllOccur(s, st) && Step(st, value, at).Ok?
    ensures AllOccur(s, Step(st, value, at).value)
  {
    hide Joined, IsServer, Unquoted, Occurs, AddChild;
    UnquotedOccurs(s, at, value);
    if IsSpace(value[0]) || value[0] == '#' {
    } else if StartsWith(value, "{{") && st.words == [] {
      if value == "{{server_name}}" {
        ServerNameOccurs(s, at);
        assert WordsOccur(s, ["server_name", value]);
      }
    } else if value == "}" {
      AddChildDirectives(s, st.stack[..|st.stack| - 1], Closed(st.stack[|st.stack| - 1], at + |value|));
    }
  }

  lemma AddChildDirectives(s: string, fs: seq<Frame>, b: Block)
    requires forall i :: 0 <= i < |fs| ==> DirectivesOccur(s, fs[i].directives)
    ensures forall i :: 0 <= i < |AddChild(fs, b)| ==> DirectivesOccur(s, AddChild(fs, b)[i].directives)
  {
    hide DirectivesOccur;
  }

  lemma {:induction false} RunOccurs(s: string, at: nat, st: State)
    requires at <= |s| && AllOccur(s, st) && Run(s[at..], at, st).Ok?
    ensures AllOccur(s, Run(s[at..], at, st).value)
    decreases |s| - at
  {
    hide Step, TokenLength, AllOccur;
    if at < |s| {
      var r := s[at..];
      var n := TokenLength(r).value;
      assert r[n..] == s[at + n..] && r[..n] == s[at..at + n];
      StepOccurs(s, st, r[..n], at);
      RunOccurs(s, at + n, Step(st, r[..n], at).value);
    }
  }

  /** A block includes nothing its text does not name. */
  lemma IncludedOccurs(s: string, b: Block, path: string)
    requires Servers(s).Ok? && b in Servers(s).value && Includes(b, path)
    ensures Occurs(s, path)
  {
    hide Run, Occurs;
    assert s[0..] == s;
    RunOccurs(s, 0, START);
  }

  // ---- Whoever was staged is covered ----

  lemma SettingsOccur(s: string)
    requires Occurs(s, SETTINGS_PATH)
    ensures OptedOut(s)
  {
    var i :| OccursAt(s, SETTINGS_PATH, i);
    assert SETTINGS_PATH[11..] == SETTINGS;
    assert s[i + 11..i + 11 + |SETTINGS|] == s[i..i + |SETTINGS_PATH|][11..];
    assert OccursAt(s, SETTINGS, i + 11);
  }

  /** A vhost the include was turned on in, that does not name the global settings, is covered by the include. */
  lemma EnabledIsCovered(content: string, domain: string, path: string, settingsMissing: bool)
    requires PlainWord(path) && Transform(content, domain, true, path).Ok?
    requires !OptedOut(Transform(content, domain, true, path).value)
    ensures
      var result := Transform(content, domain, true, path).value;
      ServingBlock(result, domain).Ok? && Covered(ServingBlock(result, domain).value, path, settingsMissing)
  {
    hide Clean, Servers, ServingOf, MovedBlock, MovedBlocks, Includes, IncludeText, Inserted, OptedOut, START_MARK, END_MARK;
    var result := Transform(content, domain, true, path).value;
    EnabledKeepsParse(content, domain, path);
    var block := ServingBlock(result, domain).value;
    if Includes(block, SETTINGS_PATH) {
      IncludedOccurs(result, block, SETTINGS_PATH);
      SettingsOccur(result);
    }
  }

  /** A site whose stored template and vhost were both staged, and name no global settings, is never reported. */
  lemma StagedHasNoGap(site: SiteRow, vhosts: map<string, string>, valid: string -> bool, path: string, settingsMissing: bool)
    requires PlainWord(path) && site.domain in vhosts
    requires StagedSite(site, vhosts, valid, true, path).Some?
    requires !OptedOut(VhostAfter(site, vhosts, valid, true, path)) && !OptedOut(TemplateAfter(site, vhosts, valid, true, path))
    ensures SiteGap(SiteRow(site.domain, TemplateAfter(site, vhosts, valid, true, path)),
                    vhosts[site.domain := VhostAfter(site, vhosts, valid, true, path)], valid, path, settingsMissing) == None
  {
    hide Transform, ServingBlock, Covered, OptedOut;
    EnabledIsCovered(site.template, site.domain, path, settingsMissing);
    EnabledIsCovered(vhosts[site.domain], site.domain, path, settingsMissing);
  }

  lemma SiteGapLocal(site: SiteRow, vhosts: map<string, string>, vhosts': map<string, string>, valid: string -> bool, path: string, settingsMissing: bool)
    requires site.domain in vhosts && site.domain in vhosts' && vhosts[site.domain] == vhosts'[site.domain]
    ensures SiteGap(site, vhosts, valid, path, settingsMissing) == SiteGap(site, vhosts', valid, path, settingsMissing)
  {
    hide ServingBlock, Covered, OptedOut;
  }

  /**
   * After all sites were staged and the changes written, status reports no gap for any site with a vhost that could be
   * staged and whose texts name no global settings, whatever became of the other sites.
   */
  lemma NoGapAfter(sites: seq<SiteRow>, vhosts: map<string, string>, valid: string -> bool, path: string, settingsMissing: bool,
                   changes: seq<Change>, rows: seq<SiteRow>, i: nat)
    requires PlainWord(path) && i < |sites| && sites[i].domain in vhosts
    requires RowsDone(sites, |sites|, vhosts, valid, true, path, rows)
    requires VhostsDone(sites, |sites|, vhosts, valid, true, path, Written(vhosts, changes))
    requires StagedSite(sites[i], vhosts, valid, true, path).Some?
    requires !OptedOut(Written(vhosts, changes)[sites[i].domain]) && !OptedOut(rows[i].template)
    ensures SiteGap(rows[i], Written(vhosts, changes), valid, path, settingsMissing) == None
  {
    hide StagedSite, VhostAfter, TemplateAfter, SiteGap, OptedOut, Written;
    var site := sites[i];
    var content := VhostAfter(site, vhosts, valid, true, path);
    StagedHasNoGap(site, vhosts, valid, path, settingsMissing);
    SiteGapLocal(rows[i], vhosts[site.domain := content], Written(vhosts, changes), valid, path, settingsMissing);
  }
}
