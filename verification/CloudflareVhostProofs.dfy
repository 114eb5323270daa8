/** Turning the Cloudflare rules of a vhost on and off: the last call decides, exactly where the access log's line ends with a plain line feed. */
module CloudflareVhostProofs {
  import opened Outcomes
  import opened Text
  import opened CloudflareVhost
  import CloudflareIps
  import NginxTransaction

  // ---- A text and its lines ----

  lemma {:induction false} BodyLengthOf(body: string, rest: string)
    requires IsBody(body) && (rest == "" || IsLineTerminator(rest[0]))
    ensures BodyLength(body + rest) == |body|
  {
    hide IsLineTerminator;
    if body == "" {
      assert body + rest == rest;
    } else {
      assert (body + rest)[1..] == body[1..] + rest && (body + rest)[0] == body[0];
      BodyLengthOf(body[1..], rest);
    }
  }

  lemma {:induction false} BodyIsBody(s: string)
    ensures IsBody(s[..BodyLength(s)])
  {
    hide IsLineTerminator;
    if s != "" && !IsLineTerminator(s[0]) {
      BodyIsBody(s[1..]);
      assert s[..BodyLength(s)] == [s[0]] + s[1..][..BodyLength(s[1..])];
    }
  }

  lemma {:induction false} LinesWhole(s: string)
    ensures AreLines(Lines(s)) && Whole(Lines(s)) == s
    decreases |s|
  {
    hide BodyLength, IsBody;
    var n := BodyLength(s);
    BodyIsBody(s);
    if n == |s| {
      assert s[..n] == s && [Line(s, "")][1..] == [];
      assert s + "" + "" == s;
    } else {
      LinesWhole(s[n + 1..]);
      var lines := [Line(s[..n], [s[n]])] + Lines(s[n + 1..]);
      assert lines[1..] == Lines(s[n + 1..]);
      assert s == s[..n] + [s[n]] + s[n + 1..];
    }
  }

  lemma LinesOne(body: string)
    requires IsBody(body)
    ensures Lines(body) == [Line(body, "")]
  {
    hide BodyLength, IsBody;
    BodyLengthOf(body, "");
    assert body + "" == body;
  }

  lemma LinesCons(body: string, end: char, rest: string)
    requires IsBody(body) && IsLineTerminator(end)
    ensures Lines(body + [end] + rest) == [Line(body, [end])] + Lines(rest)
  {
    hide BodyLength, IsBody, IsLineTerminator;
    var s := body + [end] + rest;
    assert s == body + ([end] + rest);
    BodyLengthOf(body, [end] + rest);
    assert s[..|body|] == body && s[|body|] == end && s[|body| + 1..] == rest;
  }

  lemma {:induction false} WholeLines(lines: seq<Line>)
    requires AreLines(lines)
    ensures Lines(Whole(lines)) == lines
  {
    hide Lines, IsBody, IsLineTerminator;
    var body, end := lines[0].body, lines[0].end;
    if |lines| == 1 {
      LinesOne(body);
      assert lines[1..] == [] && body + "" + "" == body && lines == [Line(body, "")];
    } else {
      WholeLines(lines[1..]);
      LinesCons(body, end[0], Whole(lines[1..]));
      assert end == [end[0]] && lines == [Line(body, end)] + lines[1..];
    }
  }

  lemma AreLinesCons(line: Line, rest: seq<Line>)
    requires AreLines(rest) && IsBody(line.body) && |line.end| == 1 && IsLineTerminator(line.end[0])
    ensures AreLines([line] + rest)
  {
    hide IsBody, IsLineTerminator;
    assert ([line] + rest)[1..] == rest;
  }

  lemma AreLinesOne(line: Line)
    requires IsBody(line.body) && line.end == ""
    ensures AreLines([line])
  {
  }

  // ---- An access log stays one when its format is changed, and is no include ----

  lemma {:induction false} BlankEndOver(x: string, y: string)
    ensures BlankEnd(x + y) == if BlankEnd(y) < |y| then BlankEnd(y) else |y| + BlankEnd(x)
  {
    if y == "" {
      assert x + y == x;
    } else {
      assert (x + y)[|x + y| - 1] == y[|y| - 1];
      assert (x + y)[..|x + y| - 1] == x + y[..|y| - 1];
      if IsBlank(y[|y| - 1]) {
        BlankEndOver(x, y[..|y| - 1]);
      }
    }
  }

  lemma BlankEndNone(s: string)
    requires s == "" || !IsBlank(s[|s| - 1])
    ensures BlankEnd(s) == 0
  {
  }

  lemma {:induction false} BlankEndStops(s: string)
    ensures BlankEnd(s) < |s| ==> !IsBlank(s[|s| - BlankEnd(s) - 1])
    ensures AllBlank(s[|s| - BlankEnd(s)..])
  {
    if s != "" && IsBlank(s[|s| - 1]) {
      var front := s[..|s| - 1];
      BlankEndStops(front);
      var blanks := s[|s| - BlankEnd(s)..];
      assert blanks[..|blanks| - 1] == front[|front| - BlankEnd(front)..];
      assert blanks[|blanks| - 1] == s[|s| - 1];
    } else {
      assert s[|s|..] == "";
    }
  }

  /** Blanks, a semicolon and blanks. */
  predicate IsTail(tail: string) {
    TailLength(tail) == Some(|tail|)
  }

  /** The tail at the end of a text is found whatever stands before it, if that does not end with a blank. */
  lemma TailBehind(front: string, blanks: string, after: string)
    requires AllBlank(blanks) && AllBlank(after) && (front == "" || !IsBlank(front[|front| - 1]))
    ensures TailLength(front + (blanks + ";" + after)) == Some(|blanks| + 1 + |after|)
  {
    hide BlankEnd;
    var s := front + (blanks + ";" + after);
    var x := front + blanks + ";";
    assert s == x + after;
    BlankEndNone(x);
    BlankEndOver(x, after);
    assert s[..|s| - |after|] == x && x[|x| - 1] == ';' && x[..|x| - 1] == front + blanks;
    BlankEndOver(front, blanks);
    BlankEndNone(front);
  }

  lemma EndCut(s: string) returns (front: string, blanks: string)
    ensures s == front + blanks && |blanks| == BlankEnd(s) && AllBlank(blanks)
  {
    hide BlankEnd, AllBlank;
    BlankEndStops(s);
    front, blanks := s[..|s| - BlankEnd(s)], s[|s| - BlankEnd(s)..];
  }

  lemma TailIs(s: string) returns (blanks: string, after: string)
    requires TailLength(s).Some?
    ensures AllBlank(blanks) && AllBlank(after) && |blanks| + 1 + |after| == TailLength(s).value
    ensures s[|s| - TailLength(s).value..] == blanks + ";" + after
  {
    hide BlankEnd, AllBlank;
    var rest, front;
    rest, after := EndCut(s);
    assert s[..|s| - BlankEnd(s)] == rest;
    front, blanks := EndCut(rest[..|rest| - 1]);
    LastApart(rest);
    assert s == front + (blanks + ";" + after);
    Behind(front, blanks + ";" + after);
  }

  lemma LastApart(s: string)
    requires s != ""
    ensures s == s[..|s| - 1] + [s[|s| - 1]]
  {
  }

  lemma Behind(x: string, y: string)
    ensures (x + y)[|x|..] == y && |x + y| - |y| == |x|
  {
  }

  lemma ModeIsFound(head: string, mode: string)
    requires mode == MAIN || mode == CLOUDFLARE
    ensures ModeOf(head + mode) == Some(mode) && (head + mode)[|head|..] == mode && (head + mode)[..|head|] == head
    ensures (head + mode) != "" && !IsBlank((head + mode)[|head + mode| - 1])
  {
    var front := head + mode;
    assert front[|head|..|front|] == mode;
    if mode == CLOUDFLARE && EndsWith(front, MAIN) {
      OccursChar(front, MAIN, |front| - 4, 3);
    }
  }

  /** The line of an access log, and what its line is with another format. */
  lemma AccessIs(head: string, mode: string, tail: string, user: string)
    requires IsHead(head, user) && (mode == MAIN || mode == CLOUDFLARE) && IsTail(tail)
    ensures AccessOf(head + mode + tail, user) == Some(Access(head, mode, tail))
  {
    hide IsHead, TailLength, BlankEnd, ModeOf, EndsWith;
    var blanks, after := TailIs(tail);
    assert tail[|tail| - |tail|..] == tail;
    ModeIsFound(head, mode);
    var front := head + mode;
    TailBehind(front, blanks, after);
    var body := front + tail;
    assert body[..|body| - |tail|] == front && body[|body| - |tail|..] == tail;
    assert front[..|front| - |mode|] == head;
  }

  lemma AccessParts(body: string, user: string)
    requires AccessOf(body, user).Some?
    ensures
      var a := AccessOf(body, user).value;
      && IsHead(a.head, user) && (a.mode == MAIN || a.mode == CLOUDFLARE) && IsTail(a.tail)
      && body == a.head + a.mode + a.tail
  {
    hide IsHead, BlankEnd, TailLength, EndsWith;
    var blanks, after := TailIs(body);
    TailBehind("", blanks, after);
    assert "" + (blanks + ";" + after) == blanks + ";" + after;
  }

  lemma ModeKept(line: Line, user: string, mode: string)
    requires IsAccess(line, user) && (mode == MAIN || mode == CLOUDFLARE)
    ensures
      var a := AccessOf(line.body, user).value;
      AccessOf(WithMode(line, user, mode).body, user) == Some(Access(a.head, mode, a.tail))
  {
    hide AccessOf, IsHead, IsTail;
    AccessParts(line.body, user);
    var a := AccessOf(line.body, user).value;
    AccessIs(a.head, mode, a.tail, user);
  }

  lemma {:induction false} BlankRunOf(s: string)
    ensures BlankRun(s) < |s| ==> !IsBlank(s[BlankRun(s)])
  {
    if s != "" && IsBlank(s[0]) {
      BlankRunOf(s[1..]);
    }
  }

  lemma IncludeEnds()
    ensures |INCLUDE| > 2 && INCLUDE[|INCLUDE| - 1] == ';' && INCLUDE[|INCLUDE| - 2] == 's'
    ensures INCLUDE[0] == 'i' && IsBody(INCLUDE) && IsBody("  " + INCLUDE)
  {
  }

  /** In front of the semicolon of an include stands neither `main` nor `cloudflare`. */
  lemma IncludeIsNoAccess(line: Line, user: string)
    requires IsInclude(line)
    ensures !IsAccess(line, user)
  {
    hide INCLUDE, IsHead, BlankEnd, BlankRun;
    IncludeEnds();
    var k := BlankRun(line.body);
    var rest := line.body[k..];
    var after := rest[|INCLUDE|..];
    var front := line.body[..k] + INCLUDE[..|INCLUDE| - 1];
    assert rest[0..|INCLUDE|] == INCLUDE;
    assert rest == INCLUDE + after;
    assert INCLUDE == INCLUDE[..|INCLUDE| - 1] + ";";
    assert line.body == front + ("" + ";" + after);
    assert front[|front| - 1] == 's';
    BlankEndNone("");
    TailBehind(front, "", after);
    assert line.body[..|line.body| - (1 + |after|)] == front;
    NoMode(front);
  }

  lemma NoMode(front: string)
    requires front != "" && front[|front| - 1] == 's'
    ensures ModeOf(front) == None
  {
    if EndsWith(front, MAIN) {
      OccursChar(front, MAIN, |front| - 4, 3);
    }
    if EndsWith(front, CLOUDFLARE) {
      OccursChar(front, CLOUDFLARE, |front| - 10, 9);
    }
  }

  lemma IncludeIsOne(end: string)
    ensures IsInclude(Line("  " + INCLUDE, end))
  {
    hide INCLUDE;
    IncludeEnds();
    var body := "  " + INCLUDE;
    assert body[1..] == " " + INCLUDE && body[1..][1..] == INCLUDE;
    assert BlankRun(INCLUDE) == 0;
    assert BlankRun(body[1..]) == 1;
    var rest := body[2..];
    assert rest == INCLUDE && rest[0..|INCLUDE|] == INCLUDE && rest[|INCLUDE|..] == "";
  }

  lemma EmptyIsNeither(end: string, user: string)
    ensures !IsInclude(Line("", end)) && !IsAccess(Line("", end), user)
  {
    hide INCLUDE;
    IncludeEnds();
  }

  // ---- What each replacement keeps ----

  ghost predicate NoIncludes(lines: seq<Line>) {
    lines == [] || (!IsInclude(lines[0]) && NoIncludes(lines[1..]))
  }

  /** Where the line of the first access log ends. */
  function LogEnd(lines: seq<Line>, user: string): string {
    if lines == [] then "" else if IsAccess(lines[0], user) then lines[0].end else LogEnd(lines[1..], user)
  }

  lemma WithModeKeeps(line: Line, user: string, mode: string)
    requires mode == MAIN || mode == CLOUDFLARE
    ensures
      var formatted := WithMode(line, user, mode);
      && formatted.end == line.end && IsAccess(formatted, user) == IsAccess(line, user) && IsInclude(formatted) == IsInclude(line)
      && (formatted == Line("", "\n") <==> line == Line("", "\n"))
    ensures forall other :: other == MAIN || other == CLOUDFLARE ==>
      WithMode(WithMode(line, user, mode), user, other) == WithMode(line, user, other)
  {
    hide AccessOf, IsInclude;
    EmptyIsNeither("\n", user);
    if IsAccess(line, user) {
      ModeKept(line, user, mode);
      if IsInclude(WithMode(line, user, mode)) {
        IncludeIsNoAccess(WithMode(line, user, mode), user);
      }
      if IsInclude(line) {
        IncludeIsNoAccess(line, user);
      }
    }
  }

  lemma {:induction false} ModeSetKeeps(lines: seq<Line>, user: string, mode: string, other: string)
    requires (mode == MAIN || mode == CLOUDFLARE) && (other == MAIN || other == CLOUDFLARE)
    ensures Accesses(ModeSet(lines, user, mode), user) == Accesses(lines, user)
    ensures LogEnd(ModeSet(lines, user, mode), user) == LogEnd(lines, user)
    ensures NoIncludes(ModeSet(lines, user, mode)) <==> NoIncludes(lines)
    ensures ModeSet(ModeSet(lines, user, mode), user, other) == ModeSet(lines, user, other)
  {
    hide WithMode, IsAccess, IsInclude;
    if lines != [] {
      WithModeKeeps(lines[0], user, mode);
      ModeSetKeeps(lines[1..], user, mode, other);
      assert ModeSet(lines, user, mode)[1..] == ModeSet(lines[1..], user, mode);
    }
  }

  lemma {:induction false} ModeSetAt(lines: seq<Line>, user: string, mode: string, i: nat)
    requires i < |lines|
    ensures ModeSet(lines, user, mode)[i] == WithMode(lines[i], user, mode)
    ensures ModeSet(lines, user, mode)[..i] == ModeSet(lines[..i], user, mode)
    ensures ModeSet(lines, user, mode)[i + 1..] == ModeSet(lines[i + 1..], user, mode)
  {
    hide WithMode;
    if i > 0 {
      ModeSetAt(lines[1..], user, mode, i - 1);
      var first, rest := [WithMode(lines[0], user, mode)], ModeSet(lines[1..], user, mode);
      assert ModeSet(lines, user, mode) == first + rest;
      assert lines[..i][1..] == lines[1..][..i - 1] && lines[..i][0] == lines[0];
      assert (first + rest)[..i] == first + rest[..i - 1];
      assert (first + rest)[i + 1..] == rest[i..] && lines[1..][i..] == lines[i + 1..];
    } else {
      assert lines[..0] == [];
    }
  }

  /** Changing the format and taking out the includes do not get in each other's way. */
  lemma {:induction false} SetThenBare(lines: seq<Line>, user: string, mode: string)
    requires mode == MAIN || mode == CLOUDFLARE
    ensures WithoutIncludes(ModeSet(lines, user, mode)) == ModeSet(WithoutIncludes(lines), user, mode)
    decreases |lines|
  {
    hide WithMode, IsInclude;
    if lines != [] {
      var rest := ModeSet(lines[1..], user, mode);
      var formatted := ModeSet(lines, user, mode);
      assert formatted[1..] == rest;
      WithModeKeeps(lines[0], user, mode);
      SetThenBare(lines[1..], user, mode);
      if IsInclude(lines[0]) {
        IncludeKept(lines[0], user, mode);
        EmptyKept(lines[0].end, user, mode);
        if |lines| > 1 {
          WithModeKeeps(lines[1], user, mode);
          SetThenBare(lines[2..], user, mode);
          assert formatted[2..] == ModeSet(lines[2..], user, mode) by {
            ModeSetAt(lines, user, mode, 1);
          }
        }
        SetCons(Line("", lines[0].end), WithoutIncludes(lines[1..]), user, mode);
      } else {
        SetCons(lines[0], WithoutIncludes(lines[1..]), user, mode);
      }
    }
  }

  lemma SetCons(line: Line, rest: seq<Line>, user: string, mode: string)
    ensures ModeSet([line] + rest, user, mode) == [WithMode(line, user, mode)] + ModeSet(rest, user, mode)
  {
    hide WithMode;
    assert ([line] + rest)[1..] == rest;
  }

  lemma IncludeKept(line: Line, user: string, mode: string)
    requires IsInclude(line)
    ensures WithMode(line, user, mode) == line
  {
    hide IsInclude, AccessOf;
    IncludeIsNoAccess(line, user);
  }

  lemma EmptyKept(end: string, user: string, mode: string)
    ensures WithMode(Line("", end), user, mode) == Line("", end)
  {
    hide AccessOf;
    EmptyIsNeither(end, user);
  }

  lemma {:induction false} BareKeeps(lines: seq<Line>, user: string)
    ensures NoIncludes(WithoutIncludes(lines))
    ensures Accesses(WithoutIncludes(lines), user) == Accesses(lines, user)
    ensures LogEnd(WithoutIncludes(lines), user) == LogEnd(lines, user)
    decreases |lines|
  {
    hide IsInclude, IsAccess;
    if lines != [] {
      BareKeeps(lines[1..], user);
      EmptyIsNeither(lines[0].end, user);
      var rest := WithoutIncludes(lines[1..]);
      assert ([lines[0]] + rest)[1..] == rest && ([Line("", lines[0].end)] + rest)[1..] == rest;
      if IsInclude(lines[0]) {
        IncludeIsNoAccess(lines[0], user);
        if |lines| > 1 && lines[1] == Line("", "\n") {
          EmptyIsNeither("\n", user);
          BareKeeps(lines[2..], user);
          assert lines[1..][1..] == lines[2..];
        }
      }
    }
  }

  lemma {:induction false} BareIsBare(lines: seq<Line>)
    requires NoIncludes(lines)
    ensures WithoutIncludes(lines) == lines
  {
    hide IsInclude;
    if lines != [] {
      BareIsBare(lines[1..]);
      assert lines == [lines[0]] + lines[1..];
    }
  }

  lemma {:induction false} BareBehind(front: seq<Line>, rest: seq<Line>)
    requires NoIncludes(front)
    ensures WithoutIncludes(front + rest) == front + WithoutIncludes(rest)
  {
    hide IsInclude;
    if front == [] {
      assert front + rest == rest;
    } else {
      assert (front + rest)[1..] == front[1..] + rest;
      BareBehind(front[1..], rest);
      assert front == [front[0]] + front[1..];
    }
  }

  lemma {:induction false} IncludeBehind(front: seq<Line>, rest: seq<Line>, user: string)
    requires Accesses(front, user) == 0
    ensures WithInclude(front + rest, user) == front + WithInclude(rest, user)
  {
    hide IsAccess;
    if front == [] {
      assert front + rest == rest;
    } else {
      assert (front + rest)[1..] == front[1..] + rest;
      IncludeBehind(front[1..], rest, user);
      assert front == [front[0]] + front[1..];
    }
  }

  lemma {:induction false} NoIncludesIn(lines: seq<Line>, k: nat)
    requires NoIncludes(lines) && k <= |lines|
    ensures NoIncludes(lines[..k]) && NoIncludes(lines[k..]) && (k < |lines| ==> !IsInclude(lines[k]))
  {
    hide IsInclude;
    if k == 0 {
      assert lines[..0] == [] && lines[0..] == lines;
    } else {
      NoIncludesIn(lines[1..], k - 1);
      assert lines[..k][1..] == lines[1..][..k - 1] && lines[1..][k - 1..] == lines[k..];
    }
  }

  /** The one access log, and the lines before it and behind it. */
  lemma {:induction false} OneLog(lines: seq<Line>, user: string) returns (k: nat)
    requires Accesses(lines, user) == 1
    ensures k < |lines| && IsAccess(lines[k], user) && lines[k].end == LogEnd(lines, user)
    ensures Accesses(lines[..k], user) == 0 && Accesses(lines[k + 1..], user) == 0
  {
    hide IsAccess;
    if IsAccess(lines[0], user) {
      k := 0;
      assert lines[..0] == [];
    } else {
      var i := OneLog(lines[1..], user);
      k := i + 1;
      assert lines[..k][1..] == lines[1..][..i] && lines[..k][0] == lines[0] && lines[1..][i + 1..] == lines[k + 1..];
    }
  }

  // ---- What a call comes to, line by line ----

  function Set(lines: seq<Line>, user: string, enabled: bool): seq<Line> {
    var bare := WithoutIncludes(ModeSet(lines, user, ModeFor(enabled)));
    if enabled then WithInclude(bare, user) else bare
  }

  lemma ModesFor(enabled: bool)
    ensures ModeFor(enabled) == MAIN || ModeFor(enabled) == CLOUDFLARE
  {
  }

  lemma ModeIsBody(line: Line, user: string, enabled: bool)
    requires IsBody(line.body)
    ensures IsBody(WithMode(line, user, ModeFor(enabled)).body)
  {
    hide IsLineTerminator, AccessOf;
    if IsAccess(line, user) {
      var a := AccessOf(line.body, user).value;
      var mode := ModeFor(enabled);
      ModesAreBodies();
      var body := a.head + mode + a.tail;
      forall i | 0 <= i < |body|
        ensures !IsLineTerminator(body[i])
      {
        if i < |a.head| {
          assert body[i] == line.body[i];
        } else if i < |a.head + mode| {
          assert body[i] == mode[i - |a.head|];
        } else {
          assert body[i] == line.body[i - |mode| + |a.mode|];
        }
      }
    }
  }

  lemma ModesAreBodies()
    ensures IsBody(MAIN) && IsBody(CLOUDFLARE)
  {
  }

  lemma {:induction false} ModeSetLines(lines: seq<Line>, user: string, enabled: bool)
    requires AreLines(lines)
    ensures AreLines(ModeSet(lines, user, ModeFor(enabled)))
  {
    hide WithMode, IsBody, IsLineTerminator, IsAccess;
    var mode := ModeFor(enabled);
    ModesFor(enabled);
    ModeIsBody(lines[0], user, enabled);
    WithModeKeeps(lines[0], user, mode);
    if |lines| == 1 {
      assert ModeSet(lines[1..], user, mode) == [];
      assert ModeSet(lines, user, mode) == [WithMode(lines[0], user, mode)];
      AreLinesOne(WithMode(lines[0], user, mode));
    } else {
      ModeSetLines(lines[1..], user, enabled);
      AreLinesCons(WithMode(lines[0], user, mode), ModeSet(lines[1..], user, mode));
    }
  }

  lemma EmptyIsBody()
    ensures IsBody("") && IsLineTerminator('\n')
  {
  }

  lemma {:induction false} BareLines(lines: seq<Line>)
    requires AreLines(lines)
    ensures AreLines(WithoutIncludes(lines))
    decreases |lines|
  {
    hide IsBody, IsLineTerminator, IsInclude;
    EmptyIsBody();
    if |lines| == 1 {
      assert WithoutIncludes(lines[1..]) == [];
      AreLinesOne(Line("", ""));
      AreLinesOne(lines[0]);
      assert [lines[0]] + [] == [lines[0]] && [Line("", "")] + [] == [Line("", "")];
    } else {
      BareLines(lines[1..]);
      var rest := WithoutIncludes(lines[1..]);
      AreLinesCons(lines[0], rest);
      AreLinesCons(Line("", lines[0].end), rest);
      if lines[1] == Line("", "\n") {
        assert lines[1..][1..] == lines[2..];
        BareLines(lines[2..]);
      }
    }
  }

  lemma {:induction false} IncludeLines(lines: seq<Line>, user: string)
    requires AreLines(lines)
    ensures AreLines(WithInclude(lines, user))
  {
    hide IsBody, IsLineTerminator, IsAccess, INCLUDE;
    EmptyIsBody();
    IncludeEnds();
    var log, included := Line(lines[0].body, "\n"), Line("  " + INCLUDE, lines[0].end);
    var rest := WithInclude(lines[1..], user);
    if |lines| == 1 {
      assert rest == [];
      AreLinesOne(lines[0]);
      AreLinesOne(included);
      AreLinesCons(log, [included]);
      assert [lines[0]] + [] == [lines[0]] && [log, included] + [] == [log] + [included];
    } else {
      IncludeLines(lines[1..], user);
      AreLinesCons(lines[0], rest);
      AreLinesCons(included, rest);
      AreLinesCons(log, [included] + rest);
      assert [log, included] + rest == [log] + ([included] + rest);
    }
  }

  /** The three replacements, one on the text the other left, are the three on the lines. */
  lemma TransformIs(content: string, user: string, enabled: bool)
    ensures Transform(content, user, enabled).Some? <==> Accesses(Lines(content), user) == 1
    ensures Transform(content, user, enabled).Some? ==>
      && AreLines(Set(Lines(content), user, enabled))
      && Transform(content, user, enabled) == Some(Whole(Set(Lines(content), user, enabled)))
  {
    hide ModeSet, WithoutIncludes, WithInclude, Lines, Whole, AreLines, ModeFor, Accesses;
    var lines := Lines(content);
    LinesWhole(content);
    var formatted := ModeSet(lines, user, ModeFor(enabled));
    ModeSetLines(lines, user, enabled);
    WholeLines(formatted);
    BareLines(formatted);
    WholeLines(WithoutIncludes(formatted));
    IncludeLines(WithoutIncludes(formatted), user);
  }

  // ---- Two calls after each other ----

  /** What is left of the include's line end and of what follows, once the include is taken out. */
  function Left(end: string, rest: seq<Line>): seq<Line> {
    if end == "\n" then rest
    else if end == "\r" && rest != [] && rest[0] == Line("", "\n") then rest[1..]
    else [Line("", end)] + rest
  }

  lemma IncludeTakenOut(end: string, rest: seq<Line>)
    requires NoIncludes(rest)
    ensures WithoutIncludes([Line("  " + INCLUDE, end)] + rest) == Left(end, rest)
  {
    hide IsInclude, INCLUDE;
    IncludeIsOne(end);
    var lines := [Line("  " + INCLUDE, end)] + rest;
    assert lines[1..] == rest;
    BareIsBare(rest);
    if rest != [] {
      assert lines[1] == rest[0] && lines[2..] == rest[1..];
      BareIsBare(rest[1..]);
    }
  }

  lemma LeftHasNoLog(end: string, rest: seq<Line>, user: string)
    requires Accesses(rest, user) == 0
    ensures Accesses(Left(end, rest), user) == 0
  {
    hide IsAccess;
    EmptyIsNeither(end, user);
    assert ([Line("", end)] + rest)[1..] == rest;
  }

  lemma Turned(front: seq<Line>, log: Line, rest: seq<Line>, user: string)
    requires Accesses(front, user) == 0 && IsAccess(log, user) && Accesses(rest, user) == 0
    ensures WithInclude(front + [log] + rest, user) == front + [Line(log.body, "\n"), Line("  " + INCLUDE, log.end)] + rest
  {
    hide IsAccess, INCLUDE;
    assert front + [log] + rest == front + ([log] + rest);
    IncludeBehind(front, [log] + rest, user);
    assert ([log] + rest)[1..] == rest;
    IncludeBehind(rest, [], user);
    assert rest + [] == rest;
    var two := [Line(log.body, "\n"), Line("  " + INCLUDE, log.end)];
    assert front + (two + rest) == front + two + rest;
  }

  /** The format changed after the rules were turned on. */
  lemma SetAgain(front: seq<Line>, log: Line, rest: seq<Line>, user: string, mode: string)
    requires mode == MAIN || mode == CLOUDFLARE
    ensures
      var first, second := Line(log.body, "\n"), Line("  " + INCLUDE, log.end);
      ModeSet(front + [first, second] + rest, user, mode)
        == ModeSet(front, user, mode) + ([Line(WithMode(log, user, mode).body, "\n")] + ([second] + ModeSet(rest, user, mode)))
  {
    hide INCLUDE, WithMode, IsInclude, ModeSet;
    var first, second := Line(log.body, "\n"), Line("  " + INCLUDE, log.end);
    assert front + [first, second] + rest == front + ([first] + ([second] + rest));
    ModeSetOver(front, [first] + ([second] + rest), user, mode);
    SetCons(first, [second] + rest, user, mode);
    SetCons(second, rest, user, mode);
    IncludeIsOne(log.end);
    IncludeKept(second, user, mode);
    ModeIgnoresEnd(log, "\n", user, mode);
  }

  /** The include taken out again. */
  lemma BareAgain(front: seq<Line>, log: Line, end: string, rest: seq<Line>)
    requires NoIncludes(front) && !IsInclude(log) && NoIncludes(rest)
    ensures WithoutIncludes(front + ([log] + ([Line("  " + INCLUDE, end)] + rest))) == front + [log] + Left(end, rest)
  {
    hide INCLUDE, IsInclude, Left;
    var second := Line("  " + INCLUDE, end);
    BareBehind(front, [log] + ([second] + rest));
    assert ([log] + ([second] + rest))[1..] == [second] + rest;
    IncludeTakenOut(end, rest);
    assert front + ([log] + Left(end, rest)) == front + [log] + Left(end, rest);
  }

  /** Lines without includes and with one access log: what turning the rules on, and then anything, comes to. */
  lemma Again(front: seq<Line>, log: Line, rest: seq<Line>, user: string, enabled: bool)
    requires Accesses(front, user) == 0 && IsAccess(log, user) && Accesses(rest, user) == 0
    requires NoIncludes(front) && !IsInclude(log) && NoIncludes(rest)
    ensures
      var mode := ModeFor(enabled);
      var front', log', rest' := ModeSet(front, user, mode), WithMode(log, user, mode), ModeSet(rest, user, mode);
      var bare := front' + [Line(log'.body, "\n")] + Left(log.end, rest');
      Set(WithInclude(front + [log] + rest, user), user, enabled) == if enabled then WithInclude(bare, user) else bare
  {
    hide IsAccess, IsInclude, INCLUDE, WithMode, ModeSet, Left, WithoutIncludes, WithInclude, ModeFor, NoIncludes, Accesses;
    var mode := ModeFor(enabled);
    ModesFor(enabled);
    Turned(front, log, rest, user);
    SetAgain(front, log, rest, user, mode);
    ModeSetKeeps(front, user, mode, mode);
    ModeSetKeeps(rest, user, mode, mode);
    WithModeKeeps(log, user, mode);
    IncludeIgnoresEnd(WithMode(log, user, mode), "\n");
    BareAgain(ModeSet(front, user, mode), Line(WithMode(log, user, mode).body, "\n"), log.end, ModeSet(rest, user, mode));
  }

  lemma {:induction false} ModeSetOver(a: seq<Line>, b: seq<Line>, user: string, mode: string)
    ensures ModeSet(a + b, user, mode) == ModeSet(a, user, mode) + ModeSet(b, user, mode)
  {
    hide WithMode;
    if a == [] {
      assert a + b == b;
    } else {
      assert (a + b)[1..] == a[1..] + b;
      ModeSetOver(a[1..], b, user, mode);
    }
  }

  lemma ModeIgnoresEnd(line: Line, end: string, user: string, mode: string)
    ensures WithMode(Line(line.body, end), user, mode) == Line(WithMode(line, user, mode).body, end)
  {
    hide AccessOf;
  }

  lemma IncludeIgnoresEnd(line: Line, end: string)
    ensures IsInclude(Line(line.body, end)) == IsInclude(line)
  {
    hide INCLUDE;
  }

  // ---- The theorems ----

  /** The rules of a call put on lines that had none. */
  lemma Once(front: seq<Line>, log: Line, rest: seq<Line>, user: string, enabled: bool)
    requires Accesses(front, user) == 0 && IsAccess(log, user) && Accesses(rest, user) == 0
    requires NoIncludes(front) && !IsInclude(log) && NoIncludes(rest)
    ensures
      var mode := ModeFor(enabled);
      var front', log', rest' := ModeSet(front, user, mode), WithMode(log, user, mode), ModeSet(rest, user, mode);
      Set(front + [log] + rest, user, enabled)
        == if enabled then front' + [Line(log'.body, "\n"), Line("  " + INCLUDE, log.end)] + rest' else front' + [log'] + rest'
  {
    hide IsAccess, IsInclude, INCLUDE, WithMode, ModeSet, WithoutIncludes, WithInclude, ModeFor, NoIncludes, Accesses;
    var mode := ModeFor(enabled);
    ModesFor(enabled);
    var front', log', rest' := ModeSet(front, user, mode), WithMode(log, user, mode), ModeSet(rest, user, mode);
    assert front + [log] + rest == front + ([log] + rest);
    ModeSetOver(front, [log] + rest, user, mode);
    SetCons(log, rest, user, mode);
    ModeSetKeeps(front, user, mode, mode);
    ModeSetKeeps(rest, user, mode, mode);
    WithModeKeeps(log, user, mode);
    assert front' + ([log'] + rest') == front' + [log'] + rest';
    NoIncludesOver(front', [log'] + rest');
    BareIsBare(front' + ([log'] + rest'));
    Turned(front', log', rest', user);
  }

  lemma {:induction false} NoIncludesOver(a: seq<Line>, b: seq<Line>)
    requires NoIncludes(a) && (b == [] || (!IsInclude(b[0]) && NoIncludes(b[1..])))
    ensures NoIncludes(a + b)
  {
    hide IsInclude;
    if a == [] {
      assert a + b == b;
    } else {
      assert (a + b)[1..] == a[1..] + b;
      NoIncludesOver(a[1..], b);
    }
  }

  /** Two calls after each other are the second alone exactly when the first is off or the log's line ends with a line feed. */
  lemma LinesLastWins(front: seq<Line>, log: Line, rest: seq<Line>, user: string, enabled: bool)
    requires Accesses(front, user) == 0 && IsAccess(log, user) && Accesses(rest, user) == 0
    requires NoIncludes(front) && !IsInclude(log) && NoIncludes(rest)
    ensures Set(WithInclude(front + [log] + rest, user), user, enabled) == Set(front + [log] + rest, user, enabled) <==> log.end == "\n"
  {
    hide IsAccess, IsInclude, INCLUDE, WithMode, ModeSet, WithInclude, Set, NoIncludes, Accesses, Left, ModeFor;
    var mode := ModeFor(enabled);
    ModesFor(enabled);
    Once(front, log, rest, user, enabled);
    Again(front, log, rest, user, enabled);
    var front', log', rest' := ModeSet(front, user, mode), WithMode(log, user, mode), ModeSet(rest, user, mode);
    WithModeKeeps(log, user, mode);
    ModeSetKeeps(front, user, mode, mode);
    ModeSetKeeps(rest, user, mode, mode);
    LeftHasNoLog(log.end, rest', user);
    LogIgnoresEnd(log', "\n", user);
    Turned(front', Line(log'.body, "\n"), Left(log.end, rest'), user);
    var included := Line("  " + INCLUDE, log.end);
    LeftIsRest(rest');
    At(front', Line(log'.body, "\n"), Left(log.end, rest'));
    At(front', log', rest');
    AtTwo(front', Line(log'.body, "\n"), Line("  " + INCLUDE, "\n"), Left(log.end, rest'));
    AtTwo(front', Line(log'.body, "\n"), included, rest');
  }

  lemma LeftIsRest(rest: seq<Line>)
    ensures Left("\n", rest) == rest
  {
  }

  lemma At(front: seq<Line>, line: Line, rest: seq<Line>)
    ensures (front + [line] + rest)[|front|] == line
  {
  }

  lemma AtTwo(front: seq<Line>, line: Line, next: Line, rest: seq<Line>)
    ensures (front + [line, next] + rest)[|front| + 1] == next
  {
  }

  lemma LogIgnoresEnd(line: Line, end: string, user: string)
    ensures IsAccess(Line(line.body, end), user) == IsAccess(line, user)
  {
  }

  /** The lines of a vhost without its includes, cut around its access log. */
  lemma BareParts(lines: seq<Line>, user: string) returns (front: seq<Line>, log: Line, rest: seq<Line>)
    requires Accesses(lines, user) == 1
    ensures WithoutIncludes(lines) == front + [log] + rest && log.end == LogEnd(lines, user)
    ensures Accesses(front, user) == 0 && IsAccess(log, user) && Accesses(rest, user) == 0
    ensures NoIncludes(front) && !IsInclude(log) && NoIncludes(rest)
  {
    hide IsAccess, IsInclude, NoIncludes, Accesses, WithoutIncludes, LogEnd;
    BareKeeps(lines, user);
    var bare := WithoutIncludes(lines);
    var k := OneLog(bare, user);
    NoIncludesIn(bare, k);
    NoIncludesIn(bare, k + 1);
    front, log, rest := bare[..k], bare[k], bare[k + 1..];
  }

  /** Setting the lines is setting them without their includes. */
  lemma SetBare(lines: seq<Line>, user: string, enabled: bool)
    ensures Set(lines, user, enabled) == Set(WithoutIncludes(lines), user, enabled)
  {
    hide WithoutIncludes, ModeSet, WithInclude, ModeFor, NoIncludes;
    var mode := ModeFor(enabled);
    ModesFor(enabled);
    SetThenBare(lines, user, mode);
    SetThenBare(WithoutIncludes(lines), user, mode);
    BareKeeps(lines, user);
    BareIsBare(WithoutIncludes(lines));
  }

  /** Setting the lines again, whatever the format was set to first. */
  lemma SetOff(lines: seq<Line>, user: string, enabled: bool)
    ensures Set(Set(lines, user, false), user, enabled) == Set(lines, user, enabled)
  {
    hide WithoutIncludes, ModeSet, WithInclude, ModeFor, NoIncludes;
    var off, mode := ModeFor(false), ModeFor(enabled);
    ModesFor(false);
    ModesFor(enabled);
    SetThenBare(lines, user, off);
    SetThenBare(lines, user, mode);
    var bare := WithoutIncludes(lines);
    SetThenBare(ModeSet(bare, user, off), user, mode);
    BareKeeps(lines, user);
    ModeSetKeeps(bare, user, off, mode);
    ModeSetKeeps(bare, user, mode, mode);
    BareIsBare(ModeSet(bare, user, off));
    BareIsBare(ModeSet(bare, user, mode));
  }

  lemma SetOn(lines: seq<Line>, user: string, enabled: bool)
    requires Accesses(lines, user) == 1
    ensures Set(Set(lines, user, true), user, enabled) == Set(lines, user, enabled) <==> LogEnd(lines, user) == "\n"
  {
    hide IsAccess, IsInclude, WithoutIncludes, ModeSet, WithInclude, NoIncludes, Accesses, LogEnd, Set;
    var on := ModeSet(lines, user, CLOUDFLARE);
    ModeSetKeeps(lines, user, CLOUDFLARE, ModeFor(enabled));
    var front, log, rest := BareParts(on, user);
    LinesLastWins(front, log, rest, user, enabled);
    SetBare(on, user, enabled);
    SetIgnoresMode(lines, user, CLOUDFLARE, enabled);
    OnIs(lines, user);
  }

  lemma OnIs(lines: seq<Line>, user: string)
    ensures Set(lines, user, true) == WithInclude(WithoutIncludes(ModeSet(lines, user, CLOUDFLARE)), user)
  {
  }

  lemma SetIgnoresMode(lines: seq<Line>, user: string, mode: string, enabled: bool)
    requires mode == MAIN || mode == CLOUDFLARE
    ensures Set(ModeSet(lines, user, mode), user, enabled) == Set(lines, user, enabled)
  {
    hide ModeSet, WithoutIncludes, WithInclude;
    ModeSetKeeps(lines, user, mode, ModeFor(enabled));
  }

  lemma {:induction false} SetAccesses(lines: seq<Line>, user: string, enabled: bool)
    requires Accesses(lines, user) == 1
    ensures Accesses(Set(lines, user, enabled), user) == 1
  {
    hide IsAccess, IsInclude, WithoutIncludes, ModeSet, WithInclude, NoIncludes, Accesses, LogEnd, INCLUDE;
    var mode := ModeFor(enabled);
    ModeSetKeeps(lines, user, mode, mode);
    BareKeeps(ModeSet(lines, user, mode), user);
    var front, log, rest := BareParts(ModeSet(lines, user, mode), user);
    Turned(front, log, rest, user);
    LogIgnoresEnd(log, "\n", user);
    IncludeIsOne(log.end);
    IncludeIsNoAccess(Line("  " + INCLUDE, log.end), user);
    var two := [Line(log.body, "\n"), Line("  " + INCLUDE, log.end)];
    AccessesOver(front, two + rest, user);
    AccessesTwo(two, rest, user);
    assert front + two + rest == front + (two + rest);
  }

  lemma AccessesTwo(two: seq<Line>, rest: seq<Line>, user: string)
    requires |two| == 2 && IsAccess(two[0], user) && !IsAccess(two[1], user)
    ensures Accesses(two + rest, user) == 1 + Accesses(rest, user)
  {
    hide IsAccess;
    var lines := two + rest;
    assert lines[1..][0] == two[1] && lines[1..][1..] == rest;
  }

  lemma {:induction false} AccessesOver(a: seq<Line>, b: seq<Line>, user: string)
    ensures Accesses(a + b, user) == Accesses(a, user) + Accesses(b, user)
  {
    hide IsAccess;
    if a == [] {
      assert a + b == b;
    } else {
      assert (a + b)[1..] == a[1..] + b;
      AccessesOver(a[1..], b, user);
    }
  }

  /**
   * Of two calls after each other the second alone decides, whatever vhost they began with, exactly when the first turned the
   * rules off or the line of the access log ends with a line feed and no carriage return; it is refused only when the first is.
   */
  lemma LastCallWins(content: string, user: string, first: bool, second: bool)
    requires Transform(content, user, first).Some?
    ensures
      var once := Transform(content, user, first).value;
      && Transform(once, user, second).Some?
      && var same := Transform(once, user, second) == Transform(content, user, second);
      same <==> !first || LogEnd(Lines(content), user) == "\n"
  {
    hide Transform, Set, Lines, Whole, AreLines, Accesses, LogEnd;
    var lines := Lines(content);
    TransformIs(content, user, first);
    TransformIs(content, user, second);
    var once := Transform(content, user, first).value;
    var formatted := Set(lines, user, first);
    WholeLines(formatted);
    SetAccesses(lines, user, first);
    TransformIs(once, user, second);
    WholeLines(Set(formatted, user, second));
    WholeLines(Set(lines, user, second));
    if first {
      SetOn(lines, user, second);
    } else {
      SetOff(lines, user, second);
    }
  }

  /** The rules are off, and nothing is left of them. */
  ghost predicate IsOff(content: string, user: string) {
    Transform(content, user, false) == Some(content)
  }

  /** Turning the rules on and off again gives back exactly the vhosts they were off in whose log ends its line so. */
  lemma OffAfterOn(content: string, user: string)
    requires Transform(content, user, true).Some?
    ensures
      var back := Transform(Transform(content, user, true).value, user, false);
      back == Some(content) <==> IsOff(content, user) && LogEnd(Lines(content), user) == "\n"
  {
    hide Transform, Lines, LogEnd;
    LastCallWins(content, user, true, false);
    BothOrNeither(content, user);
    var on := Transform(content, user, true).value;
    if Transform(on, user, false) == Some(content) {
      LastCallWins(on, user, false, false);
    }
  }

  lemma BothOrNeither(content: string, user: string)
    ensures Transform(content, user, true).Some? <==> Transform(content, user, false).Some?
  {
    hide Lines, ModeSet, WithoutIncludes, WithInclude, Whole, Accesses;
  }

  /** The rules are off when the log has its usual format and there is no include. */
  lemma OffMeans(content: string, user: string)
    ensures IsOff(content, user) <==>
      && Accesses(Lines(content), user) == 1 && NoIncludes(Lines(content))
      && ModeSet(Lines(content), user, MAIN) == Lines(content)
  {
    hide Transform, Lines, Whole, AreLines, Accesses, ModeSet, WithoutIncludes, NoIncludes;
    var lines := Lines(content);
    LinesWhole(content);
    TransformIs(content, user, false);
    if Accesses(lines, user) == 1 {
      WholeLines(Set(lines, user, false));
      ModeSetKeeps(lines, user, MAIN, MAIN);
      BareKeeps(ModeSet(lines, user, MAIN), user);
      SetOff(lines, user, false);
      if IsOff(content, user) {
        assert NoIncludes(lines);
        BareIsBare(ModeSet(lines, user, MAIN));
      }
      if NoIncludes(lines) {
        BareIsBare(ModeSet(lines, user, MAIN));
      }
    }
  }

  // ---- A site turned on and off ----

  const RULES: CloudflareIps.Transformer := (content, user, enabled) => Transform(content, user, enabled)

  /** A site that is turned on and off again has its files back exactly when its vhost had the rules off and ends its log so. */
  lemma SiteOnAndOff(files: NginxTransaction.Files, rows: NginxTransaction.Rows, d: string, valid: string -> bool)
    requires CloudflareIps.CanUpdate(files, rows, d, true, valid, RULES)
    ensures
      var content, user := files[CloudflareIps.VhostPath(d)].content, rows[d].user;
      var on := CloudflareIps.VhostsSet(files, rows, {d}, true, RULES);
      var off := CloudflareIps.VhostsSet(on, CloudflareIps.WithFlag(rows, {d}, true), {d}, false, RULES);
      off == files <==> IsOff(content, user) && LogEnd(Lines(content), user) == "\n"
  {
    hide Transform, IsOff, LogEnd, Lines, CloudflareIps.VhostsSet;
    var path := CloudflareIps.VhostPath(d);
    var file, user := files[path], rows[d].user;
    var rows' := CloudflareIps.WithFlag(rows, {d}, true);
    CloudflareIps.NoneSet(files, rows, true, RULES);
    CloudflareIps.OneMoreSet(files, rows, {}, d, true, valid, RULES);
    var on := CloudflareIps.VhostsSet(files, rows, {d}, true, RULES);
    assert {} + {d} == {d};
    LastCallWins(file.content, user, true, false);
    CloudflareIps.NoneSet(on, rows', false, RULES);
    CloudflareIps.OneMoreSet(on, rows', {}, d, false, valid, RULES);
    OffAfterOn(file.content, user);
    var back := Transform(Transform(file.content, user, true).value, user, false).value;
    assert file.(content := back) == file <==> back == file.content;
    assert CloudflareIps.VhostsSet(on, rows', {d}, false, RULES) == files[path := file.(content := back)];
    assert files[path := file.(content := back)][path] == file.(content := back);
  }

  // ---- A vhost with carriage returns does not come back ----

  function LogHead(user: string): string {
    "access_log " + (HomeLog(user) + " ")
  }

  function LogLine(user: string): string {
    LogHead(user) + MAIN + ";"
  }

  lemma LogHeadIsHead(user: string)
    ensures IsHead(LogHead(user), user)
  {
    hide HomeLog, VarLog;
    var head, log := LogHead(user), HomeLog(user) + " ";
    HomeIsPath(user);
    assert head == "access_log" + (" " + log) && head[0] == 'a';
    assert BlankRun(head) == 0 && head[0..] == head;
    assert head[0..10] == "access_log" && head[10..] == " " + log;
    assert (" " + log)[1..] == log && log[0] == '/';
    assert BlankRun(log) == 0 && BlankRun(" " + log) == 1;
    assert log[0..|HomeLog(user)|] == HomeLog(user) && log[|HomeLog(user)|..] == " ";
    assert " "[..0] == "";
  }

  lemma HomeIsPath(user: string)
    ensures HomeLog(user) != "" && HomeLog(user)[0] == '/'
  {
  }

  lemma HeadIsBody(user: string)
    requires IsBody(user)
    ensures IsBody(LogLine(user))
  {
    hide IsLineTerminator;
    PiecesAreBodies();
    BodyOver("/home/", user);
    BodyOver("/home/" + user, "/logs/nginx/access.log");
    BodyOver(HomeLog(user), " ");
    BodyOver("access_log ", HomeLog(user) + " ");
    BodyOver(LogHead(user), MAIN);
    BodyOver(LogHead(user) + MAIN, ";");
  }

  lemma PiecesAreBodies()
    ensures IsBody("/home/") && IsBody("/logs/nginx/access.log") && IsBody(" ") && IsBody("access_log ") && IsBody(MAIN) && IsBody(";")
  {
  }

  lemma BodyOver(a: string, b: string)
    requires IsBody(a) && IsBody(b)
    ensures IsBody(a + b)
  {
    hide IsLineTerminator;
  }

  /** For every user a vhost of one line, with CR LF behind it: it loses its carriage return. */
  lemma ReturnLost(user: string)
    requires IsBody(user)
    ensures
      var content := LogLine(user) + "\r\n";
      && Transform(content, user, true).Some? && IsOff(content, user)
      && Transform(Transform(content, user, true).value, user, false) != Some(content)
  {
    hide LogLine, Transform, IsHead, AccessOf, IsInclude, IsBody, WithMode;
    var content := LogLine(user) + "\r\n";
    var log, feed, last := Line(LogLine(user), "\r"), Line("", "\n"), Line("", "");
    CutLines(user, content, log, feed, last);
    LogIsMain(user);
    EmptyIsNeither("\n", user);
    EmptyIsNeither("", user);
    EmptyKept("\n", user, MAIN);
    EmptyKept("", user, MAIN);
    var lines := [log] + [feed, last];
    ThreeLines(log, feed, last, user);
    OffMeans(content, user);
    BothOrNeither(content, user);
    OffAfterOn(content, user);
  }

  lemma CutLines(user: string, content: string, log: Line, feed: Line, last: Line)
    requires IsBody(user) && content == LogLine(user) + "\r\n"
    requires log == Line(LogLine(user), "\r") && feed == Line("", "\n") && last == Line("", "")
    ensures Lines(content) == [log] + [feed, last]
  {
    hide LogLine, IsBody;
    HeadIsBody(user);
    EmptyIsBody();
    AreLinesOne(last);
    AreLinesCons(feed, [last]);
    assert [feed] + [last] == [feed, last] && IsLineTerminator('\r');
    AreLinesCons(log, [feed, last]);
    var lines := [log] + [feed, last];
    assert lines[1..] == [feed, last] && lines[1..][1..] == [last] && lines[1..][1..][1..] == [];
    assert Whole([last]) == "" + "" + "";
    assert Whole([feed, last]) == "" + "\n" + "";
    assert Whole(lines) == LogLine(user) + "\r" + Whole([feed, last]) == content;
    WholeLines(lines);
  }

  lemma LogIsMain(user: string)
    ensures AccessOf(LogLine(user), user) == Some(Access(LogHead(user), MAIN, ";"))
  {
    hide IsHead, LogHead;
    LogHeadIsHead(user);
    assert ";"[..0] == "" && ";"[0..] == ";";
    AccessIs(LogHead(user), MAIN, ";", user);
  }

  lemma ThreeLines(log: Line, feed: Line, last: Line, user: string)
    requires IsAccess(log, user) && !IsAccess(feed, user) && !IsAccess(last, user)
    requires !IsInclude(feed) && !IsInclude(last)
    requires AccessOf(log.body, user).value.mode == MAIN && WithMode(feed, user, MAIN) == feed && WithMode(last, user, MAIN) == last
    ensures
      var lines := [log] + [feed, last];
      && Accesses(lines, user) == 1 && NoIncludes(lines) && ModeSet(lines, user, MAIN) == lines && LogEnd(lines, user) == log.end
  {
    hide AccessOf, IsInclude;
    var lines := [log] + [feed, last];
    if IsInclude(log) {
      IncludeIsNoAccess(log, user);
    }
    assert lines[1..] == [feed, last] && lines[1..][1..] == [last] && lines[1..][1..][1..] == [];
    assert WithMode(log, user, MAIN) == log;
    assert Accesses([last], user) == 0 && Accesses([feed, last], user) == 0;
    assert NoIncludes([last]) && NoIncludes([feed, last]);
    assert ModeSet([last], user, MAIN) == [last] && ModeSet([feed, last], user, MAIN) == [feed, last];
  }
}
