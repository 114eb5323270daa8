/** What the expressions of the panel's proxy look for, said of the text around it: braces, server blocks, locations, ports. */
module NginxProxyShapes {
  import opened Outcomes
  import opened Text
  import opened NginxProxy

  lemma WordCharactersAre(c: char)
    ensures IsWordChar(c) <==>
      0x30 <= c as int <= 0x39 || 0x41 <= c as int <= 0x5A || 0x61 <= c as int <= 0x7A || c as int == 0x5F
  {
  }

  // ---- Braces ----

  /** Opening braces less closing ones. */
  function Depth(s: string): int {
    if s == "" then 0 else (if s[0] == '{' then 1 else if s[0] == '}' then -1 else 0) + Depth(s[1..])
  }

  /** The braces are even at `k` for the first time, with `depth` open before. */
  ghost predicate ClosesAt(s: string, depth: int, k: int) {
    && 0 <= k < |s| && s[k] == '}' && depth + Depth(s[..k + 1]) == 0
    && forall j :: 0 < j <= k ==> depth + Depth(s[..j]) > 0
  }

  lemma DepthFirst(s: string, j: nat)
    requires 0 < j <= |s|
    ensures Depth(s[..j]) == (if s[0] == '{' then 1 else if s[0] == '}' then -1 else 0) + Depth(s[1..][..j - 1])
  {
    assert s[..j][1..] == s[1..][..j - 1];
  }

  lemma {:induction false} ClosingIs(s: string, depth: int, k: nat)
    requires depth > 0
    ensures Closing(s, depth) == Some(k) <==> ClosesAt(s, depth, k)
    decreases |s|
  {
    hide Depth, ClosesAt;
    if s == "" {
      NothingCloses(depth, k);
    } else {
      OneCloses(s, depth, k);
      if !(s[0] == '}' && depth == 1) {
        var next := if s[0] == '{' then depth + 1 else if s[0] == '}' then depth - 1 else depth;
        if k > 0 {
          ClosingIs(s[1..], next, k - 1);
          ClosesBehind(s, depth, next, k);
        }
      }
    }
  }

  lemma NothingCloses(depth: int, k: nat)
    ensures !ClosesAt("", depth, k)
  {
  }

  /** The first character closes what is one deep, and nothing else. */
  lemma OneCloses(s: string, depth: int, k: nat)
    requires s != "" && depth > 0
    ensures s[0] == '}' && depth == 1 ==> (ClosesAt(s, depth, k) <==> k == 0)
    ensures !(s[0] == '}' && depth == 1) ==> !ClosesAt(s, depth, 0)
  {
    hide Depth;
    DepthOfNothing();
    DepthFirst(s, 1);
    assert s[1..][..0] == "";
    var one := s[..1];
    assert k > 0 ==> s[..1] == one && 0 < 1 <= k;
  }

  lemma DepthOfNothing()
    ensures Depth("") == 0
  {
  }

  lemma ClosesBehind(s: string, depth: int, next: int, k: nat)
    requires s != "" && k > 0 && depth > 0 && next > 0
    requires next == depth + (if s[0] == '{' then 1 else if s[0] == '}' then -1 else 0)
    ensures ClosesAt(s, depth, k) <==> ClosesAt(s[1..], next, k - 1)
  {
    hide Depth;
    DepthOfNothing();
    var t := s[1..];
    forall j: nat | 0 < j <= |s|
      ensures depth + Depth(s[..j]) == next + Depth(t[..j - 1])
    {
      DepthFirst(s, j);
    }
    if ClosesAt(t, next, k - 1) {
      forall j: nat | 0 < j <= k
        ensures depth + Depth(s[..j]) > 0
      {
        assert t[..0] == "";
      }
    }
    if ClosesAt(s, depth, k) {
      forall j: nat | 0 < j <= k - 1
        ensures next + Depth(t[..j]) > 0
      {
        assert depth + Depth(s[..j + 1]) > 0;
      }
    }
  }

  /** The brace that is found for an opening one is the first at which the braces from there on are even. */
  lemma ClosingExactly(s: string, k: nat)
    requires s != "" && s[0] == '{'
    ensures Closing(s, 0) == Some(k) <==> k > 0 && ClosesAt(s, 0, k)
  {
    hide Depth, ClosesAt;
    if k > 0 {
      ClosingIs(s[1..], 1, k - 1);
      OpensFirst(s, k);
    }
  }

  lemma OpensFirst(s: string, k: nat)
    requires s != "" && s[0] == '{' && k > 0
    ensures ClosesAt(s, 0, k) <==> ClosesAt(s[1..], 1, k - 1)
  {
    hide Depth;
    DepthOfNothing();
    var t := s[1..];
    forall j: nat | 0 < j <= |s|
      ensures Depth(s[..j]) == 1 + Depth(t[..j - 1])
    {
      DepthFirst(s, j);
    }
    if ClosesAt(t, 1, k - 1) {
      forall j: nat | 0 < j <= k
        ensures Depth(s[..j]) > 0
      {
        assert t[..0] == "";
      }
    }
    if ClosesAt(s, 0, k) {
      forall j: nat | 0 < j <= k - 1
        ensures 1 + Depth(t[..j]) > 0
      {
        assert Depth(s[..j + 1]) > 0;
      }
    }
  }

  // ---- A location of the vhost's own ----

  predicate AllSpace(s: string) {
    forall i :: 0 <= i < |s| ==> IsSpace(s[i])
  }

  /** What stands in front of a word ends with no word character. */
  predicate WordBreak(front: string) {
    front != "" ==> !IsWordChar(front[|front| - 1])
  }

  /** The vhost is `front`, a location for /addons/, with an equals sign or without one, and `behind`. */
  predicate LocationText(s: string, front: string, space: string, equals: bool, gap: string, behind: string) {
    && s == front + ("location" + (space + ((if equals then "=" + gap else "") + ("/addons/" + behind))))
    && WordBreak(front) && space != "" && AllSpace(space) && AllSpace(gap)
  }

  lemma {:induction false} SpaceRunIs(space: string, rest: string)
    requires AllSpace(space) && (rest == "" || !IsSpace(rest[0]))
    ensures SpaceRun(space + rest) == |space|
  {
    hide IsSpace;
    if space == "" {
      assert space + rest == rest;
    } else {
      assert (space + rest)[1..] == space[1..] + rest;
      SpaceRunIs(space[1..], rest);
    }
  }

  lemma StartsApart(s: string, p: string)
    ensures StartsWith(s, p) <==> |p| <= |s| && s == p + s[|p|..]
  {
    if |p| <= |s| {
      assert s == s[..|p|] + s[|p|..];
      assert s[0..|p|] == s[..|p|];
      if s == p + s[|p|..] {
        assert (p + s[|p|..])[..|p|] == p;
      }
    }
  }

  lemma OccursApart(s: string, p: string, i: nat)
    ensures OccursAt(s, p, i) <==> i + |p| <= |s| && s == s[..i] + (p + s[i + |p|..])
  {
    if i + |p| <= |s| {
      assert s == s[..i] + (s[i..i + |p|] + s[i + |p|..]);
      if s == s[..i] + (p + s[i + |p|..]) {
        assert (s[..i] + (p + s[i + |p|..]))[i..i + |p|] == p;
      }
    }
  }

  /** What follows `location` is what the expression asks for. */
  predicate AddonsText(s: string, space: string, equals: bool, gap: string, behind: string) {
    && s == space + ((if equals then "=" + gap else "") + ("/addons/" + behind))
    && space != "" && AllSpace(space) && AllSpace(gap)
  }

  lemma SlashIsNoSpace()
    ensures !IsSpace('/') && !IsSpace('=') && "/addons/"[0] == '/' && '/' != '='
  {
  }

  lemma AddonsExactly(s: string)
    ensures AddonsAfter(s) <==> exists space, equals, gap, behind :: AddonsText(s, space, equals, gap, behind)
  {
    hide SpaceRun, IsSpace;
    if AddonsAfter(s) {
      var space, equals, gap, behind := AddonsWritten(s);
    }
    if exists space, equals, gap, behind :: AddonsText(s, space, equals, gap, behind) {
      var space, equals, gap, behind :| AddonsText(s, space, equals, gap, behind);
      AddonsRead(s, space, equals, gap, behind);
    }
  }

  lemma AddonsWritten(s: string) returns (space: string, equals: bool, gap: string, behind: string)
    requires AddonsAfter(s)
    ensures AddonsText(s, space, equals, gap, behind)
  {
    hide IsSpace, StartsWith;
    var n := SpaceRun(s);
    space := s[..n];
    var rest := s[n..];
    assert s == space + rest;
    StartsApart(rest, "/addons/");
    StartsApart(rest, "=");
    if StartsWith(rest, "/addons/") {
      equals, gap, behind := false, "", rest[8..];
      assert "" + ("/addons/" + behind) == "/addons/" + behind;
    } else {
      assert rest[1..] == s[n + 1..];
      gap, behind := EqualsWritten(rest);
      equals := true;
    }
  }

  lemma EqualsWritten(rest: string) returns (gap: string, behind: string)
    requires StartsWith(rest, "=") && |rest| > 0 && StartsWith(rest[1..][SpaceRun(rest[1..])..], "/addons/")
    ensures rest == "=" + gap + ("/addons/" + behind) && AllSpace(gap)
  {
    hide IsSpace, StartsWith, SpaceRun;
    StartsApart(rest, "=");
    var more := rest[1..];
    gap := more[..SpaceRun(more)];
    var tail := more[SpaceRun(more)..];
    StartsApart(tail, "/addons/");
    behind := tail[8..];
    assert more == gap + tail;
    assert "=" + (gap + tail) == "=" + gap + tail;
  }

  lemma AddonsRead(s: string, space: string, equals: bool, gap: string, behind: string)
    requires AddonsText(s, space, equals, gap, behind)
    ensures AddonsAfter(s)
  {
    hide IsSpace, StartsWith, SpaceRun, AllSpace;
    SlashIsNoSpace();
    var tail := "/addons/" + behind;
    BeginsWith("/addons/", behind);
    if equals {
      AfterEquals(s, space, gap, tail);
    } else {
      assert "" + tail == tail;
      SpaceRunIs(space, tail);
      Cut(space, tail);
    }
  }

  lemma BeginsWith(p: string, rest: string)
    ensures StartsWith(p + rest, p)
  {
    assert (p + rest)[0..|p|] == p;
  }

  lemma Cut(a: string, b: string)
    ensures (a + b)[|a|..] == b
  {
  }

  lemma AfterEquals(s: string, space: string, gap: string, tail: string)
    requires s == space + ("=" + gap + tail) && AllSpace(space) && AllSpace(gap) && tail != "" && !IsSpace(tail[0])
    ensures SpaceRun(s) == |space| && |space| < |s| && StartsWith(s[|space|..], "=")
    ensures SpaceRun(s[|space| + 1..]) == |gap| && s[|space| + 1..][|gap|..] == tail
  {
    hide IsSpace, SpaceRun, AllSpace, StartsWith;
    SlashIsNoSpace();
    var rest := "=" + (gap + tail);
    EqualsApart(space, gap, tail);
    SpaceRunIs(space, rest);
    Cut(space, rest);
    BeginsWith("=", gap + tail);
    Cut(space + "=", gap + tail);
    SpaceRunIs(gap, tail);
    Cut(gap, tail);
  }

  lemma EqualsApart(space: string, gap: string, tail: string)
    ensures space + ("=" + gap + tail) == space + ("=" + (gap + tail)) == (space + "=") + (gap + tail)
  {
  }

  /** The proxy is refused exactly for a text with such a location. */
  lemma ConflictsExactly(s: string)
    ensures Conflicts(s) <==>
      exists front, space, equals, gap, behind :: LocationText(s, front, space, equals, gap, behind)
  {
    hide Conflicts, LocationText;
    if Conflicts(s) {
      var front, space, equals, gap, behind := LocationWritten(s);
    }
    if exists front, space, equals, gap, behind :: LocationText(s, front, space, equals, gap, behind) {
      var front, space, equals, gap, behind :| LocationText(s, front, space, equals, gap, behind);
      LocationRead(s, front, space, equals, gap, behind);
    }
  }

  lemma LocationWritten(s: string) returns (front: string, space: string, equals: bool, gap: string, behind: string)
    requires Conflicts(s)
    ensures LocationText(s, front, space, equals, gap, behind)
  {
    hide IsSpace, AddonsAfter, IsWordChar, AllSpace;
    var i :| 0 <= i < |s| && WordAt(s, "location", i) && AddonsAfter(s[i + 8..]);
    OccursApart(s, "location", i);
    AddonsExactly(s[i + 8..]);
    space, equals, gap, behind :| AddonsText(s[i + 8..], space, equals, gap, behind);
    front := s[..i];
  }

  lemma LocationRead(s: string, front: string, space: string, equals: bool, gap: string, behind: string)
    requires LocationText(s, front, space, equals, gap, behind)
    ensures Conflicts(s)
  {
    hide IsSpace, AddonsAfter, IsWordChar, AllSpace, OccursAt;
    var rest := space + ((if equals then "=" + gap else "") + ("/addons/" + behind));
    var i := |front|;
    WordInside(front, "location", rest);
    assert AddonsText(rest, space, equals, gap, behind);
    AddonsExactly(rest);
    assert s[i + 8..] == rest && WordAt(s, "location", i);
  }

  lemma WordInside(front: string, word: string, rest: string)
    ensures
      var s := front + (word + rest);
      OccursAt(s, word, |front|) && s[..|front|] == front && s[|front| + |word|..] == rest
  {
  }

  // ---- The port ----

  /** The block is `front`, a listen directive up to its port 8443, and `behind`. */
  predicate ListenText(s: string, front: string, space: char, between: string, behind: string) {
    && s == front + ("listen" + ([space] + (between + ("8443" + behind))))
    && WordBreak(front) && IsSpace(space) && ';' !in between && WordBreak([space] + between)
    && (behind != "" ==> !IsWordChar(behind[0]))
  }

  /** A block counts as listening on 8443 exactly when it has such a directive. */
  lemma ListensExactly(s: string)
    ensures Listens(s) <==> exists front, space, between, behind :: ListenText(s, front, space, between, behind)
  {
    hide Listens, ListenText;
    if Listens(s) {
      ListenWritten(s);
    }
    if exists front, space, between, behind :: ListenText(s, front, space, between, behind) {
      var front, space, between, behind :| ListenText(s, front, space, between, behind);
      PortRead(s, front, space, between, behind);
    }
  }

  lemma ListenWritten(s: string)
    requires Listens(s)
    ensures exists front, space, between, behind :: ListenText(s, front, space, between, behind)
  {
    hide WordAt, PortAt, ListenText;
    var i :| 0 <= i < |s| && WordAt(s, "listen", i) && PortAfter(s, i + 6);
    var j :| 0 <= j < |s| && PortAt(s, i + 6, j);
    var front, space, between, behind := PortWritten(s, i, j);
  }

  lemma PortWritten(s: string, i: nat, j: nat) returns (front: string, space: char, between: string, behind: string)
    requires i < |s| && WordAt(s, "listen", i) && j < |s| && PortAt(s, i + 6, j)
    ensures ListenText(s, front, space, between, behind)
  {
    hide IsSpace, IsWordChar, OccursAt;
    var from := i + 6;
    PortText(s, i, from, j);
    front, space, between, behind := s[..i], s[from], s[from + 1..j], s[j + 4..];
    PortParts(s, from, j);
    LastOf(s, i);
    FirstOf(s, j + 4);
  }

  lemma PortText(s: string, i: nat, from: nat, j: nat)
    requires OccursAt(s, "listen", i) && from == i + 6 && OccursAt(s, "8443", j) && from < j
    ensures j + 4 <= |s| && s == s[..i] + ("listen" + ([s[from]] + (s[from + 1..j] + ("8443" + s[j + 4..]))))
  {
    hide OccursAt;
    ListenApart(s, i, from);
    PortApart(s, j);
    Around(s, from, j);
  }

  lemma LastOf(s: string, i: nat)
    requires i <= |s|
    ensures |s[..i]| == i && (i > 0 ==> s[..i][i - 1] == s[i - 1])
  {
  }

  lemma FirstOf(s: string, i: nat)
    requires i <= |s|
    ensures |s[i..]| == |s| - i && (i < |s| ==> s[i..][0] == s[i])
  {
  }

  lemma ListenApart(s: string, i: nat, from: nat)
    requires OccursAt(s, "listen", i) && from == i + 6
    ensures from <= |s| && s == s[..i] + ("listen" + s[from..])
  {
    hide OccursAt;
    OccursApart(s, "listen", i);
  }

  lemma PortApart(s: string, j: nat)
    requires OccursAt(s, "8443", j)
    ensures j + 4 <= |s| && s == s[..j] + ("8443" + s[j + 4..])
  {
    hide OccursAt;
    OccursApart(s, "8443", j);
  }

  lemma PortParts(s: string, from: nat, j: nat)
    requires from < j < |s| && forall k :: from < k < j ==> s[k] != ';'
    ensures ';' !in s[from + 1..j]
    ensures ([s[from]] + s[from + 1..j])[j - from - 1] == s[j - 1]
  {
    var between := s[from + 1..j];
    assert forall k :: 0 <= k < |between| ==> between[k] == s[from + 1 + k];
  }

  lemma Around(s: string, from: nat, j: nat)
    requires from < j && j + 4 <= |s| && s == s[..j] + ("8443" + s[j + 4..])
    ensures s[from..] == [s[from]] + (s[from + 1..j] + ("8443" + s[j + 4..]))
  {
    var tail := "8443" + s[j + 4..];
    assert s[..j] == s[..from] + ([s[from]] + s[from + 1..j]);
    assert s == s[..from] + ([s[from]] + (s[from + 1..j] + tail));
    assert s[from..] == (s[..from] + ([s[from]] + (s[from + 1..j] + tail)))[from..];
  }

  lemma PortRead(s: string, front: string, space: char, between: string, behind: string)
    requires ListenText(s, front, space, between, behind)
    ensures Listens(s)
  {
    hide IsSpace, IsWordChar, OccursAt, PortAt, WordAt, Listens;
    var i, j := |front|, |front| + 7 + |between|;
    ListenFound(s, front, space, between, behind);
    PortFound(s, front, space, between, behind);
    PortCharacters(s, front, space, between, behind);
    ListensBy(s, i, j);
  }

  lemma ListensBy(s: string, i: nat, j: nat)
    requires i < |s| && WordAt(s, "listen", i) && j < |s| && PortAt(s, i + 6, j)
    ensures Listens(s)
  {
    hide WordAt, PortAt;
    assert PortAfter(s, i + 6);
  }

  lemma ListenFound(s: string, front: string, space: char, between: string, behind: string)
    requires ListenText(s, front, space, between, behind)
    ensures |front| < |s| && WordAt(s, "listen", |front|)
  {
    hide IsSpace, IsWordChar, OccursAt;
    WordInside(front, "listen", [space] + (between + ("8443" + behind)));
    PortCharacters(s, front, space, between, behind);
  }

  lemma PortFound(s: string, front: string, space: char, between: string, behind: string)
    requires ListenText(s, front, space, between, behind)
    ensures PortAt(s, |front| + 6, |front| + 7 + |between|)
  {
    hide IsSpace, IsWordChar, OccursAt;
    ListenRegroup(front, space, between, "8443" + behind);
    WordInside(front + "listen" + [space] + between, "8443", behind);
    PortCharacters(s, front, space, between, behind);
    assert ([space] + between)[|between|] == if between == "" then space else between[|between| - 1];
  }

  lemma ListenRegroup(front: string, space: char, between: string, tail: string)
    ensures front + ("listen" + ([space] + (between + tail))) == (front + "listen" + [space] + between) + tail
    ensures |front + "listen" + [space] + between| == |front| + 7 + |between|
  {
  }

  lemma PortCharacters(s: string, front: string, space: char, between: string, behind: string)
    requires s == front + ("listen" + ([space] + (between + ("8443" + behind))))
    ensures
      var i, j := |front|, |front| + 7 + |between|;
      && j < |s| && s[i + 6] == space && s[j - 1] == ([space] + between)[|between|]
      && (i > 0 ==> s[i - 1] == front[i - 1]) && (behind != "" ==> j + 4 < |s| && s[j + 4] == behind[0])
      && (behind == "" ==> |s| == j + 4)
      && forall k :: i + 6 < k < j ==> s[k] == between[k - i - 7]
  {
  }

  // ---- Server blocks ----

  /** `server`, spaces and an opening brace at `i`, behind no word character; the brace is at `open`. */
  ghost predicate HeadAt(s: string, i: int, open: int) {
    && 0 <= i < open < |s| && OccursAt(s, "server", i) && (i > 0 ==> !IsWordChar(s[i - 1]))
    && i + 6 <= open && AllSpace(s[i + 6..open]) && s[open] == '{'
  }

  lemma BraceIsNoSpace()
    ensures !IsSpace('{')
  {
  }

  lemma HeadExactly(s: string, i: nat, open: nat)
    requires i <= |s| && i <= open
    ensures Head(s[i..]) == Some(open + 1 - i) && (i > 0 ==> !IsWordChar(s[i - 1])) <==> HeadAt(s, i, open)
  {
    hide IsSpace, IsWordChar, SpaceRun;
    var r := s[i..];
    BraceIsNoSpace();
    if StartsWith(r, "server") {
      assert s[i..i + 6] == r[0..6];
      var n := SpaceRun(r[6..]);
      assert r[6..][..n] == s[i + 6..i + 6 + n];
      assert forall k :: 0 <= k < n ==> s[i + 6..i + 6 + n][k] == r[6..][k];
      if HeadAt(s, i, open) {
        assert r[6..] == s[i + 6..open] + s[open..];
        SpaceRunIs(s[i + 6..open], s[open..]);
      }
    }
    if OccursAt(s, "server", i) {
      assert r[0..6] == s[i..i + 6];
    }
  }

  /** The block from the head at `i` to the brace that closes it. */
  ghost predicate Served(s: string, i: int, end: int) {
    exists open :: HeadAt(s, i, open) && ClosesAt(s[open..], 0, end - open)
  }

  lemma HeadOnce(s: string, i: nat, open: int, other: int)
    requires HeadAt(s, i, open) && HeadAt(s, i, other)
    ensures other == open
  {
    hide IsWordChar, HeadAt;
    OpenBehind(s, i, open);
    OpenBehind(s, i, other);
    HeadExactly(s, i, open);
    HeadExactly(s, i, other);
  }

  lemma ServedIs(s: string, i: nat, open: nat, end: nat)
    requires HeadAt(s, i, open)
    ensures Served(s, i, end) <==> end > open && Closing(s[open..], 0) == Some(end - open)
  {
    hide IsWordChar, Closing, HeadAt, ClosesAt;
    OpenBehind(s, i, open);
    ServedFrom(s, i, open, end);
    if end >= open {
      ClosingExactly(s[open..], end - open);
      FirstIsNoClosing(s[open..]);
    }
  }

  lemma ServedFrom(s: string, i: nat, open: nat, end: nat)
    requires HeadAt(s, i, open)
    ensures open < |s| && (Served(s, i, end) <==> ClosesAt(s[open..], 0, end - open))
    ensures Served(s, i, end) ==> end >= open
  {
    hide IsWordChar, AllSpace, OccursAt, ClosesAt;
    if Served(s, i, end) {
      var other :| HeadAt(s, i, other) && ClosesAt(s[other..], 0, end - other);
      HeadOnce(s, i, open, other);
      ClosesSome(s[open..], end - open);
    }
  }

  lemma ClosesSome(s: string, k: int)
    requires ClosesAt(s, 0, k)
    ensures k >= 0
  {
  }

  lemma FirstIsNoClosing(s: string)
    requires s != "" && s[0] == '{'
    ensures !ClosesAt(s, 0, 0)
  {
  }

  /** Server blocks in their order, none within another. */
  ghost predicate Apart(blocks: seq<Block>) {
    forall k, l :: 0 <= k < l < |blocks| ==> blocks[k].end < blocks[l].start
  }

  ghost predicate AllServed(s: string, from: int, blocks: seq<Block>) {
    forall k :: 0 <= k < |blocks| ==> from <= blocks[k].start < blocks[k].end && Served(s, blocks[k].start, blocks[k].end)
  }

  ghost predicate Covered(blocks: seq<Block>, i: int) {
    exists k :: 0 <= k < |blocks| && blocks[k].start <= i <= blocks[k].end
  }

  ghost predicate AllCovered(s: string, from: int, blocks: seq<Block>) {
    forall i, end :: i >= from && Served(s, i, end) ==> Covered(blocks, i)
  }

  lemma NoHeadInside(s: string, i: nat, open: nat)
    requires HeadAt(s, i, open)
    ensures forall j, end :: i < j <= open ==> !Served(s, j, end)
  {
    hide IsWordChar;
    assert s[i..i + 6] == "server";
    forall j: int | i < j <= open
      ensures s[j] != 's'
    {
      if j < i + 6 {
        assert s[j] == s[i..i + 6][j - i] == "server"[j - i];
      } else if j < open {
        assert s[j] == s[i + 6..open][j - i - 6];
      }
    }
    forall j, end | i < j <= open
      ensures !Served(s, j, end)
    {
      if OccursAt(s, "server", j) {
        OccursChar(s, "server", j, 0);
      }
    }
  }

  lemma CoveredMore(b: Block, rest: seq<Block>, i: int)
    ensures Covered([b] + rest, i) <==> b.start <= i <= b.end || Covered(rest, i)
  {
    var all := [b] + rest;
    assert all[0] == b;
    if Covered(rest, i) {
      var k :| 0 <= k < |rest| && rest[k].start <= i <= rest[k].end;
      assert all[k + 1] == rest[k];
    }
    if Covered(all, i) && !(b.start <= i <= b.end) {
      var k :| 0 <= k < |all| && all[k].start <= i <= all[k].end;
      assert all[k] == rest[k - 1];
    }
  }

  lemma SkipOne(s: string, i: nat, blocks: seq<Block>)
    requires i < |s| && AllServed(s, i + 1, blocks) && AllCovered(s, i + 1, blocks)
    requires (i > 0 && IsWordChar(s[i - 1])) || Head(s[i..]).None?
    ensures AllServed(s, i, blocks) && AllCovered(s, i, blocks)
  {
    hide IsWordChar, Head, Covered;
    forall end
      ensures !Served(s, i, end)
    {
      if Served(s, i, end) {
        var open :| HeadAt(s, i, open) && ClosesAt(s[open..], 0, end - open);
        HeadExactly(s, i, open);
      }
    }
  }

  lemma SkipHead(s: string, i: nat, open: nat, blocks: seq<Block>)
    requires HeadAt(s, i, open) && Closing(s[open..], 0).None?
    requires AllServed(s, open + 1, blocks) && AllCovered(s, open + 1, blocks)
    ensures AllServed(s, i, blocks) && AllCovered(s, i, blocks)
  {
    hide IsWordChar, Head, Covered, Closing, HeadAt;
    NoHeadInside(s, i, open);
    OpenBehind(s, i, open);
    forall end
      ensures !Served(s, i, end)
    {
      if end >= 0 {
        ServedIs(s, i, open, end);
      } else {
        NotBefore(s, i, end);
      }
    }
  }

  lemma OpenBehind(s: string, i: int, open: int)
    requires HeadAt(s, i, open)
    ensures 0 <= i < open < |s| && s[open] == '{'
  {
  }

  lemma NotBefore(s: string, i: int, end: int)
    requires end < 0
    ensures !Served(s, i, end)
  {
    hide IsWordChar;
  }

  lemma TakeHead(s: string, i: nat, open: nat, end: nat, rest: seq<Block>)
    requires HeadAt(s, i, open) && end > open && Closing(s[open..], 0) == Some(end - open)
    requires AllServed(s, end + 1, rest) && AllCovered(s, end + 1, rest) && Apart(rest)
    ensures AllServed(s, i, [Block(i, end)] + rest) && AllCovered(s, i, [Block(i, end)] + rest) && Apart([Block(i, end)] + rest)
  {
    hide IsWordChar, Head, Covered, Closing, HeadAt, Served;
    OpenBehind(s, i, open);
    ServedIs(s, i, open, end);
    forall j
      ensures Covered([Block(i, end)] + rest, j) <==> i <= j <= end || Covered(rest, j)
    {
      CoveredMore(Block(i, end), rest, j);
    }
  }

  lemma {:induction false} BlocksFromExactly(s: string, i: nat)
    requires i <= |s|
    ensures AllServed(s, i, BlocksFrom(s, i)) && AllCovered(s, i, BlocksFrom(s, i)) && Apart(BlocksFrom(s, i))
    decreases |s| - i
  {
    hide IsWordChar, Head, Closing, Scan, AllServed, AllCovered, Apart, HeadAt;
    if i == |s| {
      NoneServed(s);
    } else {
      BlocksStep(s, i);
      var head := Head(s[i..]);
      if (i > 0 && IsWordChar(s[i - 1])) || head.None? {
        BlocksFromExactly(s, i + 1);
        SkipOne(s, i, BlocksFrom(s, i + 1));
      } else {
        var open := i + head.value - 1;
        HeadLong(s[i..]);
        HeadExactly(s, i, open);
        match Closing(s[open..], 0)
        case None =>
          BlocksFromExactly(s, open + 1);
          SkipHead(s, i, open, BlocksFrom(s, open + 1));
        case Some(k) =>
          OpenIsNotClosing(s, open + 1, k);
          BlocksFromExactly(s, open + k + 1);
          TakeHead(s, i, open, open + k, BlocksFrom(s, open + k + 1));
      }
    }
  }

  lemma NoneServed(s: string)
    ensures BlocksFrom(s, |s|) == []
    ensures AllServed(s, |s|, []) && AllCovered(s, |s|, []) && Apart([])
  {
    hide IsWordChar, Head, Closing;
    BlocksAtEnds(s);
  }

  /** The server blocks of a masked text: each from a head to the brace that closes it, one after the other, and no other
    * such head stands outside all of them. */
  lemma BlocksExactly(content: string)
    ensures
      var masked, blocks := Mask(content), ServerBlocks(content);
      AllServed(masked, 0, blocks) && AllCovered(masked, 0, blocks) && Apart(blocks)
  {
    hide Mask, Scan, IsWordChar;
    BlocksFromExactly(Mask(content), 0);
    BlocksAtEnds(Mask(content));
  }

  // ---- When the proxy is refused ----

  /** The block listens on 8443. */
  predicate Hears(masked: string, b: Block) {
    b.start <= b.end < |masked| && Listens(masked[b.start..b.end + 1])
  }

  /** The `k`th block listens on 8443, and no other does. */
  ghost predicate OnlyHears(masked: string, blocks: seq<Block>, k: int) {
    0 <= k < |blocks| && Hears(masked, blocks[k]) && forall j :: 0 <= j < |blocks| && j != k ==> !Hears(masked, blocks[j])
  }

  ghost predicate SomeOnlyHears(masked: string, blocks: seq<Block>) {
    exists k :: OnlyHears(masked, blocks, k)
  }

  ghost predicate NoneHears(masked: string, blocks: seq<Block>) {
    forall j :: 0 <= j < |blocks| ==> !Hears(masked, blocks[j])
  }

  lemma NoneHearsLast(masked: string, front: seq<Block>, b: Block)
    ensures NoneHears(masked, front + [b]) <==> NoneHears(masked, front) && !Hears(masked, b)
  {
    hide Hears;
    var all := front + [b];
    assert all[|front|] == b && forall j :: 0 <= j < |front| ==> all[j] == front[j];
  }

  lemma OnlyHearsLast(masked: string, front: seq<Block>, b: Block)
    ensures Hears(masked, b) ==> (SomeOnlyHears(masked, front + [b]) <==> NoneHears(masked, front))
    ensures !Hears(masked, b) ==> (SomeOnlyHears(masked, front + [b]) <==> SomeOnlyHears(masked, front))
  {
    hide Hears;
    var all, n := front + [b], |front|;
    assert all[n] == b && forall j :: 0 <= j < n ==> all[j] == front[j];
    if SomeOnlyHears(masked, all) {
      var k :| OnlyHears(masked, all, k);
      if Hears(masked, b) {
        OnlyOneHears(masked, all, k, n);
        assert forall j :: 0 <= j < n ==> !Hears(masked, all[j]);
      } else {
        assert OnlyHears(masked, front, k);
      }
    }
    if Hears(masked, b) && NoneHears(masked, front) {
      assert OnlyHears(masked, all, n);
    }
    if !Hears(masked, b) && SomeOnlyHears(masked, front) {
      var k :| OnlyHears(masked, front, k);
      assert OnlyHears(masked, all, k);
    }
  }

  lemma OnlyOneHears(masked: string, blocks: seq<Block>, k: int, n: nat)
    requires OnlyHears(masked, blocks, k) && n < |blocks| && Hears(masked, blocks[n])
    ensures k == n
  {
    hide Hears;
  }

  lemma {:induction false} ListeningOne(masked: string, blocks: seq<Block>)
    requires AllIn(masked, 0, blocks)
    ensures Listening(masked, blocks) == [] <==> NoneHears(masked, blocks)
    ensures |Listening(masked, blocks)| == 1 <==> SomeOnlyHears(masked, blocks)
  {
    hide Listens, NoneHears, SomeOnlyHears;
    if blocks == [] {
      NobodyHears(masked);
    } else {
      var n := |blocks| - 1;
      var front, b := blocks[..n], blocks[n];
      assert blocks == front + [b];
      ListeningOne(masked, front);
      NoneHearsLast(masked, front, b);
      OnlyHearsLast(masked, front, b);
      assert Hears(masked, b) <==> Listens(masked[b.start..b.end + 1]);
    }
  }

  lemma NobodyHears(masked: string)
    ensures NoneHears(masked, []) && !SomeOnlyHears(masked, [])
  {
  }

  /** Exactly one server block of the text listens on 8443. */
  ghost predicate OneListens(t: string) {
    SomeOnlyHears(Mask(t), ServerBlocks(t))
  }

  /** The proxy is refused for a location of the vhost's own, and otherwise unless exactly one server block listens on 8443; taking
    * it out is never refused. */
  lemma RefusedExactly(content: string)
    ensures
      var upstream := Stripped(content);
      && Rendered(content, false) == Ok(upstream)
      && (Rendered(content, true) == Err(Conflict) <==> Conflicts(upstream))
      && (Rendered(content, true) == Err(Ambiguous) <==> !Conflicts(upstream) && !OneListens(Stripped(upstream)))
  {
    hide Stripped, Mask, Scan, Conflicts, Listening, SomeOnlyHears, NoneHears;
    var searched := Stripped(Stripped(content));
    ScanBounds(Mask(searched), false, 0);
    ListeningOne(Mask(searched), ServerBlocks(searched));
  }

  // ---- What stripping takes out ----

  predicate IsLineEnd(s: string) {
    s == "" || s == "\r" || s == "\n" || s == "\r\n"
  }

  predicate AllBlank(s: string) {
    forall i :: 0 <= i < |s| ==> IsBlank(s[i])
  }

  /** `end` takes as much of a line end as there is in front of `rest`. */
  predicate TakesLineEnd(end: string, rest: string) {
    && IsLineEnd(end)
    && (end == "" ==> rest == "" || (rest[0] != CR && rest[0] != LF)) && (end == "\r" ==> rest == "" || rest[0] != LF)
  }

  /** A block between its markers, up to the first end marker, with the line end and blanks ahead of it and the line end behind. */
  datatype Marked = Marked(start: string, blanks: string, inner: string, end: string)

  predicate IsMarked(b: Marked, rest: string) {
    && IsLineEnd(b.start) && AllBlank(b.blanks) && TakesLineEnd(b.end, rest)
    && IndexOf(b.inner + (FINISH + (b.end + rest)), FINISH) == Some(|b.inner|)
  }

  function MarkedText(b: Marked): string {
    b.start + (b.blanks + (START + (b.inner + (FINISH + b.end))))
  }

  lemma LineEndRead(end: string, rest: string)
    requires TakesLineEnd(end, rest)
    ensures LineEnd(end + rest) == |end|
  {
    var s := end + rest;
    assert end != "" ==> s[0] == end[0];
    assert |end| == 1 && rest != "" ==> s[1] == rest[0];
    assert end == "" ==> s == rest;
  }

  lemma LineEndWritten(s: string)
    ensures TakesLineEnd(s[..LineEnd(s)], s[LineEnd(s)..])
  {
    assert s != "" ==> s[..1] == [s[0]];
    assert |s| > 1 ==> s[..2] == [s[0], s[1]];
  }

  lemma {:induction false} BlankRunIs(blanks: string, rest: string)
    requires AllBlank(blanks) && (rest == "" || !IsBlank(rest[0]))
    ensures BlankRun(blanks + rest) == |blanks|
  {
    if blanks == "" {
      assert blanks + rest == rest;
    } else {
      assert (blanks + rest)[1..] == blanks[1..] + rest;
      BlankRunIs(blanks[1..], rest);
    }
  }

  lemma StartIsMark()
    ensures START != "" && START[0] == '#'
  {
  }

  lemma FromMark(s: string, start: string, blanks: string, tail: string)
    requires s == start + (blanks + tail) && IsLineEnd(start) && AllBlank(blanks) && tail != "" && tail[0] == '#'
    ensures LineEnd(s) == |start| && BlankRun(s[LineEnd(s)..]) == |blanks| && s[|start| + |blanks|..] == tail
  {
    hide LineEnd, BlankRun, IsLineEnd, AllBlank, TakesLineEnd;
    BlanksEndNoLine(start, blanks, tail);
    LineEndRead(start, blanks + tail);
    Cut(start, blanks + tail);
    BlankRunIs(blanks, tail);
    CutTwice(s, |start|, blanks + tail, |blanks|);
    Cut(blanks, tail);
  }

  lemma BlanksEndNoLine(start: string, blanks: string, tail: string)
    requires IsLineEnd(start) && AllBlank(blanks) && tail != "" && tail[0] == '#'
    ensures TakesLineEnd(start, blanks + tail)
  {
    assert blanks != "" ==> (blanks + tail)[0] == blanks[0];
    assert blanks == "" ==> (blanks + tail)[0] == tail[0];
  }

  lemma MarkedIs(s: string, from: nat)
    requires from == LineEnd(s) + BlankRun(s[LineEnd(s)..])
    ensures MarkedAt(s) ==
      if !StartsWith(s[from..], START) then None
      else
        match IndexOf(s[from + |START|..], FINISH)
        case None => None
        case Some(i) =>
          var end := from + |START| + i + |FINISH|;
          Some(end + LineEnd(s[end..]))
  {
    hide START, FINISH, LineEnd, BlankRun, IndexOf, OccursAt;
  }

  /** A marked block is taken whole. */
  lemma MarkedRead(b: Marked, rest: string)
    requires IsMarked(b, rest)
    ensures MarkedAt(MarkedText(b) + rest) == Some(|MarkedText(b)|)
  {
    hide LineEnd, BlankRun, START, FINISH, MarkedAt, StartsWith, IndexOf, AllBlank, IsLineEnd, TakesLineEnd, MarkedText;
    var s := MarkedText(b) + rest;
    var last := b.end + rest;
    var body := b.inner + (FINISH + last);
    var from := |b.start| + |b.blanks|;
    MarkedRegroup(b, rest);
    StartIsMark();
    StartsTail(body);
    FromMark(s, b.start, b.blanks, START + body);
    BeginsWith(START, body);
    MarkedIs(s, from);
    Behind(s, from, START, body);
    Behind(s, from + |START|, b.inner, FINISH + last);
    Behind(s, from + |START| + |b.inner|, FINISH, last);
    LineEndRead(b.end, rest);
  }

  lemma StartsTail(body: string)
    requires START != "" && START[0] == '#'
    ensures START + body != "" && (START + body)[0] == '#'
  {
    hide START;
  }

  lemma Behind(s: string, i: nat, a: string, b: string)
    requires i <= |s| && s[i..] == a + b
    ensures i + |a| <= |s| && s[i + |a|..] == b
  {
    assert s[i + |a|..] == s[i..][|a|..];
  }

  lemma TakesIsLineEnd(end: string, rest: string)
    requires TakesLineEnd(end, rest)
    ensures IsLineEnd(end)
  {
  }

  lemma CutTwice(s: string, i: nat, t: string, j: nat)
    requires i <= |s| && s[i..] == t && j <= |t|
    ensures i + j <= |s| && s[i + j..] == t[j..]
  {
  }

  lemma CutThrice(s: string, a: string, b: string, c: string)
    requires s == a + (b + c)
    ensures s[|a| + |b|..] == c
  {
  }

  lemma MarkedRegroup(b: Marked, rest: string)
    ensures MarkedText(b) + rest == b.start + (b.blanks + (START + (b.inner + (FINISH + (b.end + rest)))))
    ensures |MarkedText(b)| == |b.start| + |b.blanks| + |START| + |b.inner| + |FINISH| + |b.end|
  {
    hide START, FINISH;
    assert FINISH + b.end + rest == FINISH + (b.end + rest);
    assert b.inner + (FINISH + b.end) + rest == b.inner + (FINISH + (b.end + rest));
    assert START + (b.inner + (FINISH + b.end)) + rest == START + (b.inner + (FINISH + (b.end + rest)));
    assert b.blanks + (START + (b.inner + (FINISH + b.end))) + rest == b.blanks + (START + (b.inner + (FINISH + (b.end + rest))));
  }

  /** What is taken is a marked block. */
  lemma MarkedWritten(s: string) returns (b: Marked)
    requires MarkedAt(s).Some?
    ensures s == MarkedText(b) + s[MarkedAt(s).value..] && IsMarked(b, s[MarkedAt(s).value..])
  {
    hide LineEnd, BlankRun, START, FINISH, MarkedAt, StartsWith, IndexOf, IsLineEnd, AllBlank, TakesLineEnd, MarkedText;
    var from := LineEnd(s) + BlankRun(s[LineEnd(s)..]);
    MarkedIs(s, from);
    StartsApart(s[from..], START);
    var body := s[from..][|START|..];
    Behind(s, from, START, body);
    var start, blanks := FrontWritten(s, LineEnd(s), BlankRun(s[LineEnd(s)..]), START + body);
    var inner, end, rest := BackWritten(body);
    b := Marked(start, blanks, inner, end);
    MarkedRegroup(b, rest);
    MarkedEnd(s, from, body, |inner| + |FINISH|, end, rest);
  }

  /** The line end and blanks in front of `tail`. */
  lemma FrontWritten(s: string, n: nat, k: nat, tail: string) returns (start: string, blanks: string)
    requires n == LineEnd(s) && k == BlankRun(s[n..]) && n + k <= |s| && s[n + k..] == tail
    ensures s == start + (blanks + tail) && IsLineEnd(start) && AllBlank(blanks) && |start| == n && |blanks| == k
  {
    start, blanks := s[..n], s[n..][..k];
    FrontFits(s, n, k);
    CutFront(s, n, k);
  }

  lemma FrontFits(s: string, n: nat, k: nat)
    requires n == LineEnd(s) && k == BlankRun(s[n..])
    ensures IsLineEnd(s[..n]) && AllBlank(s[n..][..k])
  {
    hide LineEnd, BlankRun, IsLineEnd, AllBlank, TakesLineEnd;
    LineEndWritten(s);
    BlanksTaken(s[n..]);
    TakesIsLineEnd(s[..n], s[n..]);
  }

  lemma MarkedEnd(s: string, from: nat, body: string, k: nat, end: string, rest: string)
    requires from + |START| <= |s| && s[from + |START|..] == body && k <= |body| && body[k..] == end + rest
    ensures from + |START| + k + |end| <= |s| && s[from + |START| + k..] == end + rest && s[from + |START| + k + |end|..] == rest
  {
    hide START;
    CutTwice(s, from + |START|, body, k);
    Behind(s, from + |START| + k, end, rest);
  }

  lemma BlanksTaken(r: string)
    ensures AllBlank(r[..BlankRun(r)])
  {
  }

  lemma CutFront(s: string, n: nat, k: nat)
    requires n + k <= |s|
    ensures s == s[..n] + (s[n..][..k] + s[n + k..])
  {
  }

  lemma BackWritten(body: string) returns (inner: string, end: string, rest: string)
    requires IndexOf(body, FINISH).Some?
    ensures IndexOf(body, FINISH) == Some(|inner|) && body == inner + (FINISH + (end + rest)) && TakesLineEnd(end, rest)
    ensures |inner| + |FINISH| <= |body| && body[|inner| + |FINISH|..] == end + rest
    ensures LineEnd(body[|inner| + |FINISH|..]) == |end|
  {
    hide LineEnd, IsLineEnd, TakesLineEnd, FINISH, IndexOf;
    var i := IndexOf(body, FINISH).value;
    OccursApart(body, FINISH, i);
    inner := body[..i];
    var last := body[i + |FINISH|..];
    LineEndWritten(last);
    end, rest := last[..LineEnd(last)], last[LineEnd(last)..];
    assert last == end + rest;
  }

  /** No marked block begins in the first `n` characters. */
  ghost predicate NoneBegins(s: string, n: nat) {
    n <= |s| && forall i :: 0 <= i < n ==> MarkedAt(s[i..]).None?
  }

  lemma {:induction false} StrippedPlain(s: string, n: nat)
    requires NoneBegins(s, n)
    ensures Stripped(s) == s[..n] + Stripped(s[n..])
    decreases n
  {
    hide MarkedAt;
    if n == 0 {
      assert s[0..] == s && s[..0] == "";
    } else {
      assert s[0..] == s;
      forall i | 0 <= i < n - 1
        ensures MarkedAt(s[1..][i..]).None?
      {
        assert s[1..][i..] == s[i + 1..];
      }
      StrippedPlain(s[1..], n - 1);
      assert s[1..][n - 1..] == s[n..];
      assert s[..n] == [s[0]] + s[1..][..n - 1];
    }
  }

  /** Stripping takes out the first marked block, whatever is between its markers, and goes on behind it. */
  lemma StripMeans(front: string, b: Marked, rest: string, s: string)
    requires IsMarked(b, rest) && s == front + (MarkedText(b) + rest) && NoneBegins(s, |front|)
    ensures Stripped(s) == front + Stripped(rest)
  {
    hide MarkedAt, Stripped, IsMarked, MarkedText;
    StrippedPlain(s, |front|);
    Cut(front, MarkedText(b) + rest);
    assert s[..|front|] == front;
    MarkedRead(b, rest);
    StrippedTaken(MarkedText(b) + rest);
    Cut(MarkedText(b), rest);
  }

  lemma StrippedTaken(s: string)
    requires MarkedAt(s).Some?
    ensures MarkedAt(s).value <= |s| && Stripped(s) == Stripped(s[MarkedAt(s).value..])
  {
    hide MarkedAt;
  }
}
