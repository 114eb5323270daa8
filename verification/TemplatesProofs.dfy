/** Reconciling templates: the patched file is the pristine one with removable blocks, and only the last set counts. */
module TemplatesProofs {
  import opened Outcomes
  import opened Text
  import opened Templates

  // ---- A patched text as its pieces ----

  /** Pristine text with blocks in it. */
  datatype Doc = End(rest: string) | Block(before: string, inj: Injection, after: Doc)

  /** The text of the file. */
  ghost function Full(d: Doc): string {
    match d
    case End(rest) => rest
    case Block(before, inj, after) => before + Wrap(inj) + Full(after)
  }

  /** The text without the blocks. */
  ghost function Bare(d: Doc): string {
    match d
    case End(rest) => rest
    case Block(before, inj, after) => before + Bare(after)
  }

  ghost function Blocks(d: Doc): multiset<Injection> {
    match d
    case End(rest) => multiset{}
    case Block(before, inj, after) => multiset{inj} + Blocks(after)
  }

  // ---- Markers ----

  ghost predicate HasMarker(r: string) {
    MarkerLength(r, START_TAIL).Some? || MarkerLength(r, END_TAIL).Some?
  }

  /** No marker, of any addon, begins anywhere in the text. */
  ghost predicate MarkerFree(text: string) {
    forall i :: 0 <= i <= |text| ==> !HasMarker(text[i..])
  }

  predicate IsName(name: string) {
    name != [] && forall i :: 0 <= i < |name| ==> IsNameChar(name[i])
  }

  ghost predicate WellFormed(inj: Injection) {
    IsName(inj.addon) && IsName(inj.slug) && MarkerFree(inj.snippet)
  }

  lemma {:induction false} NameRunOf(name: string, z: string)
    requires forall i :: 0 <= i < |name| ==> IsNameChar(name[i])
    requires z != [] && !IsNameChar(z[0])
    ensures NameRun(name + z) == |name|
  {
    if name == [] {
      assert name + z == z;
    } else {
      assert (name + z)[1..] == name[1..] + z;
      NameRunOf(name[1..], z);
    }
  }

  lemma {:induction false} NameRunAll(r: string)
    ensures forall i :: 0 <= i < NameRun(r) ==> IsNameChar(r[i])
    ensures NameRun(r) < |r| ==> !IsNameChar(r[NameRun(r)])
  {
    if r != [] && IsNameChar(r[0]) {
      NameRunAll(r[1..]);
    }
  }

  /** A marker takes the head, two names, and the tail, and nothing else. */
  ghost predicate IsMarker(m: string, tail: string) {
    exists addon, slug :: IsName(addon) && IsName(slug) && m == HEAD + addon + ":" + slug + tail
  }

  predicate IsTail(tail: string) {
    tail != [] && !IsNameChar(tail[0])
  }

  lemma TailsAreTails()
    ensures IsTail(START_TAIL) && IsTail(END_TAIL)
  {
  }

  /** A marker and what follows it. */
  ghost function MarkerAnd(addon: string, slug: string, tail: string, z: string): string {
    HEAD + (addon + (":" + (slug + (tail + z))))
  }

  lemma MarkerAndText(addon: string, slug: string, tail: string, z: string)
    ensures HEAD + addon + ":" + slug + tail + z == MarkerAnd(addon, slug, tail, z)
  {
    hide HEAD;
  }

  lemma NameNext(r: string, i: nat, name: string, z: string)
    requires RestIs(r, i, name + z) && IsName(name) && z != [] && !IsNameChar(z[0])
    ensures NameRun(r[i..]) == |name| && RestIs(r, i + |name|, z)
  {
    NameRunOf(name, z);
    Drop(r, i, name, z);
  }

  lemma HeadFound(r: string, head: string, addon: string, rest: string)
    requires RestIs(r, 0, head + (addon + (":" + rest))) && IsName(addon)
    ensures
      var colon := |head| + |addon|;
      && StartsWith(r, head) && |head| <= |r| && NameRun(r[|head|..]) == |addon| > 0
      && colon < |r| && r[colon] == ':' && RestIs(r, colon + 1, rest)
  {
    hide NameRun, RestIs, OccursAt, IsName;
    Drop(r, 0, head, addon + (":" + rest));
    NameIs(addon);
    NameNext(r, |head|, addon, ":" + rest);
    Drop(r, |head| + |addon|, ":", rest);
    OccursBound(r, head, 0);
    OccursBound(r, ":", |head| + |addon|);
    OccursChar(r, ":", |head| + |addon|, 0);
  }

  lemma TailFound(r: string, i: nat, slug: string, tail: string, z: string)
    requires RestIs(r, i, slug + (tail + z)) && IsName(slug) && IsTail(tail)
    ensures i + |slug| <= |r| && NameRun(r[i..]) == |slug| > 0 && StartsWith(r[i + |slug|..], tail)
  {
    hide NameRun, RestIs, OccursAt, IsName, StartsWith;
    NameIs(slug);
    TailHead(tail, z);
    NameNext(r, i, slug, tail + z);
    Drop(r, i + |slug|, tail, z);
    OccursSuffix(r, tail, i + |slug|);
  }

  /** A marker in front of any text is found, at its full length. */
  lemma MarkerFound(r: string, addon: string, slug: string, tail: string, z: string)
    requires IsName(addon) && IsName(slug) && IsTail(tail) && r == MarkerAnd(addon, slug, tail, z)
    ensures MarkerLength(r, tail) == Some(|HEAD| + |addon| + 1 + |slug| + |tail|)
  {
    hide HEAD, NameRun, RestIs, IsName, IsTail, MarkerLength, StartsWith;
    RestAll(r);
    HeadFound(r, HEAD, addon, slug + (tail + z));
    TailFound(r, |HEAD| + |addon| + 1, slug, tail, z);
    MarkerByParts(r, tail, |addon|, |slug|);
  }

  lemma TailHead(tail: string, z: string)
    requires IsTail(tail)
    ensures tail + z != [] && !IsNameChar((tail + z)[0])
  {
  }

  lemma MarkerByParts(r: string, tail: string, addon: nat, slug: nat)
    requires StartsWith(r, HEAD) && |HEAD| <= |r| && NameRun(r[|HEAD|..]) == addon > 0
    requires |HEAD| + addon < |r| && r[|HEAD| + addon] == ':'
    requires NameRun(r[|HEAD| + addon + 1..]) == slug > 0
    requires |HEAD| + addon + 1 + slug <= |r| && StartsWith(r[|HEAD| + addon + 1 + slug..], tail)
    ensures MarkerLength(r, tail) == Some(|HEAD| + addon + 1 + slug + |tail|)
  {
    hide HEAD, NameRun, StartsWith;
  }

  lemma RestAll(r: string)
    ensures RestIs(r, 0, r)
  {
  }

  lemma NameIs(name: string)
    requires IsName(name)
    ensures name != []
  {
  }

  lemma OccursSuffix(r: string, p: string, i: nat)
    requires OccursAt(r, p, i)
    ensures i <= |r| && StartsWith(r[i..], p)
  {
    assert r[i..][0..|p|] == r[i..i + |p|];
  }

  lemma OccursBound(r: string, p: string, i: int)
    requires OccursAt(r, p, i)
    ensures 0 <= i && i + |p| <= |r|
  {
  }

  /** What is found as a marker is one. */
  lemma MarkerIs(r: string, tail: string)
    requires MarkerLength(r, tail).Some?
    ensures IsMarker(r[..MarkerLength(r, tail).value], tail)
  {
    hide HEAD, NameRun, StartsWith, IsName;
    var n := NameRun(r[|HEAD|..]);
    var colon := |HEAD| + n;
    var k := NameRun(r[colon + 1..]);
    NameTaken(r, |HEAD|);
    NameTaken(r, colon + 1);
    MarkerBound(r, tail);
    MarkerParts(r, HEAD, r[|HEAD|..colon], r[colon + 1..colon + 1 + k], tail);
  }

  lemma NameTaken(r: string, i: nat)
    requires i <= |r| && NameRun(r[i..]) > 0
    ensures i + NameRun(r[i..]) <= |r| && IsName(r[i..i + NameRun(r[i..])])
  {
    NameRunAll(r[i..]);
    var n := NameRun(r[i..]);
    assert forall k :: 0 <= k < n ==> r[i..i + n][k] == r[i..][k];
  }

  lemma MarkerParts(r: string, head: string, addon: string, slug: string, tail: string)
    requires
      var colon := |head| + |addon|;
      var name := colon + 1 + |slug|;
      && name + |tail| <= |r|
      && StartsWith(r, head) && r[|head|..colon] == addon && r[colon] == ':'
      && r[colon + 1..name] == slug && StartsWith(r[name..], tail)
    ensures r[..|head| + |addon| + 1 + |slug| + |tail|] == head + addon + ":" + slug + tail
  {
    var colon := |head| + |addon|;
    var name := colon + 1 + |slug|;
    assert r[name..name + |tail|] == r[name..][0..|tail|];
    assert r[..colon] == r[..|head|] + r[|head|..colon];
    assert r[..colon + 1] == r[..colon] + ":";
    assert r[..name] == r[..colon + 1] + r[colon + 1..name];
    assert r[..name + |tail|] == r[..name] + r[name..name + |tail|];
  }

  lemma OneBraceHead()
    ensures HEAD[0] == '{' && |HEAD| > 1
    ensures forall i :: 0 < i < |HEAD| ==> HEAD[i] != '{'
    ensures LF !in HEAD && LF !in START_TAIL && LF !in END_TAIL
    ensures '{' !in START_TAIL && '{' !in END_TAIL
  {
  }

  /** A marker is one line and has one opening brace, its first character. */
  lemma MarkerShape(m: string, tail: string)
    requires IsMarker(m, tail) && tail in [START_TAIL, END_TAIL]
    ensures m != [] && m[0] == '{' && LF !in m
    ensures forall i :: 0 < i < |m| ==> m[i] != '{'
  {
    hide HEAD, START_TAIL, END_TAIL;
    OneBraceHead();
    var addon, slug :| IsName(addon) && IsName(slug) && m == HEAD + addon + ":" + slug + tail;
    assert m[0] == HEAD[0];
    forall i | 0 < i < |m|
      ensures m[i] != '{' && m[i] != LF
    {
      if i < |HEAD| {
        assert m[i] == HEAD[i];
      } else if i < |HEAD + addon| {
        assert m[i] == addon[i - |HEAD|];
      } else if i > |HEAD + addon| && i < |HEAD + addon + ":" + slug| {
        assert m[i] == slug[i - |HEAD + addon + ":"|];
      } else if i >= |HEAD + addon + ":" + slug| {
        assert m[i] == tail[i - |HEAD + addon + ":" + slug|];
      }
    }
  }

  /** A marker at the head of a text is found there whatever follows it. */
  lemma MarkerFront(x: string, n: nat, tail: string)
    requires n <= |x| && IsMarker(x[..n], tail) && tail in [START_TAIL, END_TAIL]
    ensures MarkerLength(x, tail) == Some(n)
  {
    hide HEAD, START_TAIL, END_TAIL, MarkerLength, MarkerAnd;
    TailsAreTails();
    var addon, slug :| IsName(addon) && IsName(slug) && x[..n] == HEAD + addon + ":" + slug + tail;
    MarkerAndText(addon, slug, tail, x[n..]);
    assert x == x[..n] + x[n..];
    MarkerFound(x, addon, slug, tail, x[n..]);
    assert n == |HEAD| + |addon| + 1 + |slug| + |tail|;
  }

  lemma MarkerLocal(x: string, y: string, tail: string)
    requires MarkerLength(x + y, tail).Some? && MarkerLength(x + y, tail).value <= |x|
    requires tail in [START_TAIL, END_TAIL]
    ensures MarkerLength(x, tail) == MarkerLength(x + y, tail)
  {
    hide HEAD, START_TAIL, END_TAIL, MarkerLength, IsMarker;
    var n := MarkerLength(x + y, tail).value;
    MarkerIs(x + y, tail);
    assert (x + y)[..n] == x[..n];
    MarkerFront(x, n, tail);
  }

  lemma MarkerExtends(x: string, y: string, tail: string)
    requires MarkerLength(x, tail).Some? && tail in [START_TAIL, END_TAIL]
    ensures MarkerLength(x + y, tail) == MarkerLength(x, tail)
  {
    hide HEAD, START_TAIL, END_TAIL, MarkerLength, IsMarker;
    var n := MarkerLength(x, tail).value;
    MarkerBound(x, tail);
    MarkerIs(x, tail);
    assert (x + y)[..n] == x[..n];
    MarkerFront(x + y, n, tail);
  }

  lemma MarkerBound(x: string, tail: string)
    requires MarkerLength(x, tail).Some?
    ensures MarkerLength(x, tail).value <= |x|
  {
    hide HEAD;
  }

  /** In marker-free text that a line break follows there is still no marker. */
  lemma NoMarkerAhead(b: string, z: string, i: nat)
    requires MarkerFree(b) && i <= |b| && z != [] && z[0] == LF
    ensures !HasMarker(b[i..] + z)
  {
    hide HEAD, START_TAIL, END_TAIL, MarkerLength;
    var x := b[i..];
    if HasMarker(x + z) {
      var tail := if MarkerLength(x + z, START_TAIL).Some? then START_TAIL else END_TAIL;
      var n := MarkerLength(x + z, tail).value;
      MarkerBound(x + z, tail);
      assert n > |x| ==> (x + z)[..n][|x|] == z[0];
      MarkerIs(x + z, tail);
      if n <= |x| {
        MarkerLocal(x, z, tail);
      }
      MarkerShape((x + z)[..n], tail);
    }
  }

  lemma MarkerFreePart(t: string, i: nat, j: nat)
    requires MarkerFree(t) && i <= j <= |t|
    ensures MarkerFree(t[i..j])
  {
    hide MarkerLength;
    forall k | 0 <= k <= j - i
      ensures !HasMarker(t[i..j][k..])
    {
      var x := t[i..j][k..];
      assert t[i + k..] == x + t[j..];
      if HasMarker(x) {
        var tail := if MarkerLength(x, START_TAIL).Some? then START_TAIL else END_TAIL;
        MarkerExtends(x, t[j..], tail);
      }
    }
  }

  // ---- One block ----

  lemma {:induction false} BlankRunOf(blanks: string, z: string)
    requires forall i :: 0 <= i < |blanks| ==> IsBlank(blanks[i])
    requires z == [] || !IsBlank(z[0])
    ensures BlankRun(blanks + z) == |blanks|
  {
    if blanks == [] {
      assert blanks + z == z;
    } else {
      assert (blanks + z)[1..] == blanks[1..] + z;
      BlankRunOf(blanks[1..], z);
    }
  }

  lemma {:induction false} BlankRunAll(r: string)
    ensures forall i :: 0 <= i < BlankRun(r) ==> IsBlank(r[i])
  {
    if r != [] && IsBlank(r[0]) {
      BlankRunAll(r[1..]);
    }
  }

  /** The first end marker behind marker-free text that a line break follows. */
  lemma {:induction false} EndBehind(snippet: string, i: nat, z: string)
    requires MarkerFree(snippet) && i <= |snippet| && z != [] && z[0] == LF && EndLength(z).Some?
    ensures EndLength(snippet[i..] + z) == Some(|snippet| - i + EndLength(z).value)
    decreases |snippet| - i
  {
    hide MarkerLength, MarkerFree;
    var x := snippet[i..];
    NoMarkerAhead(snippet, z, i);
    if i == |snippet| {
      assert x + z == z;
    } else {
      assert (x + z)[1..] == snippet[i + 1..] + z;
      EndBehind(snippet, i + 1, z);
    }
  }

  /** White space before an end marker is part of what ends the block. */
  lemma {:induction false} EndBehindSpace(space: string, m: string, z: string)
    requires forall i :: 0 <= i < |space| ==> space[i] == LF || space[i] == ' '
    requires IsMarker(m, END_TAIL)
    ensures EndLength(space + (m + z)) == Some(|space| + |m|)
  {
    hide MarkerLength, IsMarker, END_TAIL, START_TAIL;
    if space == [] {
      assert space + (m + z) == m + z && (m + z)[..|m|] == m;
      MarkerFront(m + z, |m|, END_TAIL);
    } else {
      var r := space + (m + z);
      assert r[0] == space[0] && r[1..] == space[1..] + (m + z);
      NoMarkerAt(r);
      EndBehindSpace(space[1..], m, z);
    }
  }

  lemma NoMarkerAt(r: string)
    requires r != [] && r[0] != '{'
    ensures !HasMarker(r)
  {
    hide HEAD, START_TAIL, END_TAIL, MarkerLength;
    if HasMarker(r) {
      var tail := if MarkerLength(r, START_TAIL).Some? then START_TAIL else END_TAIL;
      MarkerBound(r, tail);
      MarkerIs(r, tail);
      MarkerShape(r[..MarkerLength(r, tail).value], tail);
    }
  }

  lemma MarkersOf(inj: Injection)
    requires IsName(inj.addon) && IsName(inj.slug)
    ensures IsMarker(StartMarker(inj.addon, inj.slug), START_TAIL) && IsMarker(EndMarker(inj.addon, inj.slug), END_TAIL)
  {
    hide HEAD, START_TAIL, END_TAIL;
  }

  /** A wrapped injection in front of any text is one block, from its first character to its last. */
  lemma BlockFound(inj: Injection, z: string)
    requires WellFormed(inj)
    ensures BlockLength(Wrap(inj) + z) == Some(|Wrap(inj)|)
  {
    hide MarkerLength, EndLength, BlankRun, HEAD, START_TAIL, END_TAIL, MarkerFree, StartMarker, EndMarker, IsMarker;
    MarkersOf(inj);
    var s, e := StartMarker(inj.addon, inj.slug), EndMarker(inj.addon, inj.slug);
    var closing := INDENT + (e + z);
    var r := Wrap(inj) + z;
    assert r == "\n" + ("        " + (s + (inj.snippet + closing)));
    BlockByParts(r, s, inj.snippet + closing);
    EndBehindSpace(INDENT, e, z);
    EndBehind(inj.snippet, 0, closing);
    assert inj.snippet[0..] == inj.snippet;
  }

  lemma BlockByParts(r: string, s: string, rest: string)
    requires r == "\n" + ("        " + (s + rest)) && IsMarker(s, START_TAIL)
    ensures BlockLength(r) == match EndLength(rest) case None => None case Some(n) => Some(9 + |s| + n)
  {
    hide MarkerLength, EndLength, BlankRun, HEAD, START_TAIL, END_TAIL, IsMarker;
    MarkerShape(s, START_TAIL);
    assert r[0..1] == "\n";
    assert r[1..] == "        " + (s + rest);
    assert (s + rest)[0] == s[0];
    BlankRunOf("        ", s + rest);
    assert r[9..] == s + rest;
    assert (s + rest)[..|s|] == s;
    MarkerFront(s + rest, |s|, START_TAIL);
    assert r[9 + |s|..] == rest;
  }

  /** No block begins in marker-free text that a line break follows. */
  lemma NoBlockAhead(b: string, z: string, i: nat)
    requires MarkerFree(b) && i < |b| && z != [] && z[0] == LF
    ensures BlockLength(b[i..] + z).None?
  {
    hide MarkerLength, HEAD, START_TAIL, END_TAIL, MarkerFree, EndLength;
    var r := b[i..] + z;
    var line := if StartsWith(r, "\n") then 1 else 0;
    var at := line + BlankRun(r[line..]);
    BlankRunAll(r[line..]);
    assert r[|b| - i] == z[0] && r[line..][|b| - i - line] == z[0];
    assert i + at <= |b|;
    NoMarkerAhead(b, z, i + at);
    assert r[at..] == b[i + at..] + z;
  }

  lemma NoBlockAtEnd(b: string, i: nat)
    requires MarkerFree(b) && i < |b|
    ensures BlockLength(b[i..]).None?
  {
    hide MarkerLength, HEAD, START_TAIL, END_TAIL, EndLength;
    var r := b[i..];
    var line := if StartsWith(r, "\n") then 1 else 0;
    var at := line + BlankRun(r[line..]);
    assert r[at..] == b[i + at..];
  }

  // ---- Stripping a patched text ----

  lemma StrippedStep(c: char, rest: string, r: string)
    requires r == [c] + rest && BlockLength(r).None?
    ensures Stripped(r) == [c] + Stripped(rest)
  {
    hide BlockLength;
    assert r[1..] == rest;
  }

  lemma {:induction false} StrippedAhead(b: string, i: nat, z: string)
    requires MarkerFree(b) && i <= |b| && z != [] && z[0] == LF
    ensures Stripped(b[i..] + z) == b[i..] + Stripped(z)
    decreases |b| - i
  {
    hide BlockLength, MarkerFree, Stripped;
    if i == |b| {
      assert b[i..] + z == z;
    } else {
      NoBlockAhead(b, z, i);
      assert b[i..] == [b[i]] + b[i + 1..];
      assert b[i..] + z == [b[i]] + (b[i + 1..] + z);
      StrippedStep(b[i], b[i + 1..] + z, b[i..] + z);
      StrippedAhead(b, i + 1, z);
    }
  }

  lemma {:induction false} StrippedFree(b: string, i: nat)
    requires MarkerFree(b) && i <= |b|
    ensures Stripped(b[i..]) == b[i..]
    decreases |b| - i
  {
    hide BlockLength, MarkerFree, Stripped;
    if i == |b| {
      StrippedNothing();
      assert b[i..] == "";
    } else {
      NoBlockAtEnd(b, i);
      assert b[i..] == [b[i]] + b[i + 1..];
      StrippedStep(b[i], b[i + 1..], b[i..]);
      StrippedFree(b, i + 1);
    }
  }

  lemma StrippedNothing()
    ensures Stripped("") == ""
  {
  }

  /** Every block of the document is well formed and the pristine text is free of markers. */
  ghost predicate Clean(d: Doc) {
    match d
    case End(rest) => MarkerFree(rest)
    case Block(before, inj, after) => MarkerFree(before) && WellFormed(inj) && Clean(after)
  }

  lemma WrapHead(inj: Injection)
    ensures |Wrap(inj)| > 9 && Wrap(inj)[0] == LF
  {
    hide START_TAIL, END_TAIL;
  }

  /** Stripping takes out the blocks and leaves the pristine text. */
  lemma {:induction false} StrippedFull(d: Doc)
    requires Clean(d)
    ensures Stripped(Full(d)) == Bare(d)
  {
    hide BlockLength, MarkerFree, Wrap, WellFormed;
    match d
    case End(rest) =>
      assert rest[0..] == rest;
      StrippedFree(rest, 0);
    case Block(before, inj, after) =>
      StrippedFull(after);
      WrapHead(inj);
      assert before[0..] == before;
      assert Full(d) == before + (Wrap(inj) + Full(after));
      StrippedAhead(before, 0, Wrap(inj) + Full(after));
      BlockFound(inj, Full(after));
      assert (Wrap(inj) + Full(after))[|Wrap(inj)|..] == Full(after);
  }

  // ---- Where an anchor can be ----

  /** Put at offset `d` of `w`, the anchor and `w` agree wherever they meet. */
  predicate OverlapAt(anchor: string, w: string, d: int) {
    -|anchor| < d < |w| && forall k :: 0 <= k < |anchor| && 0 <= d + k < |w| ==> anchor[k] == w[d + k]
  }

  /** The anchor cannot be found in, across or around `w`. */
  predicate Isolated(anchor: string, w: string) {
    anchor != "" && forall d :: -|anchor| < d < |w| ==> !OverlapAt(anchor, w, d)
  }

  function AnchorOf(inj: Injection): Option<string> {
    if IsBefore(inj) then inj.anchorBefore
    else if inj.anchorAfter.None? || inj.anchorAfter.value == "" then None
    else inj.anchorAfter
  }

  lemma OverlapFound(b: string, w: string, z: string, anchor: string, q: int)
    requires OccursAt(b + w + z, anchor, q) && -|anchor| < q - |b| < |w|
    ensures OverlapAt(anchor, w, q - |b|)
  {
    var d := q - |b|;
    forall k | 0 <= k < |anchor| && 0 <= d + k < |w|
      ensures anchor[k] == w[d + k]
    {
      OccursChar(b + w + z, anchor, q, k);
    }
  }

  lemma OccursClear(b: string, w: string, z: string, anchor: string, q: int)
    requires OccursAt(b + w + z, anchor, q) && Isolated(anchor, w)
    ensures q + |anchor| <= |b| || q >= |b| + |w|
  {
    hide OverlapAt, OccursAt;
    if -|anchor| < q - |b| < |w| {
      OverlapFound(b, w, z, anchor, q);
    }
  }

  /** An offset that is not inside a block. */
  ghost predicate Boundary(d: Doc, at: int) {
    match d
    case End(rest) => 0 <= at <= |rest|
    case Block(before, inj, after) =>
      0 <= at <= |before| || (at >= |before| + |Wrap(inj)| && Boundary(after, at - |before| - |Wrap(inj)|))
  }

  ghost function InsertDoc(d: Doc, at: nat, inj: Injection): Doc
    requires Boundary(d, at)
  {
    match d
    case End(rest) => Block(rest[..at], inj, End(rest[at..]))
    case Block(before, other, after) =>
      if at <= |before| then Block(before[..at], inj, Block(before[at..], other, after))
      else Block(before, other, InsertDoc(after, at - |before| - |Wrap(other)|, inj))
  }

  lemma MarkerFreeCut(t: string, at: nat)
    requires MarkerFree(t) && at <= |t|
    ensures MarkerFree(t[..at]) && MarkerFree(t[at..])
  {
    hide MarkerFree;
    MarkerFreePart(t, 0, at);
    MarkerFreePart(t, at, |t|);
    assert t[0..at] == t[..at] && t[at..|t|] == t[at..];
  }

  lemma {:induction false} InsertDocClean(d: Doc, at: nat, inj: Injection)
    requires Boundary(d, at) && Clean(d) && WellFormed(inj)
    ensures Clean(InsertDoc(d, at, inj))
  {
    hide Wrap, WellFormed, MarkerFree;
    match d
    case End(rest) =>
      MarkerFreeCut(rest, at);
    case Block(before, other, after) =>
      if at <= |before| {
        MarkerFreeCut(before, at);
      } else {
        InsertDocClean(after, at - |before| - |Wrap(other)|, inj);
      }
  }

  lemma InsertDocStep(d: Doc, at: nat, inj: Injection)
    requires Boundary(d, at)
    ensures
      match d
      case End(rest) => InsertDoc(d, at, inj) == Block(rest[..at], inj, End(rest[at..]))
      case Block(before, other, after) =>
        if at <= |before| then InsertDoc(d, at, inj) == Block(before[..at], inj, Block(before[at..], other, after))
        else
          var k := at - |before| - |Wrap(other)|;
          k >= 0 && Boundary(after, k) && InsertDoc(d, at, inj) == Block(before, other, InsertDoc(after, k, inj))
  {
    hide Wrap;
  }

  lemma {:induction false} InsertDocBlocks(d: Doc, at: nat, inj: Injection)
    requires Boundary(d, at)
    ensures Blocks(InsertDoc(d, at, inj)) == Blocks(d) + multiset{inj}
  {
    hide Wrap, Blocks, InsertDoc;
    InsertDocStep(d, at, inj);
    match d
    case End(rest) =>
      BlocksOf(rest[..at], inj, End(rest[at..]));
      NoBlocks(rest);
      NoBlocks(rest[at..]);
    case Block(before, other, after) =>
      BlocksOf(before, other, after);
      if at > |before| {
        var k := at - |before| - |Wrap(other)|;
        InsertDocBlocks(after, k, inj);
        BlocksOf(before, other, InsertDoc(after, k, inj));
        AddedLater(other, Blocks(after), inj);
      } else {
        BlocksOf(before[..at], inj, Block(before[at..], other, after));
        BlocksOf(before[at..], other, after);
      }
  }

  lemma NoBlocks(rest: string)
    ensures Blocks(End(rest)) == multiset{}
  {
  }

  lemma BlocksOf(before: string, inj: Injection, after: Doc)
    ensures Blocks(Block(before, inj, after)) == multiset{inj} + Blocks(after)
  {
  }

  lemma AddedLater(a: Injection, blocks: multiset<Injection>, b: Injection)
    ensures multiset{a} + (blocks + multiset{b}) == multiset{a} + blocks + multiset{b}
  {
  }

  lemma {:induction false} InsertDocBare(d: Doc, at: nat, inj: Injection)
    requires Boundary(d, at)
    ensures Bare(InsertDoc(d, at, inj)) == Bare(d)
  {
    hide Wrap;
    match d
    case End(rest) =>
    case Block(before, other, after) =>
      if at <= |before| {
        Assoc(before[..at], before[at..], Bare(after));
        assert before[..at] + before[at..] == before;
      } else {
        InsertDocBare(after, at - |before| - |Wrap(other)|, inj);
      }
  }

  lemma {:induction false} InsertDocFull(d: Doc, at: nat, inj: Injection)
    requires Boundary(d, at)
    ensures at <= |Full(d)|
    ensures Full(InsertDoc(d, at, inj)) == Full(d)[..at] + Wrap(inj) + Full(d)[at..]
  {
    hide Wrap;
    match d
    case End(rest) =>
    case Block(before, other, after) =>
      if at <= |before| {
        InsertAhead(before, Wrap(other) + Full(after), at);
        Assoc(before, Wrap(other), Full(after));
        Assoc(before[at..], Wrap(other), Full(after));
      } else {
        var front := before + Wrap(other);
        var k := at - |front|;
        InsertDocFull(after, k, inj);
        InsertBehind(front, Full(after), k, Wrap(inj));
      }
  }

  lemma InsertDocMeans(d: Doc, at: nat, inj: Injection)
    requires Boundary(d, at)
    ensures at <= |Full(d)|
    ensures Full(InsertDoc(d, at, inj)) == Full(d)[..at] + Wrap(inj) + Full(d)[at..]
    ensures Bare(InsertDoc(d, at, inj)) == Bare(d)
    ensures Blocks(InsertDoc(d, at, inj)) == Blocks(d) + multiset{inj}
  {
    hide Wrap, InsertDoc, Full, Bare, Blocks;
    InsertDocFull(d, at, inj);
    InsertDocBare(d, at, inj);
    InsertDocBlocks(d, at, inj);
  }

  lemma Assoc(a: string, b: string, c: string)
    ensures a + b + c == a + (b + c)
  {
  }

  lemma InsertAhead(before: string, rest: string, at: nat)
    requires at <= |before|
    ensures (before + rest)[..at] == before[..at] && (before + rest)[at..] == before[at..] + rest
  {
  }

  lemma InsertBehind(front: string, rest: string, k: nat, w: string)
    requires k <= |rest|
    ensures (front + rest)[..|front| + k] + w + (front + rest)[|front| + k..] == front + (rest[..k] + w + rest[k..])
  {
    assert (front + rest)[..|front| + k] == front + rest[..k];
    assert (front + rest)[|front| + k..] == rest[k..];
  }

  /** The anchor is isolated from every block of the document. */
  ghost predicate IsolatedFrom(anchor: string, blocks: multiset<Injection>) {
    anchor != "" && forall inj :: inj in blocks ==> Isolated(anchor, Wrap(inj))
  }

  /** An isolated anchor is found in pristine text only, so a block can be put at either end of it. */
  lemma OccursFront(a: string, b: string, p: string, q: int)
    requires OccursAt(a, p, q)
    ensures OccursAt(a + b, p, q)
  {
    assert (a + b)[q..q + |p|] == a[q..q + |p|];
  }

  lemma OccursFrontBack(a: string, b: string, p: string, q: int)
    requires OccursAt(a + b, p, q) && q + |p| <= |a|
    ensures OccursAt(a, p, q)
  {
    assert (a + b)[q..q + |p|] == a[q..q + |p|];
  }

  lemma OccursBack(a: string, b: string, p: string, q: int)
    requires q >= |a|
    ensures OccursAt(a + b, p, q) <==> OccursAt(b, p, q - |a|)
  {
    if q + |p| <= |a + b| {
      assert (a + b)[q..q + |p|] == b[q - |a|..q - |a| + |p|];
    }
  }

  lemma {:induction false} AnchorInPristine(d: Doc, anchor: string, q: nat)
    requires OccursAt(Full(d), anchor, q) && IsolatedFrom(anchor, Blocks(d))
    ensures Boundary(d, q) && Boundary(d, q + |anchor|) && Occurs(Bare(d), anchor)
  {
    hide Wrap, Isolated, OccursAt;
    match d
    case End(rest) =>
      OccursBound(rest, anchor, q);
    case Block(before, inj, after) =>
      assert inj in Blocks(d);
      OccursClear(before, Wrap(inj), Full(after), anchor, q);
      var front := before + Wrap(inj);
      if q + |anchor| <= |before| {
        assert Full(d) == before + (Wrap(inj) + Full(after));
        OccursFrontBack(before, Wrap(inj) + Full(after), anchor, q);
        OccursFront(before, Bare(after), anchor, q);
      } else {
        OccursBack(front, Full(after), anchor, q);
        AnchorInPristine(after, anchor, q - |front|);
        var i :| OccursAt(Bare(after), anchor, i);
        OccursBound(Bare(after), anchor, i);
        OccursBack(before, Bare(after), anchor, |before| + i);
      }
  }

  // ---- Finding a block ----

  /** Two markers of one kind at the same place are the same. */
  lemma SameMarker(x: string, m: string, n: string, tail: string)
    requires IsMarker(m, tail) && IsMarker(n, tail) && tail in [START_TAIL, END_TAIL]
    requires StartsWith(x, m) && StartsWith(x, n)
    ensures m == n
  {
    hide HEAD, START_TAIL, END_TAIL, IsMarker, MarkerLength;
    assert x[..|m|] == x[0..|m|] && x[..|n|] == x[0..|n|];
    MarkerFront(x, |m|, tail);
    MarkerFront(x, |n|, tail);
  }

  lemma TailsDiffer(x: string)
    ensures !(StartsWith(x, START_TAIL) && StartsWith(x, END_TAIL))
  {
    if StartsWith(x, START_TAIL) && StartsWith(x, END_TAIL) {
      OccursChar(x, START_TAIL, 0, 1);
      OccursChar(x, END_TAIL, 0, 1);
    }
  }

  /** No place holds a start marker and an end marker. */
  lemma OneKind(x: string)
    ensures !(MarkerLength(x, START_TAIL).Some? && MarkerLength(x, END_TAIL).Some?)
  {
    hide HEAD, START_TAIL, END_TAIL, StartsWith;
    if MarkerLength(x, START_TAIL).Some? {
      var n := NameRun(x[|HEAD|..]);
      var k := NameRun(x[|HEAD| + n + 1..]);
      TailsDiffer(x[|HEAD| + n + 1 + k..]);
    }
  }

  lemma NameEnds(a: string, b: string, x: string, y: string)
    requires IsName(a) && IsName(b) && a + x == b + y
    requires x != [] && y != [] && !IsNameChar(x[0]) && !IsNameChar(y[0])
    ensures a == b && x == y
  {
    NameRunOf(a, x);
    NameRunOf(b, y);
    assert (a + x)[..|a|] == a && (b + y)[..|b|] == b;
    assert (a + x)[|a|..] == x && (b + y)[|b|..] == y;
  }

  lemma StartMarkerInjective(addon: string, slug: string, addon': string, slug': string)
    requires IsName(addon) && IsName(slug) && IsName(addon') && IsName(slug')
    requires StartMarker(addon, slug) == StartMarker(addon', slug')
    ensures addon == addon' && slug == slug'
  {
    hide HEAD, START_TAIL;
    TailsAreTails();
    var x, y := ":" + (slug + START_TAIL), ":" + (slug' + START_TAIL);
    assert StartMarker(addon, slug) == HEAD + (addon + x) && StartMarker(addon', slug') == HEAD + (addon' + y);
    assert (HEAD + (addon + x))[|HEAD|..] == addon + x && (HEAD + (addon' + y))[|HEAD|..] == addon' + y;
    NameEnds(addon, addon', x, y);
    assert x[1..] == slug + START_TAIL && y[1..] == slug' + START_TAIL;
    NameEnds(slug, slug', START_TAIL, START_TAIL);
  }

  /** In a wrapped injection the only start marker is its own, and the only end marker. */
  lemma WrapMarkers(inj: Injection, z: string, q: nat)
    requires WellFormed(inj) && q < |Wrap(inj)|
    ensures MarkerLength((Wrap(inj) + z)[q..], START_TAIL).Some? ==> q == 9
    ensures MarkerLength((Wrap(inj) + z)[q..], END_TAIL).Some? ==> q == |Wrap(inj)| - |EndMarker(inj.addon, inj.slug)|
  {
    hide HEAD, START_TAIL, END_TAIL, MarkerLength, MarkerFree, StartMarker, EndMarker, IsMarker;
    MarkersOf(inj);
    var s, e := StartMarker(inj.addon, inj.slug), EndMarker(inj.addon, inj.slug);
    MarkerShape(s, START_TAIL);
    MarkerShape(e, END_TAIL);
    var r := Wrap(inj) + z;
    var body := 9 + |s|;
    var end := body + |inj.snippet| + 9;
    assert |Wrap(inj)| == end + |e|;
    if q == 9 {
      MarkerHere(r, 9, s, START_TAIL);
    } else if q == end {
      MarkerHere(r, end, e, END_TAIL);
    } else if body <= q <= body + |inj.snippet| {
      var i := q - body;
      assert r[q..] == inj.snippet[i..] + (INDENT + (e + z));
      NoMarkerAhead(inj.snippet, INDENT + (e + z), i);
    } else {
      assert r[q..][0] == r[q] != '{';
      NoMarkerAt(r[q..]);
    }
  }

  lemma MarkerHere(r: string, i: nat, m: string, tail: string)
    requires OccursAt(r, m, i) && IsMarker(m, tail) && tail in [START_TAIL, END_TAIL]
    ensures MarkerLength(r[i..], tail).Some?
    ensures tail == START_TAIL ==> MarkerLength(r[i..], END_TAIL).None?
    ensures tail == END_TAIL ==> MarkerLength(r[i..], START_TAIL).None?
  {
    hide HEAD, START_TAIL, END_TAIL, MarkerLength, IsMarker;
    assert r[i..][..|m|] == r[i..i + |m|];
    MarkerFront(r[i..], |m|, tail);
    OneKind(r[i..]);
  }

  lemma IndexOfIs(s: string, p: string, i: nat)
    requires OccursAt(s, p, i) && forall j :: 0 <= j < i ==> !OccursAt(s, p, j)
    ensures IndexOf(s, p) == Some(i)
  {
  }

  lemma IndexOfBehind(x: string, z: string, p: string)
    requires forall q :: 0 <= q < |x| ==> !OccursAt(x + z, p, q)
    ensures IndexOf(x + z, p) == match IndexOf(z, p) case None => None case Some(i) => Some(|x| + i)
  {
    hide OccursAt;
    match IndexOf(z, p)
    case None =>
      forall q | q >= |x|
        ensures !OccursAt(x + z, p, q)
      {
        OccursBack(x, z, p, q);
      }
      forall q | q < 0
        ensures !OccursAt(x + z, p, q)
      {
        if OccursAt(x + z, p, q) {
          OccursBound(x + z, p, q);
        }
      }
    case Some(i) =>
      OccursBack(x, z, p, |x| + i);
      forall q | |x| <= q < |x| + i
        ensures !OccursAt(x + z, p, q)
      {
        OccursBack(x, z, p, q);
      }
      IndexOfIs(x + z, p, |x| + i);
  }

  lemma IndexFromBehind(x: string, z: string, p: string, from: nat)
    ensures IndexFrom(x + z, p, |x| + from) == match IndexFrom(z, p, from) case None => None case Some(i) => Some(|x| + i)
    decreases |z| - from
  {
    hide OccursAt;
    if from + |p| <= |z| {
      OccursBack(x, z, p, |x| + from);
      if !OccursAt(z, p, from) {
        IndexFromBehind(x, z, p, from + 1);
      }
    }
  }

  /** Text in which the start marker does not begin does not matter. */
  lemma BlockOfBehind(x: string, z: string, addon: string, slug: string)
    requires forall q :: 0 <= q < |x| ==> !OccursAt(x + z, StartMarker(addon, slug), q)
    ensures BlockOf(x + z, addon, slug) == BlockOf(z, addon, slug)
  {
    hide StartMarker, EndMarker, OccursAt;
    var s, e := StartMarker(addon, slug), EndMarker(addon, slug);
    IndexOfBehind(x, z, s);
    if IndexOf(z, s).Some? {
      var from := IndexOf(z, s).value;
      IndexFromBehind(x, z, e, from);
      if IndexFrom(z, e, from).Some? {
        var to := IndexFrom(z, e, from).value;
        OccursBound(z, e, to);
        assert (x + z)[|x| + from..|x| + to + |e|] == z[from..to + |e|];
      }
    }
  }

  /** The block of an injection, from its start marker on. */
  ghost function Marked(inj: Injection): string {
    Wrap(inj)[9..]
  }

  lemma NoStartIn(b: string, inj: Injection, z: string, addon: string, slug: string, q: nat)
    requires MarkerFree(b) && WellFormed(inj) && IsName(addon) && IsName(slug) && q < |b| + |Wrap(inj)|
    requires OccursAt(b + (Wrap(inj) + z), StartMarker(addon, slug), q)
    ensures q == |b| + 9 && addon == inj.addon && slug == inj.slug
  {
    hide MarkerLength, MarkerFree, IsMarker, HEAD, START_TAIL, END_TAIL, StartMarker, EndMarker, IsName;
    var s := b + (Wrap(inj) + z);
    var mine := inj.(addon := addon, slug := slug);
    MarkersOf(mine);
    MarkerHere(s, q, StartMarker(addon, slug), START_TAIL);
    WrapHead(inj);
    if q <= |b| {
      assert s[q..] == b[q..] + (Wrap(inj) + z);
      NoMarkerAhead(b, Wrap(inj) + z, q);
    } else {
      var k := q - |b|;
      assert s[q..] == (Wrap(inj) + z)[k..];
      WrapMarkers(inj, z, k);
      StartInWrap(inj, z);
      MarkersOf(inj);
      OccursBack(b, Wrap(inj) + z, StartMarker(addon, slug), q);
      OccursSuffix(Wrap(inj) + z, StartMarker(addon, slug), 9);
      OccursSuffix(Wrap(inj) + z, StartMarker(inj.addon, inj.slug), 9);
      SameMarker((Wrap(inj) + z)[9..], StartMarker(addon, slug), StartMarker(inj.addon, inj.slug), START_TAIL);
      StartMarkerInjective(addon, slug, inj.addon, inj.slug);
    }
  }

  lemma StartInWrap(inj: Injection, z: string)
    ensures OccursAt(Wrap(inj) + z, StartMarker(inj.addon, inj.slug), 9)
    ensures OccursAt(Wrap(inj) + z, EndMarker(inj.addon, inj.slug), |Wrap(inj)| - |EndMarker(inj.addon, inj.slug)|)
  {
    hide StartMarker, EndMarker;
    var s, e := StartMarker(inj.addon, inj.slug), EndMarker(inj.addon, inj.slug);
    var r := Wrap(inj) + z;
    assert r[9..9 + |s|] == s;
    assert r[|Wrap(inj)| - |e|..|Wrap(inj)|] == e;
  }

  lemma IndexFromIs(s: string, p: string, from: nat, i: nat)
    requires from <= i && OccursAt(s, p, i) && forall j :: from <= j < i ==> !OccursAt(s, p, j)
    ensures IndexFrom(s, p, from) == Some(i)
  {
  }

  /** The block of an injection is found where it is first. */
  lemma BlockOfHere(inj: Injection, z: string)
    requires WellFormed(inj)
    ensures BlockOf(Wrap(inj) + z, inj.addon, inj.slug) == Some(Marked(inj))
  {
    hide MarkerLength, MarkerFree, IsMarker, HEAD, START_TAIL, END_TAIL, StartMarker, EndMarker, Wrap, IsName, OccursAt;
    var s, e := StartMarker(inj.addon, inj.slug), EndMarker(inj.addon, inj.slug);
    var r := Wrap(inj) + z;
    StartInWrap(inj, z);
    MarkersOf(inj);
    var end := |Wrap(inj)| - |e|;
    WrapLength(inj);
    forall q | 0 <= q < 9
      ensures !OccursAt(r, s, q)
    {
      if OccursAt(r, s, q) {
        MarkerHere(r, q, s, START_TAIL);
        WrapMarkers(inj, z, q);
      }
    }
    forall q | 9 <= q < end
      ensures !OccursAt(r, e, q)
    {
      if OccursAt(r, e, q) {
        MarkerHere(r, q, e, END_TAIL);
        WrapMarkers(inj, z, q);
      }
    }
    IndexOfIs(r, s, 9);
    IndexFromIs(r, e, 9, end);
    assert r[9..|Wrap(inj)|] == Wrap(inj)[9..];
  }

  lemma WrapLength(inj: Injection)
    ensures |Wrap(inj)| >= 18 + |EndMarker(inj.addon, inj.slug)|
  {
    hide StartMarker, EndMarker;
  }

  ghost predicate SameId(a: Injection, b: Injection) {
    a.addon == b.addon && a.slug == b.slug
  }

  /** Different blocks are of different injections. */
  ghost predicate DistinctIds(d: Doc) {
    match d
    case End(rest) => true
    case Block(before, inj, after) => DistinctIds(after) && Alone(inj, Blocks(after))
  }

  /** No block is of the same injection. */
  ghost predicate Alone(inj: Injection, blocks: multiset<Injection>) {
    forall other :: other in blocks ==> !SameId(inj, other) && !SameId(other, inj)
  }

  lemma AloneAdded(inj: Injection, blocks: multiset<Injection>, added: Injection)
    requires Alone(inj, blocks) && !SameId(inj, added) && !SameId(added, inj)
    ensures Alone(inj, blocks + multiset{added})
  {
    hide SameId;
  }

  /** A block is found exactly when the document holds it, and is found whole. */
  lemma {:induction false} BlockOfDoc(d: Doc, inj: Injection)
    requires Clean(d) && WellFormed(inj) && DistinctIds(d)
    ensures inj in Blocks(d) ==> BlockOf(Full(d), inj.addon, inj.slug) == Some(Marked(inj))
    ensures Alone(inj, Blocks(d)) ==> BlockOf(Full(d), inj.addon, inj.slug) == None
  {
    hide MarkerFree, StartMarker, Wrap, WellFormed, BlockOf, OccursAt;
    match d
    case End(rest) =>
      NoBlockInFree(rest, inj);
    case Block(before, here, after) =>
      var w := Wrap(here);
      var s := before + (w + Full(after));
      Assoc(before, w, Full(after));
      forall q | 0 <= q < |before| + |w| && OccursAt(s, StartMarker(inj.addon, inj.slug), q)
        ensures SameId(inj, here) && q >= |before|
      {
        WellFormedNames(inj);
        NoStartIn(before, here, Full(after), inj.addon, inj.slug, q);
      }
      if SameId(inj, here) {
        assert inj in Blocks(after) ==> !SameId(here, inj);
        assert inj in Blocks(d) ==> inj == here;
        BlockOfBehind(before, w + Full(after), inj.addon, inj.slug);
        BlockOfHere(here, Full(after));
      } else {
        Assoc(before, w, Full(after));
        BlockOfBehind(before + w, Full(after), inj.addon, inj.slug);
        BlockOfDoc(after, inj);
      }
  }

  lemma WellFormedNames(inj: Injection)
    requires WellFormed(inj)
    ensures IsName(inj.addon) && IsName(inj.slug)
  {
  }

  lemma NoBlockInFree(rest: string, inj: Injection)
    requires MarkerFree(rest) && WellFormed(inj)
    ensures BlockOf(rest, inj.addon, inj.slug) == None
  {
    hide MarkerLength, HEAD, START_TAIL, END_TAIL, StartMarker, EndMarker, IsMarker;
    if IndexOf(rest, StartMarker(inj.addon, inj.slug)).Some? {
      var i := IndexOf(rest, StartMarker(inj.addon, inj.slug)).value;
      MarkersOf(inj);
      MarkerHere(rest, i, StartMarker(inj.addon, inj.slug), START_TAIL);
    }
  }

  // ---- Rendering a list ----

  /** What a set of injections must be for one template: well formed, told apart, and with anchors found in pristine
    * text only. */
  ghost predicate Suitable(list: seq<Injection>) {
    && (forall i :: 0 <= i < |list| ==> WellFormed(list[i]))
    && (forall i, j :: 0 <= i < j < |list| ==> !SameId(list[i], list[j]))
    && (forall i, j :: 0 <= i < |list| && 0 <= j < |list| && AnchorOf(list[i]).Some? ==>
          Isolated(AnchorOf(list[i]).value, Wrap(list[j])))
    && (forall i :: 0 <= i < |list| && list[i].anchorBefore.Some? ==> list[i].anchorBefore.value != "")
  }

  /** The injections of the list that find their anchor when it is their turn. */
  ghost function PlacedOnes(rendered: string, list: seq<Injection>): multiset<Injection>
    decreases |list|
  {
    if list == [] then multiset{}
    else
      (if Position(rendered, list[0]).Some? then multiset{list[0]} else multiset{})
      + PlacedOnes(Placed(rendered, list[0]), list[1..])
  }

  /** Blocks and injections to come are of different injections, and no anchor to come is found in a block. */
  ghost predicate Apart(blocks: multiset<Injection>, list: seq<Injection>) {
    && (forall inj, i :: inj in blocks && 0 <= i < |list| ==> !SameId(inj, list[i]) && !SameId(list[i], inj))
    && (forall inj, i :: inj in blocks && 0 <= i < |list| && AnchorOf(list[i]).Some? ==>
          Isolated(AnchorOf(list[i]).value, Wrap(inj)))
  }

  /** Every block has an anchor in the pristine text. */
  ghost predicate Anchored(blocks: multiset<Injection>, pristine: string) {
    forall inj :: inj in blocks ==> AnchorOf(inj).Some? && Occurs(pristine, AnchorOf(inj).value)
  }

  /** The document so far and the injections still to come fit together. */
  ghost predicate Compatible(d: Doc, list: seq<Injection>) {
    Clean(d) && DistinctIds(d) && Suitable(list) && Apart(Blocks(d), list) && Anchored(Blocks(d), Bare(d))
  }

  lemma PositionMeans(d: Doc, list: seq<Injection>)
    requires Compatible(d, list) && list != [] && Position(Full(d), list[0]).Some?
    ensures AnchorOf(list[0]).Some? && Occurs(Bare(d), AnchorOf(list[0]).value)
    ensures Boundary(d, Position(Full(d), list[0]).value)
  {
    hide Isolated, Wrap, OccursAt, WellFormed, Clean, DistinctIds;
    var anchor := AnchorOf(list[0]).value;
    var q := IndexOf(Full(d), anchor).value;
    assert anchor != "";
    AnchorInPristine(d, anchor, q);
  }

  lemma {:induction false} InsertDocDistinct(d: Doc, at: nat, inj: Injection)
    requires Boundary(d, at) && DistinctIds(d)
    requires Alone(inj, Blocks(d))
    ensures DistinctIds(InsertDoc(d, at, inj))
  {
    match d
    case End(rest) =>
    case Block(before, other, after) =>
      hide Wrap, SameId, Alone;
      AloneSplit(inj, other, Blocks(after));
      if at > |before| {
        var k := at - |before| - |Wrap(other)|;
        InsertDocDistinct(after, k, inj);
        InsertDocBlocks(after, k, inj);
        AloneAdded(other, Blocks(after), inj);
      }
  }

  lemma AloneSplit(inj: Injection, other: Injection, blocks: multiset<Injection>)
    requires Alone(inj, multiset{other} + blocks)
    ensures Alone(inj, blocks) && !SameId(inj, other) && !SameId(other, inj)
  {
    hide SameId;
    assert other in multiset{other} + blocks;
  }

  lemma ApartRest(blocks: multiset<Injection>, list: seq<Injection>)
    requires list != [] && Suitable(list) && Apart(blocks, list)
    ensures Suitable(list[1..]) && Apart(blocks, list[1..]) && Apart(blocks + multiset{list[0]}, list[1..])
    ensures Alone(list[0], blocks)
  {
    hide Isolated, Wrap, WellFormed, AnchorOf;
    assert forall i :: 0 <= i < |list[1..]| ==> list[1..][i] == list[i + 1];
  }

  lemma PlaceFirst(d: Doc, list: seq<Injection>) returns (d': Doc)
    requires Compatible(d, list) && list != []
    ensures Full(d') == Placed(Full(d), list[0]) && Bare(d') == Bare(d) && Compatible(d', list[1..])
    ensures Blocks(d') == Blocks(d) + (if Position(Full(d), list[0]).Some? then multiset{list[0]} else multiset{})
    ensures Position(Full(d), list[0]).None? ==> d' == d
    ensures Position(Full(d), list[0]).Some? ==>
      Boundary(d, Position(Full(d), list[0]).value) && d' == InsertDoc(d, Position(Full(d), list[0]).value, list[0])
  {
    hide Isolated, Wrap, Occurs, WellFormed, Clean, DistinctIds, SameId, Alone, Position, InsertDoc, AnchorOf, Apart, Suitable, Anchored, Full, Bare, Blocks;
    var inj := list[0];
    d' := d;
    ApartRest(Blocks(d), list);
    SuitableAt(list, 0);
    if Position(Full(d), inj).Some? {
      var at := Position(Full(d), inj).value;
      PositionMeans(d, list);
      InsertDocMeans(d, at, inj);
      InsertDocClean(d, at, inj);
      InsertDocDistinct(d, at, inj);
      AnchoredAdded(Blocks(d), inj, Bare(d));
      d' := InsertDoc(d, at, inj);
    }
  }

  lemma AnchoredAdded(blocks: multiset<Injection>, inj: Injection, pristine: string)
    requires Anchored(blocks, pristine) && AnchorOf(inj).Some? && Occurs(pristine, AnchorOf(inj).value)
    ensures Anchored(blocks + multiset{inj}, pristine)
  {
    hide AnchorOf, Occurs;
  }

  lemma {:induction false} PlaceAll(d: Doc, list: seq<Injection>) returns (d': Doc)
    requires Compatible(d, list)
    ensures Full(d') == PlacedAll(Full(d), list) && Bare(d') == Bare(d) && Compatible(d', [])
    ensures Blocks(d') == Blocks(d) + PlacedOnes(Full(d), list)
    decreases |list|
  {
    hide Compatible, Placed, Position, Blocks, Full, Bare;
    d' := d;
    if list != [] {
      var next := PlaceFirst(d, list);
      d' := PlaceAll(next, list[1..]);
    }
  }

  // ---- What rendering a pristine text gives ----

  /** An injection is found whole exactly when it was placed, and it was placed only where pristine text has its anchor. */
  ghost predicate FoundWhenPlaced(pristine: string, sorted: seq<Injection>, inj: Injection) {
    var whole := BlockOf(Wrap(inj), inj.addon, inj.slug);
    && whole.Some?
    && BlockOf(PlacedAll(pristine, sorted), inj.addon, inj.slug) == (if inj in PlacedOnes(pristine, sorted) then whole else None)
    && (inj in PlacedOnes(pristine, sorted) ==> AnchorOf(inj).Some? && Contains(pristine, AnchorOf(inj).value))
  }

  lemma DocPlaced(pristine: string, sorted: seq<Injection>) returns (d: Doc)
    requires MarkerFree(pristine) && Suitable(sorted)
    ensures Clean(d) && DistinctIds(d) && Anchored(Blocks(d), pristine)
    ensures Full(d) == PlacedAll(pristine, sorted) && Bare(d) == pristine && Blocks(d) == PlacedOnes(pristine, sorted)
  {
    hide MarkerFree, PlacedAll, PlacedOnes, Isolated, AnchorOf, WellFormed, Wrap;
    var d0 := End(pristine);
    assert Compatible(d0, sorted);
    d := PlaceAll(d0, sorted);
  }

  lemma OthersDiffer(list: seq<Injection>, i: nat, other: Injection)
    requires Suitable(list) && i < |list| && other in list && other != list[i]
    ensures !SameId(list[i], other) && !SameId(other, list[i])
  {
    hide Isolated, AnchorOf, WellFormed, Wrap;
    var j :| 0 <= j < |list| && list[j] == other;
    if j < i {
      assert !SameId(list[j], list[i]);
    } else {
      assert !SameId(list[i], list[j]);
    }
  }

  lemma BlockIsFound(d: Doc, pristine: string, sorted: seq<Injection>, i: nat)
    requires Suitable(sorted) && i < |sorted|
    requires Clean(d) && DistinctIds(d) && Anchored(Blocks(d), pristine)
    requires Full(d) == PlacedAll(pristine, sorted) && Blocks(d) == PlacedOnes(pristine, sorted)
    ensures FoundWhenPlaced(pristine, sorted, sorted[i])
  {
    hide Suitable, PlacedAll, PlacedOnes, BlockOf, AnchorOf, WellFormed, Wrap, Clean, DistinctIds, SameId;
    var inj := sorted[i];
    SuitableAt(sorted, i);
    PlacedAreListed(pristine, sorted);
    forall other | other in Blocks(d) && other != inj
      ensures !SameId(inj, other) && !SameId(other, inj)
    {
      OthersDiffer(sorted, i, other);
    }
    BlockOfDoc(d, inj);
    BlockOfHere(inj, "");
    assert Wrap(inj) + "" == Wrap(inj);
  }

  lemma SuitableAt(list: seq<Injection>, i: nat)
    requires Suitable(list) && i < |list|
    ensures WellFormed(list[i])
  {
  }

  /** Stripping gives back the pristine text; each placed injection is found whole, and no other. */
  lemma RenderedMeans(pristine: string, sorted: seq<Injection>)
    requires MarkerFree(pristine) && Suitable(sorted)
    ensures Stripped(PlacedAll(pristine, sorted)) == pristine
    ensures forall i :: 0 <= i < |sorted| ==> FoundWhenPlaced(pristine, sorted, sorted[i])
  {
    hide MarkerFree, Suitable, Stripped, PlacedAll, PlacedOnes, Clean, DistinctIds, Anchored, FoundWhenPlaced;
    var d := DocPlaced(pristine, sorted);
    StrippedFull(d);
    forall i | 0 <= i < |sorted|
      ensures FoundWhenPlaced(pristine, sorted, sorted[i])
    {
      BlockIsFound(d, pristine, sorted, i);
    }
  }

  lemma {:induction false} PlacedAreListed(rendered: string, list: seq<Injection>)
    ensures forall inj :: inj in PlacedOnes(rendered, list) ==> inj in list
    decreases |list|
  {
    hide Position, Placed;
    if list != [] {
      PlacedAreListed(Placed(rendered, list[0]), list[1..]);
    }
  }
}
