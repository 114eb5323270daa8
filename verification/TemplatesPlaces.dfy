/** Where the blocks of a rendered template stand: at the first place of their anchor that no block put in before them
  * divides, those at one place in ascending order. */
module TemplatesPlaces {
  import opened Outcomes
  import opened Text
  import opened Templates
  import opened TemplatesProofs
  import opened TemplatesRuns

  // ---- Markers, written out ----

  lemma NameCharactersAre(c: char)
    ensures IsNameChar(c) <==> 0x61 <= c as int <= 0x7A || 0x30 <= c as int <= 0x39 || c as int == 0x5F || c as int == 0x2D
  {
  }

  lemma WrapIs(inj: Injection)
    ensures
      var name := "{# clp-addons:" + inj.addon + ":" + inj.slug;
      Wrap(inj) == "\n        " + name + ":start #}" + inj.snippet + "\n        " + name + ":end #}"
  {
    hide HEAD, START_TAIL, END_TAIL, INDENT;
    ConstantsAre();
    var name := HEAD + inj.addon + ":" + inj.slug;
    assert INDENT + (name + START_TAIL) == INDENT + name + START_TAIL;
    assert Wrap(inj) == INDENT + (name + START_TAIL) + inj.snippet + INDENT + (name + END_TAIL);
    assert INDENT + name + START_TAIL + inj.snippet + INDENT + (name + END_TAIL)
        == INDENT + name + START_TAIL + inj.snippet + INDENT + name + END_TAIL;
  }

  lemma ConstantsAre()
    ensures HEAD == "{# clp-addons:" && START_TAIL == ":start #}" && END_TAIL == ":end #}" && INDENT == "\n        "
  {
  }

  // ---- Where a block goes, in terms of the pristine text ----

  /** In front of an anchor, behind one, or nowhere. */
  datatype Place = Before(anchor: string) | After(anchor: string) | Nowhere

  function PlaceOf(inj: Injection): Place {
    match (inj.anchorBefore, inj.anchorAfter)
    case (Some(anchor), _) =>
      if anchor != "" then Before(anchor)
      else if inj.anchorAfter.Some? && inj.anchorAfter.value != "" then After(inj.anchorAfter.value)
      else Nowhere
    case (None, Some(anchor)) => if anchor != "" then After(anchor) else Nowhere
    case (None, None) => Nowhere
  }

  /** A block and the offset of the pristine text it stands at. */
  datatype Stand = Stand(at: nat, inj: Injection)

  /** By addon, then by slug. */
  predicate Less(order: Order, a: Injection, b: Injection) {
    order(a.addon, b.addon) < 0 || (a.addon == b.addon && order(a.slug, b.slug) < 0)
  }

  /** `a` is put in before `b`: first those in front of an anchor, ascending, then the others, descending. */
  predicate Sooner(order: Order, a: Injection, b: Injection) {
    if PlaceOf(a).Before? then !PlaceOf(b).Before? || Less(order, a, b)
    else !PlaceOf(b).Before? && Less(order, b, a)
  }

  /** The pristine text from `from` on, with the blocks at their offsets. */
  ghost function Woven(pristine: string, stands: seq<Stand>, from: int): string {
    if stands == [] then Rest(pristine, from)
    else Piece(pristine, from, stands[0].at) + Wrap(stands[0].inj) + Woven(pristine, stands[1..], stands[0].at)
  }

  function Rest(s: string, from: int): string {
    if 0 <= from <= |s| then s[from..] else ""
  }

  function Piece(s: string, from: int, end: int): string {
    if 0 <= from <= end <= |s| then s[from..end] else ""
  }

  /** No block put in sooner than `inj` stands within the `n` characters at `q`. */
  ghost predicate Undivided(stands: seq<Stand>, inj: Injection, q: int, n: nat, order: Order) {
    forall i :: 0 <= i < |stands| && Sooner(order, stands[i].inj, inj) ==> !(q < stands[i].at < q + n)
  }

  /** A place of the anchor that is whole when it is the turn of `inj`. */
  ghost predicate OpenAt(pristine: string, stands: seq<Stand>, inj: Injection, q: int, order: Order) {
    && !PlaceOf(inj).Nowhere?
    && OccursAt(pristine, PlaceOf(inj).anchor, q) && Undivided(stands, inj, q, |PlaceOf(inj).anchor|, order)
  }

  ghost predicate FirstOpenAt(pristine: string, stands: seq<Stand>, inj: Injection, q: int, order: Order) {
    OpenAt(pristine, stands, inj, q, order) && forall p :: p < q ==> !OpenAt(pristine, stands, inj, p, order)
  }

  ghost predicate StandsSomewhere(stands: seq<Stand>, inj: Injection) {
    exists i :: 0 <= i < |stands| && stands[i].inj == inj
  }

  /** The block of `inj` stands in front of, or behind, the first place of its anchor that is whole, if there is one. */
  ghost predicate RightlyPlaced(pristine: string, stands: seq<Stand>, inj: Injection, order: Order) {
    && (forall i :: 0 <= i < |stands| && stands[i].inj == inj ==>
          !PlaceOf(inj).Nowhere?
          && FirstOpenAt(pristine, stands, inj,
                         if PlaceOf(inj).Before? then stands[i].at else stands[i].at - |PlaceOf(inj).anchor|, order))
    && (!StandsSomewhere(stands, inj) ==> forall q :: !OpenAt(pristine, stands, inj, q, order))
  }

  /** From left to right; at one offset those behind an anchor come first, and each kind ascends. */
  ghost predicate InPlace(stands: seq<Stand>, order: Order) {
    forall i, j :: 0 <= i < j < |stands| ==> Ahead(order, stands[i], stands[j])
  }

  predicate Ahead(order: Order, a: Stand, b: Stand) {
    a.at < b.at
    || (a.at == b.at
        && (if PlaceOf(a.inj).Before? then PlaceOf(b.inj).Before? && Less(order, a.inj, b.inj)
            else PlaceOf(b.inj).Before? || Less(order, a.inj, b.inj)))
  }

  // ---- A document as the stands of its blocks ----

  ghost function Stands(d: Doc, base: nat): seq<Stand> {
    match d
    case End(_) => []
    case Block(before, inj, after) => [Stand(base + |before|, inj)] + Stands(after, base + |before|)
  }

  lemma {:induction false} FullIsWoven(d: Doc, pristine: string, base: nat)
    requires RestIs(pristine, base, Bare(d))
    ensures Full(d) == Woven(pristine, Stands(d, base), base)
  {
    hide Wrap, RestIs, Piece, Rest;
    match d
    case End(rest) =>
      RestOfAll(pristine, base, rest);
    case Block(before, inj, after) =>
      Drop(pristine, base, before, Bare(after));
      PieceOf(pristine, base, before);
      FullIsWoven(after, pristine, base + |before|);
      WovenFirst(pristine, Stand(base + |before|, inj), Stands(after, base + |before|), base);
  }

  lemma WovenFirst(pristine: string, s: Stand, rest: seq<Stand>, from: int)
    ensures Woven(pristine, [s] + rest, from) == Piece(pristine, from, s.at) + Wrap(s.inj) + Woven(pristine, rest, s.at)
  {
    hide Wrap, Piece, Rest;
    assert ([s] + rest)[1..] == rest;
  }

  lemma RestOfAll(s: string, from: nat, rest: string)
    requires RestIs(s, from, rest)
    ensures Rest(s, from) == rest
  {
  }

  lemma PieceOf(s: string, from: nat, p: string)
    requires OccursAt(s, p, from)
    ensures Piece(s, from, from + |p|) == p
  {
  }

  /** Where in the file the `q`th character of the pristine text stands: behind the blocks at its offset. */
  ghost function Lifted(d: Doc, q: nat): nat {
    match d
    case End(_) => q
    case Block(before, inj, after) =>
      if q < |before| then q else |before| + |Wrap(inj)| + Lifted(after, q - |before|)
  }

  /** Some block stands within the `n` characters at `q`. */
  ghost predicate Divided(d: Doc, q: nat, n: nat) {
    match d
    case End(_) => false
    case Block(before, _, after) => if q < |before| then |before| < q + n else Divided(after, q - |before|, n)
  }

  lemma {:induction false} LiftedRises(d: Doc, p: nat, q: nat)
    requires p < q
    ensures Lifted(d, p) < Lifted(d, q)
  {
    hide Wrap;
    match d
    case End(_) =>
    case Block(before, inj, after) =>
      if p >= |before| {
        LiftedRises(after, p - |before|, q - |before|);
      }
  }

  lemma {:induction false} LiftedWhole(d: Doc, q: nat, n: nat)
    requires !Divided(d, q, n) && n > 0
    ensures Lifted(d, q + n - 1) == Lifted(d, q) + n - 1
  {
    hide Wrap;
    match d
    case End(_) =>
    case Block(before, inj, after) =>
      if q >= |before| {
        LiftedWhole(after, q - |before|, n);
      }
  }

  /** An undivided place in the pristine text is a place in the file. */
  lemma {:induction false} OccursLifted(d: Doc, anchor: string, q: nat)
    requires OccursAt(Bare(d), anchor, q) && !Divided(d, q, |anchor|) && anchor != ""
    ensures OccursAt(Full(d), anchor, Lifted(d, q))
  {
    hide Wrap, OccursAt;
    match d
    case End(_) =>
    case Block(before, inj, after) =>
      Assoc(before, Wrap(inj), Full(after));
      if q < |before| {
        OccursFrontBack(before, Bare(after), anchor, q);
        OccursFront(before, Wrap(inj) + Full(after), anchor, q);
      } else {
        OccursBack(before, Bare(after), anchor, q);
        OccursLifted(after, anchor, q - |before|);
        OccursBack(before + Wrap(inj), Full(after), anchor, Lifted(d, q));
      }
  }

  /** A place in the file, of an anchor no block contains or meets, is an undivided place in the pristine text. */
  lemma {:induction false} OccursLowered(d: Doc, anchor: string, x: nat) returns (q: nat)
    requires OccursAt(Full(d), anchor, x) && IsolatedFrom(anchor, Blocks(d))
    ensures x == Lifted(d, q) && OccursAt(Bare(d), anchor, q) && !Divided(d, q, |anchor|)
  {
    hide Wrap, Isolated, OccursAt;
    match d
    case End(_) =>
      q := x;
    case Block(before, inj, after) =>
      assert inj in Blocks(d);
      OccursClear(before, Wrap(inj), Full(after), anchor, x);
      Assoc(before, Wrap(inj), Full(after));
      if x + |anchor| <= |before| {
        OccursFrontBack(before, Wrap(inj) + Full(after), anchor, x);
        OccursFront(before, Bare(after), anchor, x);
        q := x;
      } else {
        OccursBack(before + Wrap(inj), Full(after), anchor, x);
        var k := OccursLowered(after, anchor, x - |before + Wrap(inj)|);
        q := |before| + k;
        OccursBack(before, Bare(after), anchor, q);
      }
  }

  /** The first place in the file is the lifted first undivided place in the pristine text. */
  ghost predicate FirstWhole(d: Doc, anchor: string, q: nat) {
    && OccursAt(Bare(d), anchor, q) && !Divided(d, q, |anchor|)
    && forall p: nat :: p < q && OccursAt(Bare(d), anchor, p) ==> Divided(d, p, |anchor|)
  }

  lemma FirstFound(d: Doc, anchor: string) returns (q: nat)
    requires IsolatedFrom(anchor, Blocks(d)) && IndexOf(Full(d), anchor).Some?
    ensures IndexOf(Full(d), anchor) == Some(Lifted(d, q)) && FirstWhole(d, anchor, q)
  {
    hide Isolated, Lifted, Divided, Full, Bare, OccursAt, IndexOf;
    var x := IndexOf(Full(d), anchor).value;
    q := OccursLowered(d, anchor, x);
    forall p: nat | p < q && OccursAt(Bare(d), anchor, p)
      ensures Divided(d, p, |anchor|)
    {
      if !Divided(d, p, |anchor|) {
        OccursLifted(d, anchor, p);
        LiftedRises(d, p, q);
      }
    }
  }

  lemma NoneFound(d: Doc, anchor: string, q: nat)
    requires anchor != "" && IndexOf(Full(d), anchor).None? && OccursAt(Bare(d), anchor, q)
    ensures Divided(d, q, |anchor|)
  {
    hide Lifted, Divided, Full, Bare, OccursAt, IndexOf;
    if !Divided(d, q, |anchor|) {
      OccursLifted(d, anchor, q);
    }
  }

  // ---- Divided, and the stands ----

  /** Some block stands between `lo` and `hi`. */
  ghost predicate CutBetween(stands: seq<Stand>, lo: int, hi: int) {
    exists i :: 0 <= i < |stands| && lo < stands[i].at < hi
  }

  lemma CutFirst(s: Stand, rest: seq<Stand>, lo: int, hi: int)
    ensures CutBetween([s] + rest, lo, hi) <==> lo < s.at < hi || CutBetween(rest, lo, hi)
  {
    var all := [s] + rest;
    assert all[0] == s && forall i :: 0 <= i < |rest| ==> all[i + 1] == rest[i];
    if CutBetween(rest, lo, hi) {
      var i :| 0 <= i < |rest| && lo < rest[i].at < hi;
      assert all[i + 1] == rest[i];
    }
  }

  lemma {:induction false} DividedByStand(d: Doc, q: nat, n: nat, base: nat)
    ensures Divided(d, q, n) <==> CutBetween(Stands(d, base), base + q, base + q + n)
  {
    hide CutBetween;
    match d
    case End(_) =>
      NothingCuts(base + q, base + q + n);
    case Block(before, inj, after) =>
      var next := base + |before|;
      CutFirst(Stand(next, inj), Stands(after, next), base + q, base + q + n);
      if q < |before| {
        NoneCutsBefore(after, next, base + q + n);
        CutsLater(after, next, base + q, base + q + n);
      } else {
        DividedByStand(after, q - |before|, n, next);
      }
  }

  lemma NothingCuts(lo: int, hi: int)
    ensures !CutBetween([], lo, hi)
  {
  }

  lemma NoneCutsBefore(d: Doc, base: nat, hi: int)
    ensures hi <= base ==> forall lo :: !CutBetween(Stands(d, base), lo, hi)
  {
    hide Stands;
    StandsFrom(d, base);
  }

  lemma CutsLater(d: Doc, base: nat, lo: int, hi: int)
    requires lo < base
    ensures CutBetween(Stands(d, base), lo, hi) ==> base < hi
  {
    hide Stands;
    StandsFrom(d, base);
  }

  lemma {:induction false} StandsFrom(d: Doc, base: nat)
    ensures forall i :: 0 <= i < |Stands(d, base)| ==> base <= Stands(d, base)[i].at <= base + |Bare(d)|
  {
    match d
    case End(_) =>
    case Block(before, inj, after) =>
      StandsFrom(after, base + |before|);
  }

  lemma SomewhereFirst(s: Stand, rest: seq<Stand>, inj: Injection)
    ensures StandsSomewhere([s] + rest, inj) <==> s.inj == inj || StandsSomewhere(rest, inj)
  {
    var all := [s] + rest;
    assert all[0] == s;
    if StandsSomewhere(rest, inj) {
      var i :| 0 <= i < |rest| && rest[i].inj == inj;
      assert all[i + 1] == rest[i];
    }
    if StandsSomewhere(all, inj) && s.inj != inj {
      var i :| 0 <= i < |all| && all[i].inj == inj;
      assert all[i] == rest[i - 1];
    }
  }

  lemma {:induction false} StandsCount(d: Doc, base: nat, inj: Injection)
    ensures inj in Blocks(d) <==> StandsSomewhere(Stands(d, base), inj)
  {
    hide StandsSomewhere;
    match d
    case End(_) =>
      NothingStands(inj);
    case Block(before, here, after) =>
      StandsCount(after, base + |before|, inj);
      SomewhereFirst(Stand(base + |before|, here), Stands(after, base + |before|), inj);
  }

  lemma NothingStands(inj: Injection)
    ensures !StandsSomewhere([], inj)
  {
  }

  // ---- Putting one more block in ----

  /** Behind those that stand at its offset. */
  function PutLast(stands: seq<Stand>, s: Stand): seq<Stand> {
    if stands != [] && stands[0].at <= s.at then [stands[0]] + PutLast(stands[1..], s) else [s] + stands
  }

  /** In front of those that stand at its offset. */
  function PutFirst(stands: seq<Stand>, s: Stand): seq<Stand> {
    if stands != [] && stands[0].at < s.at then [stands[0]] + PutFirst(stands[1..], s) else [s] + stands
  }

  lemma {:induction false} StandsPutLast(d: Doc, q: nat, inj: Injection, base: nat)
    requires q <= |Bare(d)| && Boundary(d, Lifted(d, q))
    ensures Stands(InsertDoc(d, Lifted(d, q), inj), base) == PutLast(Stands(d, base), Stand(base + q, inj))
  {
    hide Wrap;
    match d
    case End(_) =>
    case Block(before, other, after) =>
      WrapHead(other);
      assert Stands(d, base)[1..] == Stands(after, base + |before|);
      if q >= |before| {
        StandsPutLast(after, q - |before|, inj, base + |before|);
      }
  }

  lemma {:induction false} StandsPutFirst(d: Doc, e: nat, inj: Injection, base: nat)
    requires 0 < e <= |Bare(d)| && Boundary(d, Lifted(d, e - 1) + 1)
    ensures Stands(InsertDoc(d, Lifted(d, e - 1) + 1, inj), base) == PutFirst(Stands(d, base), Stand(base + e, inj))
  {
    hide Wrap;
    match d
    case End(_) =>
    case Block(before, other, after) =>
      WrapHead(other);
      assert Stands(d, base)[1..] == Stands(after, base + |before|);
      if e > |before| {
        StandsPutFirst(after, e - |before|, inj, base + |before|);
      }
  }

  lemma PlaceOfMeans(inj: Injection)
    ensures PlaceOf(inj).Before? <==> IsBefore(inj)
    ensures PlaceOf(inj).Nowhere? <==> AnchorOf(inj).None?
    ensures !PlaceOf(inj).Nowhere? ==> AnchorOf(inj) == Some(PlaceOf(inj).anchor) && PlaceOf(inj).anchor != ""
  {
  }

  lemma PositionIs(rendered: string, inj: Injection)
    ensures PlaceOf(inj).Nowhere? ==> Position(rendered, inj) == None
    ensures PlaceOf(inj).Before? ==> Position(rendered, inj) == IndexOf(rendered, PlaceOf(inj).anchor)
    ensures
      var at := if PlaceOf(inj).Nowhere? then None else IndexOf(rendered, PlaceOf(inj).anchor);
      PlaceOf(inj).After? ==> Position(rendered, inj) == if at.None? then None else Some(at.value + |PlaceOf(inj).anchor|)
  {
    hide IndexOf;
  }

  /** What one placement does to the stands. */
  lemma StandsPlaced(d: Doc, list: seq<Injection>, d': Doc) returns (q: nat)
    requires Compatible(d, list) && list != []
    requires Position(Full(d), list[0]).None? ==> d' == d
    requires Position(Full(d), list[0]).Some? ==>
      Boundary(d, Position(Full(d), list[0]).value) && d' == InsertDoc(d, Position(Full(d), list[0]).value, list[0])
    ensures Position(Full(d), list[0]).Some? ==>
      var place := PlaceOf(list[0]);
      && !place.Nowhere? && FirstWhole(d, place.anchor, q)
      && Stands(d', 0) == (if place.Before? then PutLast(Stands(d, 0), Stand(q, list[0]))
                           else PutFirst(Stands(d, 0), Stand(q + |place.anchor|, list[0])))
    ensures Position(Full(d), list[0]).None? && !PlaceOf(list[0]).Nowhere? ==>
      forall p: nat :: OccursAt(Bare(d), PlaceOf(list[0]).anchor, p) ==> Divided(d, p, |PlaceOf(list[0]).anchor|)
  {
    hide Full, Bare, Blocks, Lifted, Divided, OccursAt, IndexOf, Position, Clean, DistinctIds, Suitable, InsertDoc, Boundary, Isolated, Wrap;
    hide PlaceOf, AnchorOf, Stands, PutLast, PutFirst;
    q := 0;
    var inj := list[0];
    PlaceOfMeans(inj);
    PositionIs(Full(d), inj);
    if !PlaceOf(inj).Nowhere? {
      var anchor := PlaceOf(inj).anchor;
      if Position(Full(d), inj).Some? {
        q := FirstFound(d, anchor);
        FirstWholeBounds(d, anchor, q);
        if PlaceOf(inj).Before? {
          StandsPutLast(d, q, inj, 0);
        } else {
          LiftedWhole(d, q, |anchor|);
          StandsPutFirst(d, q + |anchor|, inj, 0);
        }
      } else {
        forall p: nat | OccursAt(Bare(d), anchor, p)
          ensures Divided(d, p, |anchor|)
        {
          NoneFound(d, anchor, p);
        }
      }
    }
  }

  lemma FirstWholeBounds(d: Doc, anchor: string, q: nat)
    requires FirstWhole(d, anchor, q)
    ensures q + |anchor| <= |Bare(d)| && !Divided(d, q, |anchor|)
  {
    hide Divided;
  }

  // ---- What holds while the blocks are put in ----

  /** One more stand at index `n`, the others as they were. */
  ghost predicate OneMore(stands: seq<Stand>, n: nat, s: Stand, after: seq<Stand>) {
    n <= |stands| && after == stands[..n] + [s] + stands[n..]
  }

  lemma {:induction false} PutLastAt(stands: seq<Stand>, s: Stand) returns (n: nat)
    ensures OneMore(stands, n, s, PutLast(stands, s))
    ensures forall i :: 0 <= i < n ==> stands[i].at <= s.at
    ensures n < |stands| ==> s.at < stands[n].at
  {
    n := 0;
    if stands != [] && stands[0].at <= s.at {
      var rest := stands[1..];
      n := PutLastAt(rest, s);
      assert [stands[0]] + (rest[..n] + [s] + rest[n..]) == stands[..n + 1] + [s] + stands[n + 1..];
      n := n + 1;
    }
  }

  lemma {:induction false} PutFirstAt(stands: seq<Stand>, s: Stand) returns (n: nat)
    ensures OneMore(stands, n, s, PutFirst(stands, s))
    ensures forall i :: 0 <= i < n ==> stands[i].at < s.at
    ensures n < |stands| ==> s.at <= stands[n].at
  {
    n := 0;
    if stands != [] && stands[0].at < s.at {
      var rest := stands[1..];
      n := PutFirstAt(rest, s);
      assert [stands[0]] + (rest[..n] + [s] + rest[n..]) == stands[..n + 1] + [s] + stands[n + 1..];
      n := n + 1;
    }
  }

  /** The injections `done` were put in before `inj`, and none of them is put in after it. */
  ghost predicate AllSooner(done: seq<Injection>, inj: Injection, order: Order) {
    forall i :: 0 <= i < |done| ==> Sooner(order, done[i], inj) && !Sooner(order, inj, done[i]) && done[i] != inj
  }

  /** Only injections of `done` stand. */
  ghost predicate OnlyThose(stands: seq<Stand>, done: seq<Injection>) {
    forall i :: 0 <= i < |stands| ==> stands[i].inj in done
  }

  ghost predicate AllRight(pristine: string, stands: seq<Stand>, done: seq<Injection>, order: Order) {
    forall i :: 0 <= i < |done| ==> RightlyPlaced(pristine, stands, done[i], order)
  }

  ghost predicate SoFar(pristine: string, stands: seq<Stand>, done: seq<Injection>, order: Order) {
    InPlace(stands, order) && OnlyThose(stands, done) && AllRight(pristine, stands, done, order)
  }

  lemma IndexIn<T>(list: seq<T>, x: T) returns (k: nat)
    requires x in list
    ensures k < |list| && list[k] == x
  {
    k :| 0 <= k < |list| && list[k] == x;
  }

  lemma StandIsSooner(stands: seq<Stand>, done: seq<Injection>, inj: Injection, i: nat, order: Order)
    requires OnlyThose(stands, done) && AllSooner(done, inj, order) && i < |stands|
    ensures Sooner(order, stands[i].inj, inj) && stands[i].inj != inj
  {
    hide Sooner;
    var k := IndexIn(done, stands[i].inj);
  }

  lemma AheadThrough(order: Order, stands: seq<Stand>)
    requires InPlace(stands, order)
    ensures forall i, j :: 0 <= i < j < |stands| ==> stands[i].at <= stands[j].at
  {
  }

  /** The stands keep their order with one more in its place. */
  lemma OneMoreInPlace(stands: seq<Stand>, n: nat, s: Stand, after: seq<Stand>, order: Order)
    requires InPlace(stands, order) && OneMore(stands, n, s, after)
    requires forall i :: 0 <= i < n ==> Ahead(order, stands[i], s)
    requires forall i :: n <= i < |stands| ==> Ahead(order, s, stands[i])
    ensures InPlace(after, order)
  {
    hide Ahead;
    forall i, j | 0 <= i < j < |after|
      ensures Ahead(order, after[i], after[j])
    {
      var i', j' := if i < n then i else i - 1, if j < n then j else j - 1;
      if i == n {
        assert after[j] == stands[j'];
      } else if j == n {
        assert after[i] == stands[i'];
      } else {
        assert after[i] == stands[i'] && after[j] == stands[j'];
      }
    }
  }

  lemma PutInPlace(stands: seq<Stand>, done: seq<Injection>, s: Stand, order: Order) returns (n: nat)
    requires InPlace(stands, order) && OnlyThose(stands, done) && AllSooner(done, s.inj, order)
    requires !PlaceOf(s.inj).Nowhere?
    ensures
      var after := if PlaceOf(s.inj).Before? then PutLast(stands, s) else PutFirst(stands, s);
      OneMore(stands, n, s, after) && InPlace(after, order)
  {
    hide PutLast, PutFirst, PlaceOf, Less;
    AheadThrough(order, stands);
    forall i | 0 <= i < |stands|
      ensures Sooner(order, stands[i].inj, s.inj)
    {
      StandIsSooner(stands, done, s.inj, i, order);
    }
    if PlaceOf(s.inj).Before? {
      n := PutLastAt(stands, s);
      OneMoreInPlace(stands, n, s, PutLast(stands, s), order);
    } else {
      n := PutFirstAt(stands, s);
      OneMoreInPlace(stands, n, s, PutFirst(stands, s), order);
    }
  }

  lemma OneMoreSomewhere(stands: seq<Stand>, n: nat, s: Stand, after: seq<Stand>, inj: Injection)
    requires OneMore(stands, n, s, after)
    ensures StandsSomewhere(after, inj) <==> StandsSomewhere(stands, inj) || inj == s.inj
  {
    assert after[n] == s;
    if StandsSomewhere(stands, inj) {
      var i :| 0 <= i < |stands| && stands[i].inj == inj;
      assert after[if i < n then i else i + 1] == stands[i];
    }
    if StandsSomewhere(after, inj) && inj != s.inj {
      var i :| 0 <= i < |after| && after[i].inj == inj;
      assert stands[if i < n then i else i - 1] == after[i];
    }
  }

  /** A stand that comes later divides nothing for an injection put in sooner. */
  lemma UndividedKept(stands: seq<Stand>, n: nat, s: Stand, after: seq<Stand>, inj: Injection, q: int, k: nat, order: Order)
    requires OneMore(stands, n, s, after) && !Sooner(order, s.inj, inj)
    ensures Undivided(after, inj, q, k, order) <==> Undivided(stands, inj, q, k, order)
  {
    hide Sooner;
    assert after[n] == s;
    forall i | 0 <= i < |stands|
      ensures after[if i < n then i else i + 1] == stands[i]
    {
    }
    forall i | 0 <= i < |after| && i != n
      ensures stands[if i < n then i else i - 1] == after[i]
    {
    }
  }

  lemma RightKept(pristine: string, stands: seq<Stand>, n: nat, s: Stand, after: seq<Stand>, inj: Injection, order: Order)
    requires OneMore(stands, n, s, after) && !Sooner(order, s.inj, inj) && inj != s.inj
    requires RightlyPlaced(pristine, stands, inj, order)
    ensures RightlyPlaced(pristine, after, inj, order)
  {
    hide Sooner, PlaceOf, Undivided, OneMore, StandsSomewhere, OccursAt;
    OneMoreSomewhere(stands, n, s, after, inj);
    forall q
      ensures OpenAt(pristine, after, inj, q, order) <==> OpenAt(pristine, stands, inj, q, order)
    {
      if !PlaceOf(inj).Nowhere? {
        UndividedKept(stands, n, s, after, inj, q, |PlaceOf(inj).anchor|, order);
      }
    }
    forall q
      ensures FirstOpenAt(pristine, after, inj, q, order) <==> FirstOpenAt(pristine, stands, inj, q, order)
    {
    }
    forall i | 0 <= i < |after| && after[i].inj == inj
      ensures exists k :: 0 <= k < |stands| && stands[k] == after[i]
    {
      StandedBefore(stands, n, s, after, i);
    }
  }

  lemma StandedBefore(stands: seq<Stand>, n: nat, s: Stand, after: seq<Stand>, i: nat)
    requires OneMore(stands, n, s, after) && i < |after| && after[i].inj != s.inj
    ensures exists k :: 0 <= k < |stands| && stands[k] == after[i]
  {
    assert after[n] == s;
    assert stands[if i < n then i else i - 1] == after[i];
  }

  /** For an injection whose turn it is, whole means not divided by any block. */
  lemma UndividedNow(stands: seq<Stand>, done: seq<Injection>, inj: Injection, q: int, k: nat, order: Order)
    requires OnlyThose(stands, done) && AllSooner(done, inj, order)
    ensures Undivided(stands, inj, q, k, order) <==> !CutBetween(stands, q, q + k)
  {
    hide Sooner;
    forall i | 0 <= i < |stands|
      ensures Sooner(order, stands[i].inj, inj)
    {
      StandIsSooner(stands, done, inj, i, order);
    }
  }

  lemma NotSoonerSelf(order: Order, inj: Injection)
    requires Total(order)
    ensures !Sooner(order, inj, inj)
  {
  }

  lemma OpenNow(d: Doc, done: seq<Injection>, inj: Injection, q: int, order: Order)
    requires OnlyThose(Stands(d, 0), done) && AllSooner(done, inj, order) && !PlaceOf(inj).Nowhere?
    ensures OpenAt(Bare(d), Stands(d, 0), inj, q, order)
       <==> OccursAt(Bare(d), PlaceOf(inj).anchor, q) && !Divided(d, q, |PlaceOf(inj).anchor|)
  {
    hide Stands, Bare, PlaceOf, Divided, Undivided, CutBetween;
    if q >= 0 {
      UndividedNow(Stands(d, 0), done, inj, q, |PlaceOf(inj).anchor|, order);
      DividedByStand(d, q, |PlaceOf(inj).anchor|, 0);
    }
  }

  lemma FirstOpenNow(d: Doc, done: seq<Injection>, inj: Injection, q: nat, order: Order)
    requires OnlyThose(Stands(d, 0), done) && AllSooner(done, inj, order) && !PlaceOf(inj).Nowhere?
    requires FirstWhole(d, PlaceOf(inj).anchor, q)
    ensures FirstOpenAt(Bare(d), Stands(d, 0), inj, q, order)
  {
    hide Stands, Bare, PlaceOf, Divided, Undivided, OpenAt, OnlyThose, AllSooner;
    forall p: int
      ensures OpenAt(Bare(d), Stands(d, 0), inj, p, order)
         <==> OccursAt(Bare(d), PlaceOf(inj).anchor, p) && !Divided(d, p, |PlaceOf(inj).anchor|)
    {
      OpenNow(d, done, inj, p, order);
    }
    forall p: int | p < q
      ensures !OpenAt(Bare(d), Stands(d, 0), inj, p, order)
    {
      if OccursAt(Bare(d), PlaceOf(inj).anchor, p) {
        OccursBound(Bare(d), PlaceOf(inj).anchor, p);
      }
    }
  }

  /** The block just put in is rightly placed. */
  lemma NewRight(d: Doc, done: seq<Injection>, inj: Injection, q: nat, n: nat, s: Stand, after: seq<Stand>, order: Order)
    requires Total(order) && OnlyThose(Stands(d, 0), done) && AllSooner(done, inj, order) && !PlaceOf(inj).Nowhere?
    requires FirstWhole(d, PlaceOf(inj).anchor, q) && OneMore(Stands(d, 0), n, s, after)
    requires s == Stand(if PlaceOf(inj).Before? then q else q + |PlaceOf(inj).anchor|, inj)
    ensures RightlyPlaced(Bare(d), after, inj, order)
  {
    hide Stands, Bare, PlaceOf, Undivided, OnlyThose, AllSooner, FirstWhole, Total, OccursAt, Sooner;
    FirstOpenNow(d, done, inj, q, order);
    NotSoonerSelf(order, inj);
    forall p
      ensures OpenAt(Bare(d), after, inj, p, order) <==> OpenAt(Bare(d), Stands(d, 0), inj, p, order)
    {
      UndividedKept(Stands(d, 0), n, s, after, inj, p, |PlaceOf(inj).anchor|, order);
    }
    assert after[n] == s;
    OnlyNew(Stands(d, 0), done, inj, n, s, after, order);
  }

  lemma OnlyNew(stands: seq<Stand>, done: seq<Injection>, inj: Injection, n: nat, s: Stand, after: seq<Stand>, order: Order)
    requires OnlyThose(stands, done) && AllSooner(done, inj, order) && OneMore(stands, n, s, after)
    ensures forall i :: 0 <= i < |after| && after[i].inj == inj ==> after[i] == s
  {
    hide Sooner, OnlyThose, AllSooner;
    NoneStands(stands, done, inj, order);
    assert after[n] == s;
    forall i | 0 <= i < |after| && i != n
      ensures after[i].inj != inj
    {
      assert after[i] == stands[if i < n then i else i - 1];
    }
  }

  lemma NoneStands(stands: seq<Stand>, done: seq<Injection>, inj: Injection, order: Order)
    requires OnlyThose(stands, done) && AllSooner(done, inj, order)
    ensures forall i :: 0 <= i < |stands| ==> stands[i].inj != inj
  {
    hide Sooner;
    forall i | 0 <= i < |stands|
      ensures stands[i].inj != inj
    {
      StandIsSooner(stands, done, inj, i, order);
    }
  }

  lemma OnlyMore(stands: seq<Stand>, done: seq<Injection>, n: nat, s: Stand, after: seq<Stand>)
    requires OnlyThose(stands, done) && OneMore(stands, n, s, after)
    ensures OnlyThose(after, done + [s.inj])
  {
    forall i | 0 <= i < |after|
      ensures after[i].inj in done + [s.inj]
    {
      if i != n {
        assert stands[if i < n then i else i - 1] == after[i];
      }
    }
  }

  lemma RightStays(pristine: string, stands: seq<Stand>, done: seq<Injection>, n: nat, s: Stand, after: seq<Stand>, order: Order)
    requires AllRight(pristine, stands, done, order) && AllSooner(done, s.inj, order) && OneMore(stands, n, s, after)
    ensures AllRight(pristine, after, done, order)
  {
    hide Sooner, RightlyPlaced, OneMore;
    forall i | 0 <= i < |done|
      ensures RightlyPlaced(pristine, after, done[i], order)
    {
      RightKept(pristine, stands, n, s, after, done[i], order);
    }
  }

  lemma RightMore(pristine: string, stands: seq<Stand>, done: seq<Injection>, inj: Injection, order: Order)
    requires AllRight(pristine, stands, done, order) && RightlyPlaced(pristine, stands, inj, order)
    ensures AllRight(pristine, stands, done + [inj], order)
  {
    hide RightlyPlaced;
  }

  /** An injection that finds no place stands nowhere, rightly. */
  lemma NowhereRight(d: Doc, done: seq<Injection>, inj: Injection, order: Order)
    requires OnlyThose(Stands(d, 0), done) && AllSooner(done, inj, order)
    requires !PlaceOf(inj).Nowhere? ==>
      forall p: nat :: OccursAt(Bare(d), PlaceOf(inj).anchor, p) ==> Divided(d, p, |PlaceOf(inj).anchor|)
    ensures RightlyPlaced(Bare(d), Stands(d, 0), inj, order)
    ensures OnlyThose(Stands(d, 0), done + [inj])
  {
    hide Stands, Bare, PlaceOf, Divided, Undivided, Sooner, OccursAt;
    forall q
      ensures !OpenAt(Bare(d), Stands(d, 0), inj, q, order)
    {
      if !PlaceOf(inj).Nowhere? {
        OpenNow(d, done, inj, q, order);
        if OccursAt(Bare(d), PlaceOf(inj).anchor, q) {
          OccursBound(Bare(d), PlaceOf(inj).anchor, q);
        }
      }
    }
    NoneStands(Stands(d, 0), done, inj, order);
  }

  /** One placement. */
  lemma SoFarOne(d: Doc, list: seq<Injection>, d': Doc, done: seq<Injection>, order: Order)
    requires Total(order) && Compatible(d, list) && list != []
    requires SoFar(Bare(d), Stands(d, 0), done, order) && AllSooner(done, list[0], order)
    requires Position(Full(d), list[0]).None? ==> d' == d
    requires Position(Full(d), list[0]).Some? ==>
      Boundary(d, Position(Full(d), list[0]).value) && d' == InsertDoc(d, Position(Full(d), list[0]).value, list[0])
    ensures SoFar(Bare(d), Stands(d', 0), done + [list[0]], order)
  {
    hide Full, Bare, PlaceOf, Stands, Position, Compatible, Divided, Total, AllSooner, AllRight, OnlyThose, InPlace, RightlyPlaced;
    hide PutLast, PutFirst, FirstWhole, OneMore, InsertDoc, Boundary;
    var inj, stands := list[0], Stands(d, 0);
    var q := StandsPlaced(d, list, d');
    if Position(Full(d), inj).Some? {
      var s := Stand(if PlaceOf(inj).Before? then q else q + |PlaceOf(inj).anchor|, inj);
      var n := PutInPlace(stands, done, s, order);
      NewRight(d, done, inj, q, n, s, Stands(d', 0), order);
      OnlyMore(stands, done, n, s, Stands(d', 0));
      RightStays(Bare(d), stands, done, n, s, Stands(d', 0), order);
      RightMore(Bare(d), Stands(d', 0), done, inj, order);
    } else {
      NowhereRight(d, done, inj, order);
      RightMore(Bare(d), stands, done, inj, order);
    }
  }

  /** The list is in the order in which its injections are put in. */
  ghost predicate InTurn(list: seq<Injection>, order: Order) {
    forall i, j :: 0 <= i < j < |list| ==>
      Sooner(order, list[i], list[j]) && !Sooner(order, list[j], list[i]) && list[i] != list[j]
  }

  lemma TurnRest(done: seq<Injection>, list: seq<Injection>, order: Order)
    requires list != [] && InTurn(done + list, order)
    ensures AllSooner(done, list[0], order)
    ensures done + list == (done + [list[0]]) + list[1..]
  {
    hide Sooner;
    var all := done + list;
    forall i | 0 <= i < |done|
      ensures Sooner(order, done[i], list[0]) && !Sooner(order, list[0], done[i]) && done[i] != list[0]
    {
      assert all[i] == done[i] && all[|done|] == list[0];
    }
  }

  /** All placements. */
  lemma {:induction false} SoFarAll(d: Doc, list: seq<Injection>, done: seq<Injection>, order: Order) returns (d': Doc)
    requires Total(order) && Compatible(d, list) && InTurn(done + list, order)
    requires SoFar(Bare(d), Stands(d, 0), done, order)
    ensures Full(d') == PlacedAll(Full(d), list) && Bare(d') == Bare(d)
    ensures Blocks(d') == Blocks(d) + PlacedOnes(Full(d), list)
    ensures SoFar(Bare(d), Stands(d', 0), done + list, order)
    decreases |list|
  {
    hide Compatible, Placed, Position, Blocks, Full, Bare, Stands, Total, InTurn, SoFar;
    if list == [] {
      d' := d;
      assert done + list == done;
    } else {
      var next := PlaceFirst(d, list);
      TurnRest(done, list, order);
      SoFarOne(d, list, next, done, order);
      d' := SoFarAll(next, list[1..], done + [list[0]], order);
    }
  }

  // ---- The order of application ----

  lemma LessMeans(order: Order, a: Injection, b: Injection)
    requires Total(order)
    ensures Less(order, a, b) <==> NotAfter(order, a, b) && !SameId(a, b)
    ensures Less(order, b, a) <==> NotAfter(Reversed(order), a, b) && !SameId(a, b)
  {
  }

  lemma {:induction false} FilteredKind(list: seq<Injection>, before: bool)
    ensures forall i :: 0 <= i < |Filtered(list, before)| ==> IsBefore(Filtered(list, before)[i]) == before
  {
    hide IsBefore;
    if list != [] {
      FilteredKind(list[..|list| - 1], before);
    }
  }

  lemma SortedKind(list: seq<Injection>, order: Order, before: bool)
    requires Total(order) && forall i :: 0 <= i < |list| ==> IsBefore(list[i]) == before
    ensures forall i :: 0 <= i < |Sorted(list, order)| ==> IsBefore(Sorted(list, order)[i]) == before
  {
    hide IsBefore, Total, Ascending, Sorted;
    SortedMeans(list, order);
    forall i | 0 <= i < |Sorted(list, order)|
      ensures IsBefore(Sorted(list, order)[i]) == before
    {
      assert Sorted(list, order)[i] in multiset(list);
      assert Sorted(list, order)[i] in list;
    }
  }

  lemma SoonerMeans(order: Order, a: Injection, b: Injection)
    requires Total(order) && !SameId(a, b)
    ensures IsBefore(a) && IsBefore(b) && NotAfter(order, a, b) ==> Sooner(order, a, b) && !Sooner(order, b, a)
    ensures !IsBefore(a) && !IsBefore(b) && NotAfter(Reversed(order), a, b) ==> Sooner(order, a, b) && !Sooner(order, b, a)
    ensures IsBefore(a) && !IsBefore(b) ==> Sooner(order, a, b) && !Sooner(order, b, a)
    ensures a != b
  {
    hide PlaceOf, IsBefore, Total, NotAfter;
    PlaceOfMeans(a);
    PlaceOfMeans(b);
    LessMeans(order, a, b);
    LessMeans(order, b, a);
    NotAfterTotal(order, a, b, a);
    ReversedTotal(order);
    NotAfterTotal(Reversed(order), a, b, a);
    SameIdSelf(a);
  }

  lemma InOrderTurns(list: seq<Injection>, order: Order)
    requires Total(order) && IdsDiffer(list)
    ensures InTurn(InOrder(list, order), order)
  {
    hide IsBefore, Total, Sorted, Filtered, NotAfter, Sooner, SameId;
    var befores, afters := Sorted(Filtered(list, true), order), Sorted(Filtered(list, false), Reversed(order));
    var all := InOrder(list, order);
    ReversedTotal(order);
    InOrderCount(list, order);
    IdsDifferCounted(list, all);
    FilteredKind(list, true);
    FilteredKind(list, false);
    SortedKind(Filtered(list, true), order, true);
    SortedKind(Filtered(list, false), Reversed(order), false);
    SortedMeans(Filtered(list, true), order);
    SortedMeans(Filtered(list, false), Reversed(order));
    forall i, j | 0 <= i < j < |all|
      ensures Sooner(order, all[i], all[j]) && !Sooner(order, all[j], all[i]) && all[i] != all[j]
    {
      assert !SameId(all[i], all[j]);
      SoonerMeans(order, all[i], all[j]);
      if j < |befores| {
        assert all[i] == befores[i] && all[j] == befores[j];
      } else if i >= |befores| {
        assert all[i] == afters[i - |befores|] && all[j] == afters[j - |befores|];
      }
    }
  }

  // ---- The theorem ----

  /** Every injection of the list is rightly placed. */
  ghost predicate ListRight(pristine: string, stands: seq<Stand>, list: seq<Injection>, order: Order) {
    forall i :: 0 <= i < |list| ==> RightlyPlaced(pristine, stands, list[i], order)
  }

  /** Only injections of the list stand, and exactly those whose status is ok. */
  ghost predicate StatusesTell(stands: seq<Stand>, list: seq<Injection>, sorted: seq<Injection>, statuses: seq<Status>) {
    && OnlyThose(stands, list) && |statuses| == |sorted|
    && forall i :: 0 <= i < |sorted| ==> (statuses[i].state == Fine <==> StandsSomewhere(stands, sorted[i]))
  }

  /**
   * A rendered template is the pristine text with blocks at offsets of it: each at the first place of its anchor that no block
   * put in before it divides, in front of the anchor or behind it, or nowhere if there is no such place; the blocks at one
   * offset in ascending order, those behind an anchor first.
   */
  lemma BlocksStand(pristine: string, list: seq<Injection>, order: Order) returns (stands: seq<Stand>)
    requires Total(order) && MarkerFree(pristine) && Suitable(list)
    ensures Rendered(pristine, list, order) == Woven(pristine, stands, 0)
    ensures InPlace(stands, order) && ListRight(pristine, stands, list, order)
    ensures forall i :: 0 <= i < |stands| ==> stands[i].at <= |pristine|
    ensures StatusesTell(stands, list, InOrder(list, order), PlacedStatuses(pristine, InOrder(list, order)))
  {
    hide Total, MarkerFree, Suitable, Compatible, InTurn, InOrder, PlacedAll, PlacedOnes, Full, Bare, Blocks, Stands, Woven, IdsDiffer;
    hide RightlyPlaced, InPlace, StandsSomewhere, PlacedStatuses, OnlyThose;
    var sorted := InOrder(list, order);
    SuitableDiffer(list);
    InOrderTurns(list, order);
    InOrderCount(list, order);
    SuitableCounted(list, sorted);
    StartsCompatible(pristine, sorted);
    assert [] + sorted == sorted;
    NothingYet(pristine, order);
    var d := SoFarAll(End(pristine), sorted, [], order);
    stands := Stands(d, 0);
    EndIs(pristine);
    RestAll(pristine);
    FullIsWoven(d, pristine, 0);
    StandsFrom(d, 0);
    SameMembers(sorted, list);
    ListedRight(pristine, stands, sorted, list, order);
    SuitableDiffer(sorted);
    forall i | 0 <= i < |sorted|
      ensures |PlacedStatuses(pristine, sorted)| == |sorted|
      ensures PlacedStatuses(pristine, sorted)[i].state == Fine <==> StandsSomewhere(stands, sorted[i])
    {
      StatusesMeanPlaced(pristine, sorted, i);
      StandsCount(d, 0, sorted[i]);
    }
    StatusesLength(pristine, sorted);
    OnlyListed(stands, sorted, list);
  }

  lemma StartsCompatible(pristine: string, list: seq<Injection>)
    requires MarkerFree(pristine) && Suitable(list)
    ensures Compatible(End(pristine), list)
  {
    hide MarkerFree, Suitable;
  }

  lemma NothingYet(pristine: string, order: Order)
    ensures SoFar(Bare(End(pristine)), Stands(End(pristine), 0), [], order)
  {
  }

  lemma EndIs(pristine: string)
    ensures Full(End(pristine)) == pristine && Bare(End(pristine)) == pristine && Blocks(End(pristine)) == multiset{}
  {
  }

  lemma SameMembers(a: seq<Injection>, b: seq<Injection>)
    requires multiset(a) == multiset(b)
    ensures forall x :: x in a <==> x in b
  {
    assert forall x :: x in a <==> x in multiset(a);
    assert forall x :: x in b <==> x in multiset(b);
  }

  lemma ListedRight(pristine: string, stands: seq<Stand>, sorted: seq<Injection>, list: seq<Injection>, order: Order)
    requires AllRight(pristine, stands, sorted, order) && forall x :: x in sorted <==> x in list
    ensures ListRight(pristine, stands, list, order)
  {
    hide RightlyPlaced;
    forall i | 0 <= i < |list|
      ensures RightlyPlaced(pristine, stands, list[i], order)
    {
      assert list[i] in sorted;
      var j := IndexIn(sorted, list[i]);
    }
  }

  lemma OnlyListed(stands: seq<Stand>, sorted: seq<Injection>, list: seq<Injection>)
    requires OnlyThose(stands, sorted) && forall x :: x in sorted <==> x in list
    ensures OnlyThose(stands, list)
  {
  }

  lemma UncutIsWhole(stands: seq<Stand>, inj: Injection, q: int, n: nat, order: Order)
    requires !CutBetween(stands, q, q + n)
    ensures Undivided(stands, inj, q, n, order)
  {
    hide Sooner;
  }

  /** Where no block divides the first place of its anchor, a block stands there. */
  lemma AtFirstPlace(pristine: string, stands: seq<Stand>, inj: Injection, q: nat, order: Order)
    requires RightlyPlaced(pristine, stands, inj, order) && !PlaceOf(inj).Nowhere?
    requires IndexOf(pristine, PlaceOf(inj).anchor) == Some(q) && !CutBetween(stands, q, q + |PlaceOf(inj).anchor|)
    ensures
      var at := if PlaceOf(inj).Before? then q else q + |PlaceOf(inj).anchor|;
      Stand(at, inj) in stands
  {
    hide PlaceOf, Sooner, OccursAt, Undivided, CutBetween, IndexOf;
    var anchor := PlaceOf(inj).anchor;
    UncutIsWhole(stands, inj, q, |anchor|, order);
    assert OpenAt(pristine, stands, inj, q, order);
    var i :| 0 <= i < |stands| && stands[i].inj == inj;
    var p := if PlaceOf(inj).Before? then stands[i].at else stands[i].at - |anchor|;
    assert FirstOpenAt(pristine, stands, inj, p, order);
    OccursBound(pristine, anchor, p);
    assert p == q;
  }

  // ---- What inspection finds ----

  /** The anchor inspection looks for in the pristine text. */
  ghost predicate AnchorIsThere(inj: Injection, pristine: string) {
    var anchor := if inj.anchorBefore.Some? then inj.anchorBefore else inj.anchorAfter;
    anchor.Some? && anchor.value != "" && Occurs(pristine, anchor.value)
  }

  lemma SameBlock(a: Injection, b: Injection)
    requires SameId(a, b)
    ensures Marked(a) == Marked(b) <==> a.snippet == b.snippet
  {
    hide StartMarker, EndMarker, Marked;
    var s, e := StartMarker(a.addon, a.slug), EndMarker(a.addon, a.slug);
    MarkedIs(a);
    MarkedIs(b);
    Between(s, a.snippet, b.snippet, INDENT + e);
  }

  lemma MarkedIs(inj: Injection)
    ensures Marked(inj) == StartMarker(inj.addon, inj.slug) + inj.snippet + (INDENT + EndMarker(inj.addon, inj.slug))
  {
    hide StartMarker, EndMarker;
    var s, e := StartMarker(inj.addon, inj.slug), EndMarker(inj.addon, inj.slug);
    assert Wrap(inj) == INDENT + (s + inj.snippet + (INDENT + e));
  }

  lemma Between(s: string, a: string, b: string, e: string)
    ensures s + a + e == s + b + e <==> a == b
  {
    if s + a + e == s + b + e {
      assert |a| == |b|;
      assert (s + a + e)[|s|..|s| + |a|] == a && (s + b + e)[|s|..|s| + |b|] == b;
    }
  }

  /** Looking for any injection's block finds the block placed under its name, if there is one. */
  lemma BlockUnderName(d: Doc, inj: Injection)
    requires Clean(d) && DistinctIds(d) && WellFormed(inj)
    requires forall x :: x in Blocks(d) ==> WellFormed(x)
    ensures forall x :: x in Blocks(d) && SameId(x, inj) ==> BlockOf(Full(d), inj.addon, inj.slug) == Some(Marked(x))
    ensures (forall x :: x in Blocks(d) ==> !SameId(x, inj)) ==> BlockOf(Full(d), inj.addon, inj.slug) == None
  {
    hide Clean, DistinctIds, WellFormed, BlockOf, Full, Blocks, Marked;
    forall x | x in Blocks(d) && SameId(x, inj)
      ensures BlockOf(Full(d), inj.addon, inj.slug) == Some(Marked(x))
    {
      BlockOfDoc(d, x);
    }
    if forall x :: x in Blocks(d) ==> !SameId(x, inj) {
      BlockOfDoc(d, inj);
    }
  }

  /** A block stands under the injection's name, with the injection's snippet or with another. */
  ghost predicate StandsAs(stands: multiset<Injection>, inj: Injection, sameSnippet: bool) {
    exists x :: x in stands && SameId(x, inj) && (x.snippet == inj.snippet) == sameSnippet
  }

  /**
   * Inspecting a reconciled template for any injection, of the list or not: its anchor is missing from the markup, or no block
   * stands under its name, or one with another snippet, or its own.
   */
  lemma InspectedExactly(t: Template, pristine: string, list: seq<Injection>, order: Order, inj: Injection)
    requires Total(order) && MarkerFree(pristine) && Consistent(t, pristine) && Suitable(list) && WellFormed(inj)
    ensures
      var placed := PlacedOnes(pristine, InOrder(list, order));
      var state := InspectedState(inj, Some(ReconciledFile(t, list, order)));
      var known := AnchorIsThere(inj, pristine);
      && (state == AnchorNotFound <==> !known)
      && (state == MissingAnchor <==> known && !StandsAs(placed, inj, true) && !StandsAs(placed, inj, false))
      && (state == StaleContent <==> known && StandsAs(placed, inj, false))
      && (state == Fine <==> known && StandsAs(placed, inj, true))
  {
    hide Total, MarkerFree, Suitable, Consistent, WellFormed, ReconciledFile, PlacedAll, PlacedOnes, InOrder, Stripped, BlockOf, Wrap;
    hide Clean, DistinctIds, Full, Blocks, Marked, Occurs;
    var sorted := InOrder(list, order);
    InOrderCount(list, order);
    SuitableCounted(list, sorted);
    ReconciledSettles(t, pristine, list, order);
    RenderedMeans(pristine, sorted);
    var d := DocPlaced(pristine, sorted);
    PlacedWellFormed(pristine, sorted);
    BlockUnderName(d, inj);
    BlockOfHere(inj, "");
    assert Wrap(inj) + "" == Wrap(inj);
    forall x | x in Blocks(d) && SameId(x, inj)
      ensures Marked(x) == Marked(inj) <==> x.snippet == inj.snippet
    {
      SameBlock(x, inj);
    }
    OneUnderName(d, inj);
  }

  lemma PlacedWellFormed(pristine: string, sorted: seq<Injection>)
    requires Suitable(sorted)
    ensures forall x :: x in PlacedOnes(pristine, sorted) ==> WellFormed(x)
  {
    hide PlacedOnes, WellFormed, Isolated, SameId, AnchorOf, Wrap;
    PlacedAreListed(pristine, sorted);
  }

  /** No two blocks stand under one name. */
  lemma {:induction false} OneUnderName(d: Doc, inj: Injection)
    requires DistinctIds(d)
    ensures forall x, y :: x in Blocks(d) && y in Blocks(d) && SameId(x, inj) && SameId(y, inj) ==> x == y
  {
    match d
    case End(_) =>
    case Block(before, here, after) =>
      OneUnderName(after, inj);
  }

  /** A template that changed under its blocks is reported as that, whatever the injection. */
  lemma ChangedUpstream(inj: Injection, t: Option<Template>)
    ensures InspectedState(inj, t) == UpstreamChanged
       <==> t.Some? && t.value.snapshot.Some? && t.value.snapshot.value.hash.of != Stripped(t.value.onDisk)
    ensures InspectedState(inj, t) == TemplateAbsent <==> t.None?
  {
    hide Stripped, BlockOf, Wrap;
  }
}
