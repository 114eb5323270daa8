/** Runs of reconciliations: a template depends on the last set of injections only, in whatever order it is given. */
module TemplatesRuns {
  import opened Outcomes
  import opened Text
  import opened Templates
  import opened TemplatesProofs

  // ---- The order of a list does not matter ----

  /** Names compare in a total order. */
  ghost predicate Total(order: Order) {
    && (forall x, y :: order(x, y) == 0 <==> x == y)
    && (forall x, y :: order(x, y) < 0 <==> order(y, x) > 0)
    && (forall x, y, z :: order(x, y) < 0 && order(y, z) < 0 ==> order(x, z) < 0)
  }

  lemma ReversedTotal(order: Order)
    requires Total(order)
    ensures Total(Reversed(order))
  {
  }

  lemma NotAfterTotal(order: Order, a: Injection, b: Injection, c: Injection)
    requires Total(order)
    ensures NotAfter(order, a, b) || NotAfter(order, b, a)
    ensures NotAfter(order, a, b) && NotAfter(order, b, a) <==> SameId(a, b)
    ensures NotAfter(order, a, b) && NotAfter(order, b, c) ==> NotAfter(order, a, c)
  {
    assert order(a.slug, b.slug) == 0 || order(a.slug, b.slug) < 0 || order(b.slug, a.slug) < 0;
    assert order(a.addon, b.addon) == 0 || order(a.addon, b.addon) < 0 || order(b.addon, a.addon) < 0;
    assert order(a.addon, c.addon) == 0 || order(a.addon, c.addon) < 0 || order(c.addon, a.addon) < 0;
  }

  ghost predicate Ascending(list: seq<Injection>, order: Order) {
    forall i, j :: 0 <= i < j < |list| ==> NotAfter(order, list[i], list[j])
  }

  ghost predicate NoneAfter(order: Order, list: seq<Injection>, x: Injection) {
    forall i :: 0 <= i < |list| ==> NotAfter(order, list[i], x)
  }

  lemma NothingAscends(order: Order)
    ensures Ascending([], order)
  {
  }

  lemma AscendingSnoc(front: seq<Injection>, last: Injection, order: Order)
    requires Ascending(front, order) && NoneAfter(order, front, last)
    ensures Ascending(front + [last], order)
  {
    hide NotAfter;
  }

  lemma AscendingFront(list: seq<Injection>, order: Order)
    requires list != [] && Ascending(list, order)
    ensures Ascending(list[..|list| - 1], order) && NoneAfter(order, list[..|list| - 1], list[|list| - 1])
  {
    hide NotAfter;
  }

  lemma NoneAfterLater(order: Order, list: seq<Injection>, x: Injection, y: Injection)
    requires Total(order) && NoneAfter(order, list, x) && NotAfter(order, x, y)
    ensures NoneAfter(order, list + [x], y)
  {
    hide Total, NotAfter;
    forall i | 0 <= i < |list|
      ensures NotAfter(order, list[i], y)
    {
      NotAfterTotal(order, list[i], x, y);
    }
  }

  lemma NoneAfterCounted(order: Order, a: seq<Injection>, b: seq<Injection>, x: Injection, y: Injection)
    requires NoneAfter(order, a, y) && NotAfter(order, x, y) && multiset(b) == multiset(a) + multiset{x}
    ensures NoneAfter(order, b, y)
  {
    hide NotAfter;
    forall i | 0 <= i < |b|
      ensures NotAfter(order, b[i], y)
    {
      assert b[i] in multiset(b);
      assert b[i] == x || b[i] in a;
    }
  }

  lemma InsertSortedStep(list: seq<Injection>, inj: Injection, order: Order)
    requires list != []
    ensures
      var front, last := list[..|list| - 1], list[|list| - 1];
      && list == front + [last] && multiset(list) == multiset(front) + multiset{last}
      && InsertSorted(list, inj, order) == if NotAfter(order, last, inj) then list + [inj] else InsertSorted(front, inj, order) + [last]
  {
    hide NotAfter;
    assert list == list[..|list| - 1] + [list[|list| - 1]];
  }

  lemma {:induction false} InsertSortedMeans(list: seq<Injection>, inj: Injection, order: Order)
    requires Total(order) && Ascending(list, order)
    ensures multiset(InsertSorted(list, inj, order)) == multiset(list) + multiset{inj}
    ensures Ascending(InsertSorted(list, inj, order), order)
  {
    if list == [] {
    } else {
      hide NotAfter, Total, Ascending, NoneAfter, InsertSorted;
      var front, last := list[..|list| - 1], list[|list| - 1];
      InsertSortedStep(list, inj, order);
      AscendingFront(list, order);
      if NotAfter(order, last, inj) {
        NoneAfterLater(order, front, last, inj);
        AscendingSnoc(list, inj, order);
      } else {
        NotAfterTotal(order, last, inj, inj);
        InsertSortedMeans(front, inj, order);
        NoneAfterCounted(order, front, InsertSorted(front, inj, order), inj, last);
        AscendingSnoc(InsertSorted(front, inj, order), last, order);
      }
    }
  }

  lemma {:induction false} SortedMeans(list: seq<Injection>, order: Order)
    requires Total(order)
    ensures multiset(Sorted(list, order)) == multiset(list) && Ascending(Sorted(list, order), order)
  {
    hide Total, Ascending, InsertSorted;
    if list == [] {
      NothingAscends(order);
    } else {
      var k := |list| - 1;
      SortedMeans(list[..k], order);
      InsertSortedMeans(Sorted(list[..k], order), list[k], order);
      assert list == list[..k] + [list[k]];
    }
  }

  ghost predicate IdsDiffer(list: seq<Injection>) {
    forall i, j :: 0 <= i < j < |list| ==> !SameId(list[i], list[j])
  }

  lemma SameLast(a: seq<Injection>, b: seq<Injection>, order: Order)
    requires Total(order) && Ascending(a, order) && Ascending(b, order) && multiset(a) == multiset(b)
    requires IdsDiffer(a) && a != [] && b != []
    ensures a[|a| - 1] == b[|b| - 1]
  {
    hide NotAfter, SameId, Total;
    var x, y := a[|a| - 1], b[|b| - 1];
    assert x in multiset(b) && y in multiset(a);
    var i :| 0 <= i < |b| && b[i] == x;
    var j :| 0 <= j < |a| && a[j] == y;
    NotAfterTotal(order, x, y, y);
    NotAfterTotal(order, y, x, x);
    NotAfterTotal(order, x, x, x);
    SameIdSelf(x);
    assert NotAfter(order, x, y);
    assert NotAfter(order, y, x);
  }

  lemma SameIdSelf(x: Injection)
    ensures SameId(x, x)
    ensures forall y :: SameId(x, y) <==> SameId(y, x)
  {
  }

  lemma FrontDiffers(a: seq<Injection>)
    requires a != [] && IdsDiffer(a)
    ensures IdsDiffer(a[..|a| - 1])
  {
    hide SameId;
  }

  lemma FrontCount(a: seq<Injection>)
    requires a != []
    ensures multiset(a[..|a| - 1]) == multiset(a) - multiset{a[|a| - 1]}
  {
    assert a == a[..|a| - 1] + [a[|a| - 1]];
  }

  lemma FrontSame(a: seq<Injection>, b: seq<Injection>)
    requires a != [] && b != [] && multiset(a) == multiset(b) && a[|a| - 1] == b[|b| - 1]
    ensures multiset(a[..|a| - 1]) == multiset(b[..|b| - 1])
  {
    FrontCount(a);
    FrontCount(b);
  }

  lemma AsLong(a: seq<Injection>, b: seq<Injection>)
    requires multiset(a) == multiset(b)
    ensures |a| == |b|
  {
    assert |a| == |multiset(a)| == |multiset(b)| == |b|;
  }

  /** There is one way to put injections that can be told apart in ascending order. */
  lemma {:induction false} AscendingUnique(a: seq<Injection>, b: seq<Injection>, order: Order)
    requires Total(order) && Ascending(a, order) && Ascending(b, order) && multiset(a) == multiset(b)
    requires IdsDiffer(a)
    ensures a == b
    decreases |a|
  {
    hide Total, Ascending, IdsDiffer, NoneAfter;
    AsLong(a, b);
    if a != [] {
      SameLast(a, b, order);
      AscendingFront(a, order);
      AscendingFront(b, order);
      FrontDiffers(a);
      FrontSame(a, b);
      AscendingUnique(a[..|a| - 1], b[..|b| - 1], order);
      SameWhole(a, b);
    }
  }

  lemma SameWhole(a: seq<Injection>, b: seq<Injection>)
    requires a != [] && b != [] && a[..|a| - 1] == b[..|b| - 1] && a[|a| - 1] == b[|b| - 1]
    ensures a == b
  {
    assert a == a[..|a| - 1] + [a[|a| - 1]] && b == b[..|b| - 1] + [b[|b| - 1]];
  }

  lemma {:induction false} FilteredCount(list: seq<Injection>, before: bool)
    ensures forall x :: multiset(Filtered(list, before))[x] == if IsBefore(x) == before then multiset(list)[x] else 0
  {
    hide IsBefore;
    if list != [] {
      var k := |list| - 1;
      FilteredCount(list[..k], before);
      assert list == list[..k] + [list[k]];
    }
  }

  lemma InOrderCount(list: seq<Injection>, order: Order)
    requires Total(order)
    ensures multiset(InOrder(list, order)) == multiset(list)
  {
    hide Sorted, Filtered, Total, IsBefore;
    ReversedTotal(order);
    SortedMeans(Filtered(list, true), order);
    SortedMeans(Filtered(list, false), Reversed(order));
    FilteredCount(list, true);
    FilteredCount(list, false);
  }

  lemma {:induction false} OnceEach(list: seq<Injection>, x: Injection)
    requires forall i, j :: 0 <= i < j < |list| ==> list[i] != list[j]
    ensures multiset(list)[x] <= 1
  {
    if list != [] {
      var k := |list| - 1;
      OnceEach(list[..k], x);
      assert list == list[..k] + [list[k]];
      if list[k] == x {
        assert x !in list[..k];
      }
    }
  }

  lemma TwiceCounted(list: seq<Injection>, i: nat, j: nat)
    requires i < j < |list| && list[i] == list[j]
    ensures multiset(list)[list[i]] >= 2
  {
    assert list == list[..j] + ([list[j]] + list[j + 1..]);
    assert list[i] in list[..j];
  }

  lemma IdsDifferCounted(a: seq<Injection>, b: seq<Injection>)
    requires multiset(a) == multiset(b) && IdsDiffer(a)
    ensures IdsDiffer(b)
  {
    forall i, j | 0 <= i < j < |b|
      ensures !SameId(b[i], b[j])
    {
      assert b[i] in multiset(a) && b[j] in multiset(a);
      if b[i] == b[j] {
        TwiceCounted(b, i, j);
        OnceEach(a, b[i]);
      }
    }
  }

  lemma SuitableCounted(a: seq<Injection>, b: seq<Injection>)
    requires multiset(a) == multiset(b) && Suitable(a)
    ensures Suitable(b)
  {
    hide WellFormed, Isolated, Wrap, AnchorOf, SameId;
    IdsDifferCounted(a, b);
    assert forall i :: 0 <= i < |b| ==> b[i] in multiset(a);
    assert forall i :: 0 <= i < |b| ==> b[i] in a;
  }

  lemma SortedIndependent(a: seq<Injection>, b: seq<Injection>, order: Order)
    requires Total(order) && multiset(a) == multiset(b) && IdsDiffer(a)
    ensures Sorted(a, order) == Sorted(b, order)
  {
    hide Total, Ascending, IdsDiffer, Sorted;
    SortedMeans(a, order);
    SortedMeans(b, order);
    IdsDifferCounted(a, Sorted(a, order));
    AscendingUnique(Sorted(a, order), Sorted(b, order), order);
  }

  lemma FilteredIndependent(a: seq<Injection>, b: seq<Injection>, before: bool)
    requires multiset(a) == multiset(b)
    ensures multiset(Filtered(a, before)) == multiset(Filtered(b, before))
  {
    hide IsBefore, Filtered;
    FilteredCount(a, before);
    FilteredCount(b, before);
  }

  lemma InOrderIndependent(a: seq<Injection>, b: seq<Injection>, order: Order)
    requires Total(order) && multiset(a) == multiset(b) && IdsDiffer(a)
    ensures InOrder(a, order) == InOrder(b, order)
  {
    hide Total, IdsDiffer, Sorted, Filtered, Reversed;
    ReversedTotal(order);
    FilteredIndependent(a, b, true);
    FilteredIndependent(a, b, false);
    FilteredDiffer(a, true);
    FilteredDiffer(a, false);
    SortedIndependent(Filtered(a, true), Filtered(b, true), order);
    SortedIndependent(Filtered(a, false), Filtered(b, false), Reversed(order));
  }

  lemma {:induction false} FilteredDiffer(list: seq<Injection>, before: bool)
    requires IdsDiffer(list)
    ensures IdsDiffer(Filtered(list, before))
    ensures forall x :: x in Filtered(list, before) ==> x in list
  {
    hide SameId, IsBefore;
    if list != [] {
      var k := |list| - 1;
      FilteredDiffer(list[..k], before);
      var front := Filtered(list[..k], before);
      forall i | 0 <= i < |front|
        ensures !SameId(front[i], list[k])
      {
        assert front[i] in list[..k];
      }
    }
  }

  // ---- One template over a run ----

  /** The template with the given pristine text holds blocks at most, and its snapshot, if any, is of that text. */
  ghost predicate Consistent(t: Template, pristine: string) {
    && Stripped(t.onDisk) == pristine
    && (t.snapshot.None? ==> t.onDisk == pristine)
    && (t.snapshot.Some? ==> t.snapshot.value == Snapshot(pristine, Digest(pristine)))
  }

  /** What the template is after a reconciliation with the list. */
  function Settled(pristine: string, list: seq<Injection>, order: Order): Template {
    Template(Rendered(pristine, list, order), if list == [] then None else Some(Snapshot(pristine, Digest(pristine))))
  }

  /** Whatever blocks it held before, the template settles to what the list and the pristine text give. */
  lemma ReconciledSettles(t: Template, pristine: string, list: seq<Injection>, order: Order)
    requires Total(order) && MarkerFree(pristine) && Consistent(t, pristine) && Suitable(list)
    ensures ReconciledFile(t, list, order) == Settled(pristine, list, order)
    ensures Consistent(Settled(pristine, list, order), pristine)
    ensures list == [] ==> Rendered(pristine, list, order) == pristine
  {
    hide MarkerFree, Suitable, Stripped, PlacedAll, Total;
    InOrderCount(list, order);
    SuitableCounted(list, InOrder(list, order));
    RenderedMeans(pristine, InOrder(list, order));
    if list == [] {
      NothingPlaced(pristine, order);
    }
  }

  lemma NothingPlaced(pristine: string, order: Order)
    ensures Rendered(pristine, [], order) == pristine
  {
  }

  function Run(t: Template, lists: seq<seq<Injection>>, order: Order): Template
    decreases |lists|
  {
    if lists == [] then t else Run(ReconciledFile(t, lists[0], order), lists[1..], order)
  }

  /** After any run of reconciliations only the last list counts, and only as a set: earlier lists leave nothing behind. */
  lemma {:induction false} LastListWins(t: Template, pristine: string, lists: seq<seq<Injection>>, order: Order, list: seq<Injection>)
    requires Total(order) && MarkerFree(pristine) && Consistent(t, pristine)
    requires lists != [] && forall i :: 0 <= i < |lists| ==> Suitable(lists[i])
    requires multiset(list) == multiset(lists[|lists| - 1])
    ensures Run(t, lists, order) == Settled(pristine, list, order)
    ensures Consistent(Run(t, lists, order), pristine)
    decreases |lists|
  {
    hide MarkerFree, Suitable, Rendered, ReconciledFile, Total, Consistent;
    ReconciledSettles(t, pristine, lists[0], order);
    var next := ReconciledFile(t, lists[0], order);
    if |lists| == 1 {
      SuitableDiffer(lists[0]);
      RenderedSame(pristine, lists[0], list, order);
      assert |multiset(list)| == |list| && |multiset(lists[0])| == |lists[0]|;
      RunOnce(t, lists, order);
    } else {
      LastListWins(next, pristine, lists[1..], order, list);
    }
  }

  lemma RunOnce(t: Template, lists: seq<seq<Injection>>, order: Order)
    requires |lists| == 1
    ensures Run(t, lists, order) == ReconciledFile(t, lists[0], order)
  {
    hide ReconciledFile;
    assert lists[1..] == [];
  }

  lemma SuitableDiffer(list: seq<Injection>)
    requires Suitable(list)
    ensures IdsDiffer(list)
  {
  }

  lemma RenderedSame(pristine: string, a: seq<Injection>, b: seq<Injection>, order: Order)
    requires Total(order) && multiset(a) == multiset(b) && IdsDiffer(a)
    ensures Rendered(pristine, a, order) == Rendered(pristine, b, order)
  {
    hide PlacedAll, Total;
    InOrderIndependent(a, b, order);
  }

  /** Reconciling again changes nothing, and reconciling with nothing restores the pristine text. */
  lemma AgainAndBack(t: Template, pristine: string, list: seq<Injection>, order: Order)
    requires Total(order) && MarkerFree(pristine) && Consistent(t, pristine) && Suitable(list)
    ensures
      var once := ReconciledFile(t, list, order);
      && ReconciledFile(once, list, order) == once
      && ReconciledFile(once, [], order) == Template(pristine, None)
  {
    hide MarkerFree, ReconciledFile, Total, Consistent, Isolated, WellFormed;
    ReconciledSettles(t, pristine, list, order);
    ReconciledSettles(Settled(pristine, list, order), pristine, list, order);
    ReconciledSettles(Settled(pristine, list, order), pristine, [], order);
  }

  // ---- What inspection finds ----

  lemma {:induction false} StatusesLength(rendered: string, list: seq<Injection>)
    ensures |PlacedStatuses(rendered, list)| == |list|
    decreases |list|
  {
    hide Position, Placed;
    if list != [] {
      StatusesLength(Placed(rendered, list[0]), list[1..]);
    }
  }

  lemma FirstIsNew(list: seq<Injection>)
    requires IdsDiffer(list) && list != []
    ensures list[0] !in list[1..] && IdsDiffer(list[1..])
  {
    assert forall k :: 0 <= k < |list[1..]| ==> list[1..][k] == list[k + 1];
    assert SameId(list[0], list[0]);
  }

  lemma {:induction false} StatusesMeanPlaced(rendered: string, list: seq<Injection>, i: nat)
    requires IdsDiffer(list) && i < |list|
    ensures |PlacedStatuses(rendered, list)| == |list|
    ensures PlacedStatuses(rendered, list)[i]
      == Status(list[i].addon, list[i].slug, if list[i] in PlacedOnes(rendered, list) then Fine else AnchorNotFound)
    decreases |list|
  {
    hide Position, Placed, IdsDiffer;
    var next := Placed(rendered, list[0]);
    StatusesLength(rendered, list);
    StatusesLength(next, list[1..]);
    FirstIsNew(list);
    PlacedAreListed(next, list[1..]);
    if i > 0 {
      StatusesMeanPlaced(next, list[1..], i - 1);
      assert list[1..][i - 1] == list[i] && list[i] != list[0];
    }
  }

  /** After a reconciliation inspection says an injection is in order exactly when rendering placed it. */
  lemma InspectedIsPlaced(t: Template, pristine: string, list: seq<Injection>, order: Order, i: nat)
    requires Total(order) && MarkerFree(pristine) && Consistent(t, pristine) && Suitable(list)
    requires i < |list|
    ensures
      var sorted := InOrder(list, order);
      && |sorted| == |list|
      && var inj := sorted[i];
      var statuses := RenderedStatuses(Some(t), list, order);
      && i < |statuses| && statuses[i].addon == inj.addon && statuses[i].slug == inj.slug
      && (InspectedState(inj, Some(ReconciledFile(t, list, order))) == Fine <==> statuses[i].state == Fine)
  {
    hide MarkerFree, ReconciledFile, Total, Isolated, WellFormed, Stripped, PlacedAll, InOrder, PlacedStatuses, PlacedOnes, BlockOf, Wrap;
    var sorted := InOrder(list, order);
    InOrderCount(list, order);
    assert |multiset(sorted)| == |sorted| && |multiset(list)| == |list|;
    SuitableCounted(list, sorted);
    RenderedMeans(pristine, sorted);
    assert FoundWhenPlaced(pristine, sorted, sorted[i]);
    ReconciledSettles(t, pristine, list, order);
    StatusesMeanPlaced(pristine, sorted, i);
  }
}
