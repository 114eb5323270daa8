/** Reading a provider's list a page at a time, while it may change (addons/dns/cloudflare.ts). */
module Pages {
  import opened Outcomes

  datatype Item = Item(id: string, content: string)

  /** What a call for a page gives: an error, or entries with what the provider says of the page and of the whole. */
  datatype Answer = Failed | Answer(entries: seq<Item>, page: int, totalCount: int, totalPages: int)

  datatype Problem = CallFailed | NotUnderstood | TooMany | ChangedMeanwhile | SameTwice | StoppedEarly | FewerThanCounted

  const MAX_INVENTORY: nat := 100_000

  predicate HasId(items: seq<Item>, id: string) {
    exists i :: 0 <= i < |items| && items[i].id == id
  }

  ghost predicate IdsDiffer(items: seq<Item>) {
    forall i, j :: 0 <= i < j < |items| ==> items[i].id != items[j].id
  }

  /** The items and more entries behind them, unless an id comes twice. */
  function Adding(items: seq<Item>, entries: seq<Item>): (r: Option<seq<Item>>)
    ensures r.Some? <==> (forall k :: 0 <= k < |entries| ==> !HasId(items + entries[..k], entries[k].id))
    ensures r.Some? ==> r.value == items + entries
    decreases |entries|
  {
    if entries == [] then
      assert items + entries == items;
      Some(items)
    else
      AddingMeans(items, entries);
      if HasId(items, entries[0].id) then None else Adding(items + [entries[0]], entries[1..])
  }

  lemma AddingMeans(items: seq<Item>, entries: seq<Item>)
    requires entries != []
    ensures items + [entries[0]] + entries[1..] == items + entries
    ensures items + entries[..0] == items
    ensures forall k :: 0 <= k < |entries| - 1 ==>
      items + [entries[0]] + entries[1..][..k] == items + entries[..k + 1] && entries[1..][k] == entries[k + 1]
    ensures (forall k :: 0 <= k < |entries| ==> !HasId(items + entries[..k], entries[k].id)) <==>
      !HasId(items, entries[0].id)
      && forall k :: 0 <= k < |entries[1..]| ==> !HasId(items + [entries[0]] + entries[1..][..k], entries[1..][k].id)
  {
    forall k | 0 <= k < |entries| - 1
      ensures items + [entries[0]] + entries[1..][..k] == items + entries[..k + 1] && entries[1..][k] == entries[k + 1]
    {
      assert entries[..k + 1] == [entries[0]] + entries[1..][..k];
    }
    assert items + entries[..0] == items;
    var rest := entries[1..];
    if !HasId(items, entries[0].id) && forall k :: 0 <= k < |rest| ==> !HasId(items + [entries[0]] + rest[..k], rest[k].id) {
      forall k | 0 <= k < |entries|
        ensures !HasId(items + entries[..k], entries[k].id)
      {
        if k > 0 {
          assert !HasId(items + [entries[0]] + rest[..k - 1], rest[k - 1].id);
        }
      }
    }
    if forall k :: 0 <= k < |entries| ==> !HasId(items + entries[..k], entries[k].id) {
      forall k | 0 <= k < |rest|
        ensures !HasId(items + [entries[0]] + rest[..k], rest[k].id)
      {
        assert !HasId(items + entries[..k + 1], entries[k + 1].id);
      }
      assert !HasId(items + entries[..0], entries[0].id);
    }
  }

  /** The read from page `page` on, with what the pages before it gave. */
  function ReadFrom(answers: seq<Answer>, page: nat, items: seq<Item>, total: Option<int>): Result<seq<Item>, Problem>
    requires page >= 1
    decreases |answers| + 1 - page
  {
    if page > |answers| || answers[page - 1].Failed? then Err(CallFailed)
    else
      var a := answers[page - 1];
      if a.page != page then Err(NotUnderstood)
      else if a.totalCount > MAX_INVENTORY then Err(TooMany)
      else if total.Some? && a.totalCount != total.value then Err(ChangedMeanwhile)
      else
        match Adding(items, a.entries)
        case None => Err(SameTwice)
        case Some(all) =>
          if page >= a.totalPages then if |all| != a.totalCount then Err(FewerThanCounted) else Ok(all)
          else if a.entries == [] then Err(StoppedEarly)
          else ReadFrom(answers, page + 1, all, Some(a.totalCount))
  }

  method ReadPages(answers: seq<Answer>) returns (r: Result<seq<Item>, Problem>)
    ensures r == ReadFrom(answers, 1, [], None)
  {
    hide HasId;
    var items: seq<Item> := [];
    var total: Option<int> := None;
    var page := 1;
    while true
      invariant page >= 1
      invariant ReadFrom(answers, 1, [], None) == ReadFrom(answers, page, items, total)
      decreases |answers| + 1 - page
    {
      if page > |answers| || answers[page - 1].Failed? {
        return Err(CallFailed);
      }
      var a := answers[page - 1];
      if a.page != page {
        return Err(NotUnderstood);
      }
      if a.totalCount > MAX_INVENTORY {
        return Err(TooMany);
      }
      if total.Some? && a.totalCount != total.value {
        return Err(ChangedMeanwhile);
      }
      total := Some(a.totalCount);
      ghost var before := items;
      for k := 0 to |a.entries|
        invariant items == before + a.entries[..k]
        invariant forall j :: 0 <= j < k ==> !HasId(before + a.entries[..j], a.entries[j].id)
      {
        if HasId(items, a.entries[k].id) {
          return Err(SameTwice);
        }
        assert a.entries[..k + 1] == a.entries[..k] + [a.entries[k]];
        items := items + [a.entries[k]];
      }
      assert a.entries[..|a.entries|] == a.entries;
      if page >= a.totalPages {
        break;
      }
      if |a.entries| == 0 {
        return Err(StoppedEarly);
      }
      page := page + 1;
    }
    r := if |items| != total.value then Err(FewerThanCounted) else Ok(items);
  }

  // ---- What a read that succeeds has read ----

  ghost predicate Counted(answers: seq<Answer>, from: nat, to: nat, count: int)
    requires 1 <= from
  {
    to <= |answers| && forall k :: from - 1 <= k < to ==> answers[k].Answer? && answers[k].page == k + 1 && answers[k].totalCount == count
  }

  lemma IdsDifferOver(items: seq<Item>, entries: seq<Item>)
    requires IdsDiffer(items) && Adding(items, entries).Some?
    ensures IdsDiffer(items + entries)
  {
    hide Adding, HasId;
    var all := items + entries;
    forall i, j | 0 <= i < j < |all|
      ensures all[i].id != all[j].id
    {
      if j >= |items| {
        LaterDiffers(items, entries, i, j - |items|);
      }
    }
  }

  lemma LaterDiffers(items: seq<Item>, entries: seq<Item>, i: nat, k: nat)
    requires Adding(items, entries).Some? && k < |entries| && i < |items| + k
    ensures (items + entries)[i].id != entries[k].id
  {
    hide Adding;
    var front := items + entries[..k];
    assert !HasId(front, entries[k].id);
    assert front[i] == (items + entries)[i];
  }

  /** Whatever the provider answers, what is returned has no entry twice and is as many as every page counted. */
  lemma {:induction false} ReadMeans(answers: seq<Answer>, page: nat, items: seq<Item>, total: Option<int>) returns (last: nat)
    requires page >= 1 && IdsDiffer(items) && ReadFrom(answers, page, items, total).Ok?
    ensures
      var all := ReadFrom(answers, page, items, total).value;
      && IdsDiffer(all) && items <= all && |all| <= MAX_INVENTORY
      && page <= last && Counted(answers, page, last, |all|) && last >= answers[last - 1].totalPages
      && (total.Some? ==> total.value == |all|)
    decreases |answers| + 1 - page
  {
    hide Adding, HasId, IdsDiffer;
    var a := answers[page - 1];
    IdsDifferOver(items, a.entries);
    AddingIs(items, a.entries);
    if page >= a.totalPages {
      last := page;
    } else {
      last := ReadMeans(answers, page + 1, items + a.entries, Some(a.totalCount));
    }
  }

  lemma AddingIs(items: seq<Item>, entries: seq<Item>)
    requires Adding(items, entries).Some?
    ensures Adding(items, entries).value == items + entries
  {
  }

  /** The answers are the pages, `per` entries each, of a list that does not change. */
  ghost predicate PagesOf(answers: seq<Answer>, list: seq<Item>, per: nat)
    requires per > 0
  {
    var pages := (|list| + per - 1) / per;
    && |answers| >= 1 && |answers| >= pages
    && forall k :: 1 <= k <= |answers| ==>
      answers[k - 1] == Answer(list[Start(list, per, k - 1)..Start(list, per, k)], k, |list|, pages)
  }

  function Start(list: seq<Item>, per: nat, page: nat): (s: nat)
    ensures s <= |list|
  {
    if page * per <= |list| then page * per else |list|
  }

  lemma StartsInOrder(list: seq<Item>, per: nat, page: nat)
    requires per > 0
    ensures Start(list, per, page) <= Start(list, per, page + 1)
    ensures page + 1 >= (|list| + per - 1) / per ==> Start(list, per, page + 1) == |list|
    ensures page + 1 < (|list| + per - 1) / per ==> Start(list, per, page) < Start(list, per, page + 1)
  {
    var pages := (|list| + per - 1) / per;
    NextTimes(page, per);
    PagesCover(|list|, per);
    if page + 1 >= pages {
      Times(pages, page + 1, per);
    } else {
      Times(page + 1, pages - 1, per);
    }
  }

  lemma NextTimes(page: nat, per: nat)
    ensures (page + 1) * per == page * per + per
  {
  }

  /** The pages are enough for all entries, and no page fewer is. */
  lemma PagesCover(n: nat, per: nat)
    requires per > 0
    ensures var pages := (n + per - 1) / per; pages * per >= n && (pages - 1) * per < n + (if n == 0 then 1 else 0)
  {
    var pages := (n + per - 1) / per;
    assert (n + per - 1) == pages * per + (n + per - 1) % per;
    assert (pages - 1) * per == pages * per - per;
  }

  lemma Times(a: nat, b: nat, per: nat)
    requires a <= b
    ensures a * per <= b * per
  {
  }

  lemma {:induction false} ReadsUnchanged(answers: seq<Answer>, list: seq<Item>, per: nat, page: nat, total: Option<int>)
    requires per > 0 && PagesOf(answers, list, per) && IdsDiffer(list) && |list| <= MAX_INVENTORY
    requires 1 <= page <= |answers| && (total.Some? ==> total.value == |list|)
    requires page == 1 || page <= (|list| + per - 1) / per
    ensures ReadFrom(answers, page, list[..Start(list, per, page - 1)], total) == Ok(list)
    decreases |answers| - page
  {
    hide IdsDiffer, Start, Adding;
    var from, to := Start(list, per, page - 1), Start(list, per, page);
    StartsInOrder(list, per, page - 1);
    AddingSlice(list, from, to);
    assert list[..|list|] == list;
    if page < (|list| + per - 1) / per {
      ReadsUnchanged(answers, list, per, page + 1, Some(|list|));
    }
  }

  lemma AddingSlice(list: seq<Item>, from: nat, to: nat)
    requires IdsDiffer(list) && from <= to <= |list|
    ensures Adding(list[..from], list[from..to]) == Some(list[..to])
  {
    var items, entries := list[..from], list[from..to];
    forall k | 0 <= k < |entries|
      ensures !HasId(items + entries[..k], entries[k].id)
    {
      assert items + entries[..k] == list[..from + k];
    }
    assert items + entries == list[..to];
  }

  /** A list that does not change while it is read, and is not too long, is returned as it is. */
  lemma UnchangedIsRead(answers: seq<Answer>, list: seq<Item>, per: nat)
    requires per > 0 && PagesOf(answers, list, per) && IdsDiffer(list)
    ensures ReadFrom(answers, 1, [], None) == (if |list| <= MAX_INVENTORY then Ok(list) else Err(TooMany))
  {
    hide IdsDiffer;
    if |list| <= MAX_INVENTORY {
      ReadsUnchanged(answers, list, per, 1, None);
      assert list[..Start(list, per, 0)] == [];
    } else {
      assert answers[1 - 1] == Answer(list[Start(list, per, 0)..Start(list, per, 1)], 1, |list|, (|list| + per - 1) / per);
    }
  }
}
