/** Learning inverts rendering: the learned map is the only one that renders the template to the text. */
module SiteVhostProofs {
  import opened Outcomes
  import opened Text
  import opened SiteVhost

  // ---- A text as literals and values ----

  /** Literal `i` and what follows it, with `values` for the keys from `i` on. */
  ghost function Compose(literals: seq<string>, i: nat, values: seq<string>): string
    requires |literals| == i + |values| + 1
    decreases |values|
  {
    if values == [] then literals[i] else literals[i] + values[0] + Compose(literals, i + 1, values[1..])
  }

  /** `ahead` and what follows it, with `values` for the first keys. */
  ghost function Front(literals: seq<string>, ahead: string, values: seq<string>): string
    requires |values| < |literals|
    decreases |values|
  {
    if values == [] then ahead
    else
      var k := |values| - 1;
      Front(literals, ahead, values[..k]) + literals[k] + values[k]
  }

  /** `values` fill the placeholders of `p` to give `text`, apart from what stands ahead of the first literal. */
  ghost predicate Fills(p: Parts, values: seq<string>, ahead: string, text: string) {
    && p.Valid() && |values| == |p.keys|
    && (p.literals[0] == "" ==> ahead == "")
    && text == ahead + Compose(p.literals, 0, values)
  }

  /** A placeholder has one value wherever it stands. */
  ghost predicate Assigns(m: Mapping, keys: seq<string>, values: seq<string>) {
    && |values| == |keys|
    && (forall k :: k in m <==> k in keys)
    && (forall i :: 0 <= i < |keys| ==> keys[i] in m && m[keys[i]] == values[i])
  }

  ghost predicate Covers(m: Mapping, keys: seq<string>) {
    forall i :: 0 <= i < |keys| ==> keys[i] in m
  }

  ghost function ValuesOf(keys: seq<string>, m: Mapping): (values: seq<string>)
    requires Covers(m, keys)
    ensures |values| == |keys|
  {
    seq(|keys|, i requires 0 <= i < |keys| => m[keys[i]])
  }

  // ---- The values the two directions choose ----

  ghost function ForwardValues(p: Parts, i: nat, remaining: string): (r: Option<seq<string>>)
    requires p.Valid() && i <= |p.keys|
    ensures r.Some? ==> |r.value| == |p.keys| - i
    decreases |p.keys| - i
  {
    if i == |p.keys| then if remaining == p.literals[i] then Some([]) else None
    else if !StartsWith(remaining, p.literals[i]) then None
    else
      var rest := remaining[|p.literals[i]|..];
      match ValueLength(p, i, rest)
      case Err(_) => None
      case Ok(n) =>
        match ForwardValues(p, i + 1, rest[n..])
        case None => None
        case Some(values) => Some([rest[..n]] + values)
  }

  /** The values of the first `i` keys and the text ahead of them. */
  ghost function BackwardValues(p: Parts, i: nat, before: string): (r: Option<(string, seq<string>)>)
    requires p.Valid() && i <= |p.keys|
    ensures r.Some? ==> |r.value.1| == i
  {
    if i == 0 then Some((before, []))
    else
      match LiteralBefore(p, i, before)
      case None => None
      case Some((from, to)) =>
        match BackwardValues(p, i - 1, before[..from])
        case None => None
        case Some((ahead, values)) => Some((ahead, values + [before[to..]]))
  }

  /** Keys from `i` on have the values given, and `seen` is part of the map. */
  ghost predicate Extends(m: Mapping, seen: Mapping, keys: seq<string>, values: seq<string>) {
    && |values| == |keys|
    && (forall k :: k in seen ==> k in m && m[k] == seen[k])
    && (forall k :: k in m ==> k in seen || k in keys)
    && (forall i :: 0 <= i < |keys| ==> keys[i] in m && m[keys[i]] == values[i])
  }

  lemma ExtendsNothing(m: Mapping, seen: Mapping)
    ensures Extends(m, seen, [], []) <==> m == seen
  {
    if Extends(m, seen, [], []) {
      assert m == seen;
    }
  }

  lemma {:induction false} ForwardMeans(p: Parts, i: nat, remaining: string, seen: Mapping, m: Mapping)
    requires p.Valid() && i <= |p.keys|
    ensures Forward(p, i, remaining, seen) == Ok(m) <==>
      ForwardValues(p, i, remaining).Some? && Extends(m, seen, p.keys[i..], ForwardValues(p, i, remaining).value)
    decreases |p.keys| - i
  {
    hide ValueLength, StartsWith, Extends;
    if i == |p.keys| {
      ExtendsNothing(m, seen);
      assert p.keys[i..] == [];
    } else if StartsWith(remaining, p.literals[i]) {
      PrefixIsShort(remaining, p.literals[i]);
      var rest := remaining[|p.literals[i]|..];
      if ValueLength(p, i, rest).Ok? {
        var n := ValueLength(p, i, rest).value;
        var key, value := p.keys[i], rest[..n];
        ForwardMeans(p, i + 1, rest[n..], seen[key := value], m);
        if ForwardValues(p, i + 1, rest[n..]).Some? {
          ExtendsFirst(m, seen, key, value, p.keys[i + 1..], ForwardValues(p, i + 1, rest[n..]).value);
          assert p.keys[i..] == [key] + p.keys[i + 1..];
        }
      }
    }
  }

  lemma PrefixIsShort(s: string, p: string)
    requires StartsWith(s, p)
    ensures |p| <= |s|
  {
  }

  lemma ExtendsFirst(m: Mapping, seen: Mapping, key: string, value: string, keys: seq<string>, values: seq<string>)
    ensures Extends(m, seen, [key] + keys, [value] + values) <==>
      (key in seen ==> seen[key] == value) && Extends(m, seen[key := value], keys, values)
  {
    var all, given := [key] + keys, [value] + values;
    assert forall k :: k in all <==> k == key || k in keys;
    if |values| == |keys| {
      GivenFirst(m, key, value, keys, values);
    }
  }

  lemma GivenFirst(m: Mapping, key: string, value: string, keys: seq<string>, values: seq<string>)
    requires |values| == |keys|
    ensures
      var all, given := [key] + keys, [value] + values;
      (forall i :: 0 <= i < |all| ==> all[i] in m && m[all[i]] == given[i])
        <==> key in m && m[key] == value && forall i :: 0 <= i < |keys| ==> keys[i] in m && m[keys[i]] == values[i]
  {
    var all, given := [key] + keys, [value] + values;
    assert all[0] == key && given[0] == value;
    if (forall i :: 0 <= i < |all| ==> all[i] in m && m[all[i]] == given[i]) {
      forall i | 0 <= i < |keys|
        ensures keys[i] in m && m[keys[i]] == values[i]
      {
        assert all[i + 1] == keys[i] && given[i + 1] == values[i];
      }
    }
    if key in m && m[key] == value && forall i :: 0 <= i < |keys| ==> keys[i] in m && m[keys[i]] == values[i] {
      forall i | 0 <= i < |all|
        ensures all[i] in m && m[all[i]] == given[i]
      {
        if i > 0 {
          assert all[i] == keys[i - 1] && given[i] == values[i - 1];
        }
      }
    }
  }

  lemma ExtendsLast(m: Mapping, seen: Mapping, key: string, value: string, keys: seq<string>, values: seq<string>)
    ensures Extends(m, seen, keys + [key], values + [value]) <==>
      (key in seen ==> seen[key] == value) && Extends(m, seen[key := value], keys, values)
  {
    var all, given := keys + [key], values + [value];
    if Extends(m, seen, all, given) {
      assert all[|keys|] == key && given[|keys|] == value;
      assert forall i :: 0 <= i < |keys| ==> keys[i] == all[i] && values[i] == given[i];
    }
  }

  lemma {:induction false} BackwardMeans(p: Parts, i: nat, before: string, seen: Mapping, m: Mapping)
    requires p.Valid() && i <= |p.keys|
    ensures Backward(p, i, before, seen) == Ok(m) <==>
      BackwardValues(p, i, before).Some? && BackwardValues(p, i, before).value.0 == ""
      && Extends(m, seen, p.keys[..i], BackwardValues(p, i, before).value.1)
  {
    hide LiteralBefore, Extends;
    if i == 0 {
      ExtendsNothing(m, seen);
      assert p.keys[..i] == [];
    } else if LiteralBefore(p, i, before).Some? {
      var (from, to) := LiteralBefore(p, i, before).value;
      var key, value := p.keys[i - 1], before[to..];
      BackwardMeans(p, i - 1, before[..from], seen[key := value], m);
      if BackwardValues(p, i - 1, before[..from]).Some? {
        ExtendsLast(m, seen, key, value, p.keys[..i - 1], BackwardValues(p, i - 1, before[..from]).value.1);
        assert p.keys[..i] == p.keys[..i - 1] + [key];
      }
    }
  }

  // ---- Both ways of reading a filling ----

  lemma {:induction false} FrontAndRest(literals: seq<string>, ahead: string, values: seq<string>, j: nat)
    requires |literals| == |values| + 1 && j <= |values|
    ensures ahead + Compose(literals, 0, values) == Front(literals, ahead, values[..j]) + Compose(literals, j, values[j..])
  {
    if j == 0 {
      assert values[0..] == values;
    } else {
      FrontAndRest(literals, ahead, values, j - 1);
      assert values[..j][..j - 1] == values[..j - 1] && values[j - 1..][1..] == values[j..];
      var front, rest := Front(literals, ahead, values[..j - 1]), Compose(literals, j, values[j..]);
      assert front + (literals[j - 1] + values[j - 1] + rest) == front + literals[j - 1] + values[j - 1] + rest;
    }
  }

  /** A filling is known by where its values end. */
  lemma SameEnds(p: Parts, text: string, vs: seq<string>, a: string, ws: seq<string>, b: string)
    requires Fills(p, vs, a, text) && Fills(p, ws, b, text)
    requires forall j :: 0 <= j <= |p.keys| ==> |Front(p.literals, a, vs[..j])| == |Front(p.literals, b, ws[..j])|
    ensures vs == ws && a == b
  {
    assert vs[..0] == [] && ws[..0] == [];
    FrontAndRest(p.literals, a, vs, 0);
    FrontAndRest(p.literals, b, ws, 0);
    assert |Front(p.literals, a, vs[..0])| == |Front(p.literals, b, ws[..0])|;
    assert a == text[..|a|] && b == text[..|b|];
    forall j | 0 <= j < |p.keys|
      ensures vs[j] == ws[j]
    {
      ValueAt(p.literals, a, vs, j, text);
      ValueAt(p.literals, b, ws, j, text);
      assert |Front(p.literals, a, vs[..j])| == |Front(p.literals, b, ws[..j])|;
      assert |Front(p.literals, a, vs[..j + 1])| == |Front(p.literals, b, ws[..j + 1])|;
    }
  }

  lemma ValueAt(literals: seq<string>, ahead: string, values: seq<string>, j: nat, text: string)
    requires |literals| == |values| + 1 && j < |values| && text == ahead + Compose(literals, 0, values)
    ensures
      var from := |Front(literals, ahead, values[..j])| + |literals[j]|;
      var to := |Front(literals, ahead, values[..j + 1])|;
      from <= to <= |text| && values[j] == text[from..to]
  {
    FrontAndRest(literals, ahead, values, j + 1);
    assert values[..j + 1][..j] == values[..j];
  }

  // ---- Forward is leftmost ----

  lemma {:induction false} ForwardComposes(p: Parts, i: nat, remaining: string)
    requires p.Valid() && i <= |p.keys| && ForwardValues(p, i, remaining).Some?
    ensures remaining == Compose(p.literals, i, ForwardValues(p, i, remaining).value)
    decreases |p.keys| - i
  {
    hide ValueLength, Compose;
    if i < |p.keys| {
      var rest := remaining[|p.literals[i]|..];
      var n := ValueLength(p, i, rest).value;
      ForwardComposes(p, i + 1, rest[n..]);
      assert rest == rest[..n] + rest[n..];
      assert remaining == p.literals[i] + rest;
      var values := ForwardValues(p, i + 1, rest[n..]).value;
      assert ([rest[..n]] + values)[1..] == values;
      ComposeStep(p.literals, i, [rest[..n]] + values);
      assert remaining == p.literals[i] + rest[..n] + rest[n..];
    } else {
      ComposeEnd(p.literals, i, []);
    }
  }

  /** Matching forward comes to an access log whose value ends with the Cloudflare include. */
  ghost predicate CloudflareTaken(p: Parts, i: nat, remaining: string)
    requires p.Valid() && i <= |p.keys|
    decreases |p.keys| - i
  {
    i < |p.keys| && StartsWith(remaining, p.literals[i]) &&
    var rest := remaining[|p.literals[i]|..];
    ValueLength(p, i, rest).Ok? &&
    ((i + 1 < |p.keys| && TakesCloudflare(p, i, rest, IndexOf(rest, p.literals[i + 1]).value))
     || CloudflareTaken(p, i + 1, rest[ValueLength(p, i, rest).value..]))
  }

  lemma ComposeHead(literals: seq<string>, i: nat, values: seq<string>)
    requires |literals| == i + |values| + 1
    ensures StartsWith(Compose(literals, i, values), literals[i])
  {
    if values != [] {
      var tail := Compose(literals, i + 1, values[1..]);
      assert literals[i] + values[0] + tail == literals[i] + (values[0] + tail);
    }
  }

  lemma OccursBehind(x: string, t: string, p: string)
    requires StartsWith(t, p)
    ensures OccursAt(x + t, p, |x|)
  {
    assert (x + t)[|x|..|x| + |p|] == t[0..|p|];
  }

  /** Where `t` begins with the next literal, the value chosen forward ends no later than `t` begins. */
  lemma ValueLengthLeftmost(p: Parts, i: nat, rest: string, x: string, t: string)
    requires p.Valid() && i < |p.keys|
    requires rest == x + t && StartsWith(t, p.literals[i + 1]) && (i + 1 == |p.keys| ==> t == p.literals[i + 1])
    ensures ValueLength(p, i, rest).Ok?
    ensures i + 1 < |p.keys| ==>
      var position := IndexOf(rest, p.literals[i + 1]);
      && position.Some? && position.value <= |x| && position.value + |p.literals[i + 1]| <= |rest|
      && (!TakesCloudflare(p, i, rest, position.value) ==> ValueLength(p, i, rest).value == position.value)
    ensures i + 1 == |p.keys| ==> ValueLength(p, i, rest).value == |x|
  {
    hide TakesCloudflare;
    OccursBehind(x, t, p.literals[i + 1]);
  }

  lemma NextLiteral(rest: string, x: string, t: string, n: nat, literal: string)
    requires rest == x + t && n <= |x| && OccursAt(rest, literal, n)
    ensures rest[n..] == x[n..] + t && StartsWith(rest[n..], literal)
  {
    assert rest[n..][0..|literal|] == rest[n..n + |literal|];
  }

  ghost predicate TailLonger(literals: seq<string>, i: nat, vs: seq<string>, ws: seq<string>, j: nat)
    requires |vs| == |ws| && |literals| == i + |vs| + 1 && j <= |ws|
  {
    |Compose(literals, i + j, vs[j..])| >= |Compose(literals, i + j, ws[j..])|
  }

  /** From key `i` on, no tail of `vs` is shorter than that of `ws`. */
  ghost predicate TailsLonger(literals: seq<string>, i: nat, vs: seq<string>, ws: seq<string>) {
    |vs| == |ws| && |literals| == i + |vs| + 1 && forall j :: 0 <= j <= |ws| ==> TailLonger(literals, i, vs, ws, j)
  }

  lemma TailLongerShift(literals: seq<string>, i: nat, vs: seq<string>, ws: seq<string>, j: nat)
    requires |vs| == |ws| && |literals| == i + |vs| + 1 && 0 < j <= |ws|
    requires TailLonger(literals, i + 1, vs[1..], ws[1..], j - 1)
    ensures TailLonger(literals, i, vs, ws, j)
  {
    assert vs[j..] == vs[1..][j - 1..] && ws[j..] == ws[1..][j - 1..];
  }

  lemma TailLongerNow(literals: seq<string>, i: nat, vs: seq<string>, ws: seq<string>)
    requires |vs| == |ws| && |literals| == i + |vs| + 1
    requires |Compose(literals, i, vs)| >= |Compose(literals, i, ws)|
    ensures TailLonger(literals, i, vs, ws, 0)
  {
    hide Compose;
    assert vs[0..] == vs && ws[0..] == ws;
  }

  lemma TailsLongerFirst(literals: seq<string>, i: nat, vs: seq<string>, ws: seq<string>)
    requires vs != [] && ws != [] && TailsLonger(literals, i + 1, vs[1..], ws[1..])
    requires |literals| == i + |vs| + 1
    requires |Compose(literals, i, vs)| >= |Compose(literals, i, ws)|
    ensures TailsLonger(literals, i, vs, ws)
  {
    hide Compose, TailLonger;
    var vs', ws' := vs[1..], ws[1..];
    TailLongerNow(literals, i, vs, ws);
    forall j | 0 <= j <= |ws|
      ensures TailLonger(literals, i, vs, ws, j)
    {
      if j > 0 {
        assert TailLonger(literals, i + 1, vs', ws', j - 1);
        TailLongerShift(literals, i, vs, ws, j);
      }
    }
  }

  lemma Remainder(remaining: string, x: string, literal: string, w: string, t: string) returns (x': string)
    requires remaining == x + (literal + w + t) && StartsWith(remaining, literal)
    ensures |literal| <= |remaining| && remaining[|literal|..] == x' + t
  {
    var rest := remaining[|literal|..];
    x' := rest[..|rest| - |t|];
    assert rest[|rest| - |t|..] == remaining[|remaining| - |t|..] == t;
  }

  /** Forward, every value ends no later than in any filling. */
  lemma {:induction false} ForwardLeftmost(p: Parts, i: nat, remaining: string, x: string, ws: seq<string>)
    requires p.Valid() && i + |ws| == |p.keys|
    requires remaining == x + Compose(p.literals, i, ws) && StartsWith(remaining, p.literals[i])
    requires i == |p.keys| ==> x == ""
    requires !CloudflareTaken(p, i, remaining)
    ensures ForwardValues(p, i, remaining).Some?
    ensures TailsLonger(p.literals, i, ForwardValues(p, i, remaining).value, ws)
    decreases |ws|
  {
    hide ValueLength, TakesCloudflare, Compose, StartsWith, OccursAt, TailsLonger;
    if ws == [] {
      NoTails(p.literals, i, remaining);
    } else {
      ComposeStep(p.literals, i, ws);
      ComposeHead(p.literals, i + 1, ws[1..]);
      ComposeEnd(p.literals, i + 1, ws[1..]);
      var t := Compose(p.literals, i + 1, ws[1..]);
      var x' := Remainder(remaining, x, p.literals[i], ws[0], t);
      var rest := remaining[|p.literals[i]|..];
      ValueLengthLeftmost(p, i, rest, x', t);
      var n := ValueLength(p, i, rest).value;
      if i + 1 == |p.keys| {
        OccursBehind(x', t, p.literals[i + 1]);
      }
      NextLiteral(rest, x', t, n, p.literals[i + 1]);
      ForwardLeftmost(p, i + 1, rest[n..], x'[n..], ws[1..]);
      ForwardComposes(p, i, remaining);
      var vs := ForwardValues(p, i, remaining).value;
      assert vs[1..] == ForwardValues(p, i + 1, rest[n..]).value;
      TailsLongerFirst(p.literals, i, vs, ws);
    }
  }

  lemma ComposeStep(literals: seq<string>, i: nat, values: seq<string>)
    requires |literals| == i + |values| + 1 && values != []
    ensures Compose(literals, i, values) == literals[i] + values[0] + Compose(literals, i + 1, values[1..])
  {
  }

  lemma ComposeEnd(literals: seq<string>, i: nat, values: seq<string>)
    requires |literals| == i + |values| + 1
    ensures values == [] ==> Compose(literals, i, values) == literals[i]
  {
  }

  lemma NoTails(literals: seq<string>, i: nat, remaining: string)
    requires |literals| == i + 1
    ensures TailsLonger(literals, i, [], [])
    ensures "" + Compose(literals, i, []) == literals[i]
  {
  }

  // ---- Backward is rightmost ----

  ghost predicate Separated(p: Parts) {
    p.Valid() && forall k :: 0 < k < |p.keys| ==> p.literals[k] != ""
  }

  lemma LiteralRightmost(p: Parts, i: nat, before: string, front: string, z: string)
    requires Separated(p) && 0 < i <= |p.keys|
    requires before == front + p.literals[i - 1] + z
    requires p.literals[0] == "" && i == 1 ==> front == ""
    ensures
      var r := LiteralBefore(p, i, before);
      && r.Some?
      && var (from, to) := r.value;
      && |front| <= from && to == from + |p.literals[i - 1]| && OccursAt(before, p.literals[i - 1], from)
      && (p.literals[i - 1] == "" ==> from == 0)
  {
    var literal := p.literals[i - 1];
    assert before == front + (literal + z);
    OccursBehind(front, literal + z, literal);
  }

  lemma CutAt(before: string, literal: string, from: nat)
    requires OccursAt(before, literal, from)
    ensures before == before[..from] + literal + before[from + |literal|..]
  {
    assert before == before[..from] + before[from..from + |literal|] + before[from + |literal|..];
  }

  ghost predicate FrontLonger(literals: seq<string>, a: string, vs: seq<string>, b: string, ws: seq<string>, j: nat)
    requires |vs| == |ws| < |literals| && j <= |ws|
  {
    |Front(literals, a, vs[..j])| >= |Front(literals, b, ws[..j])|
  }

  /** For every number of keys, the front of `vs` is no shorter than that of `ws`. */
  ghost predicate FrontsLonger(literals: seq<string>, a: string, vs: seq<string>, b: string, ws: seq<string>) {
    |vs| == |ws| < |literals| && forall j :: 0 <= j <= |ws| ==> FrontLonger(literals, a, vs, b, ws, j)
  }

  lemma FrontLongerNow(literals: seq<string>, a: string, vs: seq<string>, b: string, ws: seq<string>)
    requires |vs| == |ws| < |literals| && |Front(literals, a, vs)| >= |Front(literals, b, ws)|
    ensures FrontLonger(literals, a, vs, b, ws, |ws|)
  {
    hide Front;
    assert vs[..|vs|] == vs && ws[..|ws|] == ws;
  }

  lemma FrontLongerShift(literals: seq<string>, a: string, vs: seq<string>, b: string, ws: seq<string>, j: nat)
    requires |vs| == |ws| < |literals| && j < |ws|
    requires FrontLonger(literals, a, vs[..|vs| - 1], b, ws[..|ws| - 1], j)
    ensures FrontLonger(literals, a, vs, b, ws, j)
  {
    hide Front;
    assert vs[..|vs| - 1][..j] == vs[..j] && ws[..|ws| - 1][..j] == ws[..j];
  }

  lemma FrontsLongerLast(literals: seq<string>, a: string, vs: seq<string>, b: string, ws: seq<string>)
    requires vs != [] && ws != [] && |vs| < |literals|
    requires FrontsLonger(literals, a, vs[..|vs| - 1], b, ws[..|ws| - 1])
    requires |Front(literals, a, vs)| >= |Front(literals, b, ws)|
    ensures FrontsLonger(literals, a, vs, b, ws)
  {
    hide Front, FrontLonger;
    var vs', ws' := vs[..|vs| - 1], ws[..|ws| - 1];
    FrontLongerNow(literals, a, vs, b, ws);
    forall j | 0 <= j <= |ws|
      ensures FrontLonger(literals, a, vs, b, ws, j)
    {
      if j < |ws| {
        assert FrontLonger(literals, a, vs', b, ws', j);
        FrontLongerShift(literals, a, vs, b, ws, j);
      }
    }
  }

  lemma FrontStep(literals: seq<string>, ahead: string, values: seq<string>)
    requires 0 < |values| < |literals|
    ensures var k := |values| - 1;
      Front(literals, ahead, values) == Front(literals, ahead, values[..k]) + literals[k] + values[k]
  {
  }

  lemma NoFronts(literals: seq<string>, a: string, b: string)
    requires literals != [] && |a| >= |b|
    ensures Front(literals, a, []) == a && Front(literals, b, []) == b && FrontsLonger(literals, a, [], b, [])
  {
  }

  /** Backward, every value starts no earlier than in any filling. */
  lemma {:induction false} BackwardRightmost(p: Parts, i: nat, before: string, ahead: string, ws: seq<string>, z: string)
    requires Separated(p) && i == |ws| <= |p.keys|
    requires before == Front(p.literals, ahead, ws) + z
    requires p.literals[0] == "" ==> ahead == ""
    ensures BackwardValues(p, i, before).Some?
    ensures
      var (a, vs) := BackwardValues(p, i, before).value;
      && before == Front(p.literals, a, vs)
      && (i > 0 && p.literals[0] == "" ==> a == "")
      && FrontsLonger(p.literals, a, vs, ahead, ws)
    decreases i
  {
    hide LiteralBefore, Front, FrontsLonger, OccursAt, BackwardValues;
    if i == 0 {
      NoFronts(p.literals, ahead + z, ahead);
      NoFronts(p.literals, ahead, ahead);
      BackwardNone(p, before);
    } else {
      var k := i - 1;
      FrontStep(p.literals, ahead, ws);
      var front := Front(p.literals, ahead, ws[..k]);
      assert before == front + p.literals[k] + (ws[k] + z);
      if k == 0 {
        NoFronts(p.literals, ahead, ahead);
        assert ws[..k] == [];
      }
      LiteralRightmost(p, i, before, front, ws[k] + z);
      var (from, to) := LiteralBefore(p, i, before).value;
      CutAt(before, p.literals[k], from);
      BackwardStep(p, i, before);
      assert before[..from] == front + before[|front|..from];
      BackwardRightmost(p, k, before[..from], ahead, ws[..k], before[|front|..from]);
      var (a, vs') := BackwardValues(p, k, before[..from]).value;
      var vs := vs' + [before[to..]];
      assert vs[..k] == vs' && vs[k] == before[to..];
      FrontStep(p.literals, a, vs);
      if k == 0 {
        NoFronts(p.literals, a, a);
      }
      FrontsLongerLast(p.literals, a, vs, ahead, ws);
    }
  }

  lemma BackwardNone(p: Parts, before: string)
    requires p.Valid()
    ensures BackwardValues(p, 0, before) == Some((before, []))
  {
  }

  lemma BackwardStep(p: Parts, i: nat, before: string)
    requires p.Valid() && 0 < i <= |p.keys| && LiteralBefore(p, i, before).Some?
    ensures
      var (from, to) := LiteralBefore(p, i, before).value;
      var earlier := BackwardValues(p, i - 1, before[..from]);
      earlier.Some? ==> BackwardValues(p, i, before) == Some((earlier.value.0, earlier.value.1 + [before[to..]]))
  {
    hide LiteralBefore;
  }

  // ---- The theorems ----

  lemma ForwardFills(p: Parts, text: string)
    requires p.Valid() && ForwardValues(p, 0, text).Some?
    ensures Fills(p, ForwardValues(p, 0, text).value, "", text)
  {
    hide ForwardValues;
    ForwardComposes(p, 0, text);
  }

  lemma BackwardFills(p: Parts, text: string, before: string)
    requires Separated(p) && |p.keys| > 0 && text == before + p.literals[|p.keys|]
    requires BackwardValues(p, |p.keys|, before).Some?
    requires before == Front(p.literals, BackwardValues(p, |p.keys|, before).value.0, BackwardValues(p, |p.keys|, before).value.1)
    requires p.literals[0] == "" ==> BackwardValues(p, |p.keys|, before).value.0 == ""
    ensures Fills(p, BackwardValues(p, |p.keys|, before).value.1, BackwardValues(p, |p.keys|, before).value.0, text)
  {
    hide BackwardValues, Front;
    var (a, vs) := BackwardValues(p, |p.keys|, before).value;
    FrontAndRest(p.literals, a, vs, |vs|);
    assert vs[..|vs|] == vs && vs[|vs|..] == [];
  }

  /** Text that a filling gives ends with the last literal, and what is before it is the front of the filling. */
  lemma FillingEnds(p: Parts, text: string, a: string, ws: seq<string>)
    requires Fills(p, ws, a, text)
    ensures EndsWith(text, p.literals[|p.keys|])
    ensures text[..|text| - |p.literals[|p.keys|]|] == Front(p.literals, a, ws)
    ensures text == text[..|text| - |p.literals[|p.keys|]|] + p.literals[|p.keys|]
  {
    FrontAndRest(p.literals, a, ws, |ws|);
    assert ws[..|ws|] == ws && ws[|ws|..] == [];
    var last := p.literals[|p.keys|];
    assert text == Front(p.literals, a, ws) + last;
    assert text[|text| - |last|..] == last;
  }

  /** The fronts of a filling lie between those chosen forward and those chosen backward. */
  lemma Sandwich(p: Parts, text: string, fs: seq<string>, bs: seq<string>, c: string, a: string, ws: seq<string>)
    requires Fills(p, fs, "", text) && Fills(p, bs, c, text) && Fills(p, ws, a, text)
    requires TailsLonger(p.literals, 0, fs, ws) && FrontsLonger(p.literals, c, bs, a, ws)
    requires fs == bs
    ensures ws == fs && a == ""
  {
    hide Compose, Front;
    assert c == "";
    forall j | 0 <= j <= |p.keys|
      ensures |Front(p.literals, "", fs[..j])| == |Front(p.literals, a, ws[..j])|
    {
      FrontAndRest(p.literals, "", fs, j);
      FrontAndRest(p.literals, a, ws, j);
      assert TailLonger(p.literals, 0, fs, ws, j);
      assert FrontLonger(p.literals, c, bs, a, ws, j);
    }
    SameEnds(p, text, fs, "", ws, a);
  }

  /** What acceptance comes to: both directions chose the same values, and a map gives them to the keys. */
  lemma AcceptedMeans(p: Parts, text: string, m: Mapping)
    requires p.Valid() && |p.keys| > 0 && LearnParts(p, text) == Ok(m)
    ensures Separated(p) && EndsWith(text, p.literals[|p.keys|])
    ensures ForwardValues(p, 0, text).Some? && Assigns(m, p.keys, ForwardValues(p, 0, text).value)
    ensures BackwardValues(p, |p.keys|, text[..|text| - |p.literals[|p.keys|]|])
         == Some(("", ForwardValues(p, 0, text).value))
  {
    hide Forward, Backward, ForwardValues, BackwardValues;
    var before := text[..|text| - |p.literals[|p.keys|]|];
    var backward := Backward(p, |p.keys|, before, map[]).value;
    ForwardMeans(p, 0, text, map[], m);
    BackwardMeans(p, |p.keys|, before, map[], backward);
    assert p.keys[0..] == p.keys && p.keys[..|p.keys|] == p.keys;
    var fs, bs := ForwardValues(p, 0, text).value, BackwardValues(p, |p.keys|, before).value.1;
    forall i | 0 <= i < |p.keys|
      ensures fs[i] == bs[i]
    {
      assert m[p.keys[i]] == fs[i] && backward[p.keys[i]] == bs[i];
    }
    assert fs == bs;
  }

  /** The only way to fill the placeholders, even if text were allowed ahead of the first literal. */
  ghost predicate OnlyFilling(p: Parts, values: seq<string>, text: string) {
    Fills(p, values, "", text) && forall a, ws :: Fills(p, ws, a, text) ==> a == "" && ws == values
  }

  lemma AcceptedIsOnly(p: Parts, text: string, m: Mapping)
    requires p.Valid() && |p.keys| > 0 && LearnParts(p, text) == Ok(m) && !CloudflareTaken(p, 0, text)
    ensures var values := ForwardValues(p, 0, text);
      values.Some? && OnlyFilling(p, values.value, text) && Assigns(m, p.keys, values.value)
  {
    hide LearnParts, ForwardValues, BackwardValues, Compose, Front, TailsLonger, FrontsLonger, CloudflareTaken, Assigns;
    AcceptedMeans(p, text, m);
    var fs := ForwardValues(p, 0, text).value;
    ForwardFills(p, text);
    forall a, ws | Fills(p, ws, a, text)
      ensures a == "" && ws == fs
    {
      FillingIsChosen(p, text, fs, a, ws);
    }
  }

  /** When the two directions agree, every filling is the one they chose. */
  lemma FillingIsChosen(p: Parts, text: string, fs: seq<string>, a: string, ws: seq<string>)
    requires Separated(p) && |p.keys| > 0 && !CloudflareTaken(p, 0, text)
    requires ForwardValues(p, 0, text) == Some(fs) && Fills(p, fs, "", text) && Fills(p, ws, a, text)
    requires EndsWith(text, p.literals[|p.keys|])
    requires BackwardValues(p, |p.keys|, text[..|text| - |p.literals[|p.keys|]|]) == Some(("", fs))
    ensures a == "" && ws == fs
  {
    hide ForwardValues, BackwardValues, Front, TailsLonger, FrontsLonger, CloudflareTaken;
    FillingEnds(p, text, a, ws);
    var before := text[..|text| - |p.literals[|p.keys|]|];
    assert before == Front(p.literals, a, ws) + "";
    BackwardRightmost(p, |p.keys|, before, a, ws, "");
    TextBegins(p, text, fs);
    ForwardLeftmost(p, 0, text, a, ws);
    Sandwich(p, text, fs, fs, "", a, ws);
  }

  lemma TextBegins(p: Parts, text: string, fs: seq<string>)
    requires Fills(p, fs, "", text)
    ensures StartsWith(text, p.literals[0])
  {
    ComposeHead(p.literals, 0, fs);
    assert text == Compose(p.literals, 0, fs);
  }

  lemma OnlyIsAccepted(p: Parts, text: string, m: Mapping, values: seq<string>)
    requires Separated(p) && |p.keys| > 0 && !CloudflareTaken(p, 0, text)
    requires OnlyFilling(p, values, text) && Assigns(m, p.keys, values)
    ensures LearnParts(p, text) == Ok(m)
  {
    hide ForwardValues, BackwardValues, Forward, Backward, Compose, Front, TailsLonger, FrontsLonger, CloudflareTaken;
    TextBegins(p, text, values);
    assert text == "" + Compose(p.literals, 0, values);
    ForwardLeftmost(p, 0, text, "", values);
    ForwardFills(p, text);
    FillingEnds(p, text, "", values);
    var before := text[..|text| - |p.literals[|p.keys|]|];
    assert before == Front(p.literals, "", values) + "";
    BackwardRightmost(p, |p.keys|, before, "", values, "");
    BackwardFills(p, text, before);
    assert p.keys[0..] == p.keys && p.keys[..|p.keys|] == p.keys;
    ForwardMeans(p, 0, text, map[], m);
    BackwardMeans(p, |p.keys|, before, map[], m);
  }

  /** A map is learned exactly when one and only one sequence of values fills the placeholders, even with text
    * allowed ahead of a first literal, and gives each key one value; the special case for access logs aside. */
  lemma LearnedExactly(p: Parts, text: string, m: Mapping)
    requires p.Valid() && |p.keys| > 0 && !CloudflareTaken(p, 0, text)
    ensures LearnParts(p, text) == Ok(m) <==>
      Separated(p) && exists values :: OnlyFilling(p, values, text) && Assigns(m, p.keys, values)
  {
    hide LearnParts, OnlyFilling, Assigns, CloudflareTaken, ForwardValues;
    if LearnParts(p, text) == Ok(m) {
      AcceptedMeans(p, text, m);
      AcceptedIsOnly(p, text, m);
    }
    if Separated(p) && exists values :: OnlyFilling(p, values, text) && Assigns(m, p.keys, values) {
      var values :| OnlyFilling(p, values, text) && Assigns(m, p.keys, values);
      OnlyIsAccepted(p, text, m, values);
    }
  }

  // ---- Rendering ----

  lemma {:induction false} ComposeShift(literal: string, literals: seq<string>, i: nat, values: seq<string>)
    requires |literals| == i + |values| + 1
    ensures Compose([literal] + literals, i + 1, values) == Compose(literals, i, values)
    decreases |values|
  {
    if values != [] {
      ComposeShift(literal, literals, i + 1, values[1..]);
    }
  }

  lemma CoversFirst(m: Mapping, key: string, keys: seq<string>)
    ensures Covers(m, [key] + keys) <==> key in m && Covers(m, keys)
    ensures Covers(m, [key] + keys) ==> ValuesOf([key] + keys, m) == [m[key]] + ValuesOf(keys, m)
  {
    var all := [key] + keys;
    assert all[0] == key && forall i :: 0 <= i < |keys| ==> all[i + 1] == keys[i];
  }

  /** Rendering puts the values of the map between the literals, if the map has a value for every placeholder. */
  lemma {:induction false} RenderMeans(body: string, m: Mapping, p: Parts)
    requires Split(body) == Ok(p)
    ensures Render(body, m).Ok? <==> Covers(m, p.keys)
    ensures Covers(m, p.keys) ==> Render(body, m) == Ok(Compose(p.literals, 0, ValuesOf(p.keys, m)))
    decreases |body|
  {
    hide NextPlaceholder, Compose, Covers, ValuesOf;
    var next := NextPlaceholder(body);
    if next.Some? {
      var here := next.value.value;
      var q := Split(here.behind).value;
      RenderMeans(here.behind, m, q);
      CoversFirst(m, here.key, q.keys);
      if Covers(m, p.keys) {
        var values := ValuesOf(q.keys, m);
        ComposeShift(here.before, q.literals, 0, values);
        ComposeStep(p.literals, 0, [m[here.key]] + values);
        assert ([m[here.key]] + values)[1..] == values;
      }
    } else {
      RenderNothing(m, body);
    }
  }

  lemma RenderNothing(m: Mapping, body: string)
    ensures Covers(m, []) && ValuesOf([], m) == [] && Compose([body], 0, []) == body
  {
  }

  /** Whatever is learned from a template with placeholders renders the template to the text it was learned from. */
  lemma LearnThenRender(template: string, rendered: string, m: Mapping)
    requires Split(template).Ok? && Split(template).value.keys != []
    requires Learn(template, rendered) == Ok(m)
    ensures Render(template, m) == Ok(WithoutNewline(rendered))
    ensures rendered == Render(template, m).value + (if EndsWith(rendered, "\n") then "\n" else "")
  {
    hide LearnParts, Compose, Split, ForwardValues, BackwardValues;
    NewlineTaken(rendered);
    var p := Split(template).value;
    AcceptedMeans(p, WithoutNewline(rendered), m);
    var values := ForwardValues(p, 0, WithoutNewline(rendered)).value;
    ForwardFills(p, WithoutNewline(rendered));
    RenderMeans(template, m, p);
    assert ValuesOf(p.keys, m) == values;
    assert "" + Compose(p.literals, 0, values) == Compose(p.literals, 0, values);
  }

  lemma NewlineTaken(rendered: string)
    ensures rendered == WithoutNewline(rendered) + (if EndsWith(rendered, "\n") then "\n" else "")
  {
  }

  /** One line break at the end of the rendered text makes no difference. */
  lemma NewlineIgnored(template: string, body: string)
    requires !EndsWith(body, "\n")
    ensures Learn(template, body + "\n") == Learn(template, body)
  {
    hide Split, LearnParts;
    var rendered := body + "\n";
    assert rendered[..|body|] == body && rendered[|body|..] == "\n";
  }

  /** The special case for access logs came up in learning. */
  ghost predicate SpecialCase(template: string, rendered: string) {
    Split(template).Ok? && CloudflareTaken(Split(template).value, 0, WithoutNewline(rendered))
  }

  /** Every map that renders the template to the text gives the placeholders the learned values. */
  ghost predicate OnlyMap(template: string, text: string, keys: seq<string>, m: Mapping) {
    forall m2 | Render(template, m2) == Ok(text) :: SameOn(m, m2, keys)
  }

  ghost predicate SameOn(m: Mapping, m2: Mapping, keys: seq<string>) {
    forall i :: 0 <= i < |keys| ==> keys[i] in m && keys[i] in m2 && m[keys[i]] == m2[keys[i]]
  }

  lemma LearnedIsOnly(template: string, rendered: string, m: Mapping)
    requires Split(template).Ok? && Split(template).value.keys != []
    requires Learn(template, rendered) == Ok(m) && !SpecialCase(template, rendered)
    ensures OnlyMap(template, WithoutNewline(rendered), Split(template).value.keys, m)
  {
    hide LearnParts, Compose, Split, ForwardValues, CloudflareTaken, Render, WithoutNewline;
    var p, text := Split(template).value, WithoutNewline(rendered);
    AcceptedIsOnly(p, text, m);
    var values := ForwardValues(p, 0, text).value;
    forall m2 | Render(template, m2) == Ok(text)
      ensures SameOn(m, m2, p.keys)
    {
      RenderMeans(template, m2, p);
      var others := ValuesOf(p.keys, m2);
      assert "" + Compose(p.literals, 0, others) == Compose(p.literals, 0, others);
      assert Fills(p, others, "", text);
      assert others == values;
    }
  }

  // ---- The special case leaves a choice ----

  lemma {:induction false} TakenValue(p: Parts, i: nat, remaining: string) returns (k: nat, u: string)
    requires p.Valid() && i <= |p.keys| && CloudflareTaken(p, i, remaining) && ForwardValues(p, i, remaining).Some?
    ensures i <= k && k + 1 < |p.keys| && p.keys[k] == ACCESS_LOG
    ensures ForwardValues(p, i, remaining).value[k - i] == u + p.literals[k + 1] + CF_INCLUDE
    decreases |p.keys| - i
  {
    hide CF_INCLUDE, ACCESS_LOG, StartsWith, OccursAt, ValueLength, TakesCloudflare;
    PrefixIsShort(remaining, p.literals[i]);
    var rest := remaining[|p.literals[i]|..];
    var n := ValueLength(p, i, rest).value;
    if i + 1 < |p.keys| {
      ValueFound(p, i, rest);
    }
    if i + 1 < |p.keys| && TakesCloudflare(p, i, rest, IndexOf(rest, p.literals[i + 1]).value) {
      k, u := i, rest[..IndexOf(rest, p.literals[i + 1]).value];
      TakenLength(p, i, rest);
    } else {
      k, u := TakenValue(p, i + 1, rest[n..]);
    }
  }

  lemma ValueFound(p: Parts, i: nat, rest: string)
    requires p.Valid() && i + 1 < |p.keys| && ValueLength(p, i, rest).Ok?
    ensures IndexOf(rest, p.literals[i + 1]).Some?
    ensures IndexOf(rest, p.literals[i + 1]).value + |p.literals[i + 1]| <= |rest|
  {
  }

  lemma TakenLength(p: Parts, i: nat, rest: string)
    requires p.Valid() && i + 1 < |p.keys| && IndexOf(rest, p.literals[i + 1]).Some?
    requires TakesCloudflare(p, i, rest, IndexOf(rest, p.literals[i + 1]).value)
    ensures p.keys[i] == ACCESS_LOG && ValueLength(p, i, rest).Ok?
    ensures rest[..ValueLength(p, i, rest).value]
         == rest[..IndexOf(rest, p.literals[i + 1]).value] + p.literals[i + 1] + CF_INCLUDE
  {
    hide CF_INCLUDE, ACCESS_LOG;
    ValueWithCloudflare(rest, p.literals[i + 1], CF_INCLUDE, IndexOf(rest, p.literals[i + 1]).value);
  }

  lemma ValueWithCloudflare(rest: string, next: string, addition: string, position: nat)
    requires OccursAt(rest, next, position) && StartsWith(rest[position + |next|..], addition + next)
    ensures position + |next| + |addition| <= |rest|
    ensures rest[..position + |next| + |addition|] == rest[..position] + next + addition
  {
    var tail := rest[position + |next|..];
    assert tail[0..|addition + next|][..|addition|] == addition;
    assert rest == rest[..position] + next + tail;
    assert tail[..|addition|] == addition;
  }

  lemma MoveToNext(p: Parts, text: string, vs: seq<string>, k: nat, u: string) returns (ws: seq<string>)
    requires Fills(p, vs, "", text) && k + 1 < |p.keys| && vs[k] == u + p.literals[k + 1] + CF_INCLUDE
    ensures ws == vs[k := u][k + 1 := CF_INCLUDE + p.literals[k + 1] + vs[k + 1]]
    ensures Fills(p, ws, "", text)
  {
    hide CF_INCLUDE, Front, Compose;
    var next := p.literals[k + 1];
    ws := vs[k := u][k + 1 := CF_INCLUDE + next + vs[k + 1]];
    FrontAndRest(p.literals, "", vs, k);
    FrontAndRest(p.literals, "", ws, k);
    assert ws[..k] == vs[..k];
    ComposeTwo(p.literals, k, vs[k..]);
    ComposeTwo(p.literals, k, ws[k..]);
    assert vs[k..][2..] == ws[k..][2..];
    assert vs[k..][0] == vs[k] && vs[k..][1] == vs[k + 1] && ws[k..][0] == ws[k] && ws[k..][1] == ws[k + 1];
    Regroup(p.literals[k], u, next, CF_INCLUDE, vs[k + 1], Compose(p.literals, k + 2, vs[k..][2..]));
  }

  lemma Regroup(literal: string, u: string, next: string, addition: string, v: string, tail: string)
    ensures literal + (u + next + addition) + next + v + tail == literal + u + next + (addition + next + v) + tail
  {
  }

  lemma ComposeTwo(literals: seq<string>, k: nat, values: seq<string>)
    requires |literals| == k + |values| + 1 && |values| >= 2
    ensures Compose(literals, k, values)
         == literals[k] + values[0] + literals[k + 1] + values[1] + Compose(literals, k + 2, values[2..])
  {
    ComposeStep(literals, k, values);
    ComposeStep(literals, k + 1, values[1..]);
    assert values[1..][1..] == values[2..];
    var tail := Compose(literals, k + 2, values[2..]);
    assert literals[k] + values[0] + (literals[k + 1] + values[1] + tail)
        == literals[k] + values[0] + literals[k + 1] + values[1] + tail;
  }

  /** Key `k` stands at one place only. */
  ghost predicate Once(keys: seq<string>, k: nat)
    requires k < |keys|
  {
    forall j :: 0 <= j < |keys| && j != k ==> keys[j] != keys[k]
  }

  /** An access log with a placeholder behind it stands once, and so does that placeholder; others may repeat. */
  ghost predicate LogOnce(keys: seq<string>) {
    forall k :: 0 <= k < |keys| - 1 && keys[k] == ACCESS_LOG ==> Once(keys, k) && Once(keys, k + 1)
  }

  lemma SpecialCaseIsNotOnly(template: string, rendered: string, m: Mapping)
    requires Split(template).Ok? && Split(template).value.keys != [] && LogOnce(Split(template).value.keys)
    requires Learn(template, rendered) == Ok(m) && SpecialCase(template, rendered)
    ensures !OnlyMap(template, WithoutNewline(rendered), Split(template).value.keys, m)
  {
    hide LearnParts, Compose, Split, ForwardValues, BackwardValues, CloudflareTaken, Render, WithoutNewline, CF_INCLUDE, ACCESS_LOG;
    var p, text := Split(template).value, WithoutNewline(rendered);
    AcceptedMeans(p, text, m);
    ForwardFills(p, text);
    var vs := ForwardValues(p, 0, text).value;
    var k, u := TakenValue(p, 0, text);
    var ws := MoveToNext(p, text, vs, k, u);
    assert Once(p.keys, k) && Once(p.keys, k + 1);
    var m2 := m[p.keys[k] := ws[k]][p.keys[k + 1] := ws[k + 1]];
    assert ValuesOf(p.keys, m2) == ws;
    RenderMeans(template, m2, p);
    assert "" + Compose(p.literals, 0, ws) == Compose(p.literals, 0, ws);
    assert |ws[k]| < |vs[k]| by {
      IncludeIsLong();
    }
    assert m[p.keys[k]] == vs[k] && m2[p.keys[k]] == ws[k];
  }

  lemma IncludeIsLong()
    ensures |CF_INCLUDE| > 0
  {
  }

  /** For a template that repeats neither an access log nor the placeholder behind it, the learned map is the only one
    * unless the special case came up. */
  lemma OnlyUnlessSpecial(template: string, rendered: string, m: Mapping)
    requires Split(template).Ok? && Split(template).value.keys != [] && LogOnce(Split(template).value.keys)
    requires Learn(template, rendered) == Ok(m)
    ensures OnlyMap(template, WithoutNewline(rendered), Split(template).value.keys, m) <==> !SpecialCase(template, rendered)
  {
    hide Learn, OnlyMap, Split, SpecialCase, LogOnce;
    if SpecialCase(template, rendered) {
      SpecialCaseIsNotOnly(template, rendered, m);
    } else {
      LearnedIsOnly(template, rendered, m);
    }
  }

  // ---- How a template is cut ----

  lemma KeyCharactersAre(key: string)
    ensures ValidKey(key) <==>
      && |key| >= 1
      && forall i :: 0 <= i < |key| ==>
           var c := key[i] as int;
           0x30 <= c <= 0x39 || 0x41 <= c <= 0x5A || 0x61 <= c <= 0x7A || c == 0x5F
  {
  }

  /** Literals with placeholders between them. */
  function TemplateText(literals: seq<string>, keys: seq<string>): string
    requires |literals| == |keys| + 1
  {
    if keys == [] then literals[0]
    else literals[0] + ("{{" + (keys[0] + ("}}" + TemplateText(literals[1..], keys[1..]))))
  }

  /** Valid keys, and no placeholder begins sooner than where one was written. */
  ghost predicate WellCut(literals: seq<string>, keys: seq<string>)
    requires |literals| == |keys| + 1
  {
    if keys == [] then !Occurs(literals[0], "{{")
    else ValidKey(keys[0]) && !Occurs(literals[0] + "{", "{{") && WellCut(literals[1..], keys[1..])
  }

  lemma FirstAt(s: string, p: string, a: string, b: string)
    requires s == a + (p + b) && |p| == 2 && p[0] == p[1]
    ensures IndexOf(s, p) == Some(|a|) <==> !Occurs(a + [p[0]], p)
  {
    hide IndexOf;
    var front := a + [p[0]];
    assert s[|a|..|a| + 2] == p;
    assert OccursAt(s, p, |a|);
    assert s == front + ([p[1]] + b);
    forall j: int | 0 <= j < |a|
      ensures OccursAt(s, p, j) <==> OccursAt(front, p, j)
    {
      if j + 2 <= |front| {
        assert s[j..j + 2] == front[j..j + 2];
      }
    }
    assert forall j :: j >= |a| ==> !OccursAt(front, p, j);
  }

  lemma KeyEnds(key: string, behind: string)
    requires ValidKey(key)
    ensures IndexOf(key + ("}}" + behind), "}}") == Some(|key|)
  {
    FirstAt(key + ("}}" + behind), "}}", key, behind);
    NoDouble(key + ['}'], "}}");
  }

  lemma NoDouble(front: string, p: string)
    requires |p| == 2 && forall j :: 0 <= j < |front| - 1 ==> front[j] != p[0]
    ensures !Occurs(front, p)
  {
    forall j
      ensures !OccursAt(front, p, j)
    {
      if 0 <= j && j + 2 <= |front| {
        assert front[j..j + 2][0] == front[j];
      }
    }
  }

  /** A placeholder is found exactly where one was written behind text in which none begins. */
  lemma FoundExactly(s: string, p: Placeholder)
    ensures NextPlaceholder(s) == Some(Ok(p)) <==>
      s == p.before + ("{{" + (p.key + ("}}" + p.behind))) && ValidKey(p.key) && !Occurs(p.before + "{", "{{")
  {
    hide ValidKey, IndexOf;
    var rest := p.key + ("}}" + p.behind);
    if NextPlaceholder(s) == Some(Ok(p)) {
      PlaceholderParts(s);
      FirstAt(s, "{{", p.before, rest);
    }
    if s == p.before + ("{{" + rest) && ValidKey(p.key) && !Occurs(p.before + "{", "{{") {
      FirstAt(s, "{{", p.before, rest);
      assert s[..|p.before|] == p.before && s[|p.before| + 2..] == rest;
      KeyEnds(p.key, p.behind);
      assert rest[..|p.key|] == p.key && rest[|p.key| + 2..] == p.behind;
    }
  }

  lemma NoneFoundExactly(s: string)
    ensures NextPlaceholder(s) == None <==> !Occurs(s, "{{")
  {
    hide ValidKey;
  }

  lemma CutFirst(p: Placeholder, literals: seq<string>, keys: seq<string>)
    requires |literals| == |keys| + 1
    ensures TemplateText([p.before] + literals, [p.key] + keys) == p.before + ("{{" + (p.key + ("}}" + TemplateText(literals, keys))))
    ensures WellCut([p.before] + literals, [p.key] + keys)
       <==> ValidKey(p.key) && !Occurs(p.before + "{", "{{") && WellCut(literals, keys)
  {
    hide ValidKey, Occurs;
    var ls, ks := [p.before] + literals, [p.key] + keys;
    assert ls[1..] == literals && ks[1..] == keys;
  }

  /** A template is cut exactly into the literals and keys it is written with. */
  lemma {:induction false} SplitExactly(s: string, p: Parts)
    requires p.Valid()
    ensures Split(s) == Ok(p) <==> WellCut(p.literals, p.keys) && s == TemplateText(p.literals, p.keys)
    decreases |s|, |p.keys|
  {
    hide NextPlaceholder, ValidKey, Occurs, WellCut, TemplateText;
    NoneFoundExactly(s);
    if p.keys == [] {
      NoKeys(p.literals);
      assert p.literals == [p.literals[0]];
      SplitNone(s);
    } else {
      var literals, keys := p.literals[1..], p.keys[1..];
      assert p.literals == [p.literals[0]] + literals && p.keys == [p.keys[0]] + keys;
      var here := Placeholder(p.literals[0], p.keys[0], TemplateText(literals, keys));
      CutFirst(here, literals, keys);
      FoundExactly(s, here);
      if s == TemplateText(p.literals, p.keys) {
        SplitExactly(here.behind, Parts(literals, keys));
      }
      if NextPlaceholder(s).Some? && NextPlaceholder(s).value.Ok? {
        var found := NextPlaceholder(s).value.value;
        FoundExactly(s, found);
        SplitExactly(found.behind, Parts(literals, keys));
      }
    }
  }

  lemma NoKeys(literals: seq<string>)
    requires |literals| == 1
    ensures TemplateText(literals, []) == literals[0]
    ensures WellCut(literals, []) <==> !Occurs(literals[0], "{{")
  {
    hide Occurs;
  }

  lemma SplitNone(s: string)
    ensures Split(s).Ok? && Split(s).value.keys == [] ==> NextPlaceholder(s).None? && Split(s).value == Parts([s], [])
    ensures NextPlaceholder(s).None? ==> Split(s) == Ok(Parts([s], []))
  {
    hide NextPlaceholder;
  }
}
