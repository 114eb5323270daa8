/** The limit of ten lookups (RFC 7208, section 4.6.4): said of the words of a merged record, and of the senders a merge is
  * refused for. */
module SpfLookups {
  import opened Outcomes
  import opened Text
  import opened Spf
  import opened SpfProofs

  // ---- What costs a lookup ----

  /** A receiver has to look something up for mechanisms of these kinds. */
  predicate Costs(kind: Kind) {
    match kind
    case All => false
    case Include => true
    case A => true
    case Mx => true
    case Ptr => true
    case Ip4 => false
    case Ip6 => false
    case Exists => true
  }

  /** A word read as one of those mechanisms, or as a redirection. */
  predicate WordCosts(word: string) {
    match ShapeOf(word)
    case MechanismShape(_, kind, _) => Costs(kind)
    case ModifierShape(name, _) => name == "redirect"
    case NoShape => false
  }

  function CostOf(words: seq<string>): nat {
    if words == [] then 0 else (if WordCosts(words[0]) then 1 else 0) + CostOf(words[1..])
  }

  lemma {:induction false} CostAppend(a: seq<string>, b: seq<string>)
    ensures CostOf(a + b) == CostOf(a) + CostOf(b)
  {
    hide WordCosts;
    if a == [] {
      assert a + b == b;
    } else {
      assert (a + b)[1..] == a[1..] + b;
      CostAppend(a[1..], b);
    }
  }

  lemma CostSnoc(a: seq<string>, word: string)
    ensures CostOf(a + [word]) == CostOf(a) + (if WordCosts(word) then 1 else 0)
  {
    hide WordCosts;
    CostAppend(a, [word]);
    assert [word][1..] == [] && CostOf([]) == 0;
  }

  lemma CostsMeans(kind: Kind)
    ensures LooksUp(kind) <==> Costs(kind)
  {
  }

  /** The kind of a mechanism's key is the kind it was written with. */
  lemma KeyHasKind(names: Names, kind: Kind, rest: string)
    requires kind != All && KeyOf(names, kind, rest).Ok?
    ensures KeyOf(names, kind, rest).value.kind == kind
  {
    hide BeforeSlash, NumberOf, Prefixes, AllDecimal;
  }

  lemma MechanismCosts(names: Names, m: Mechanism)
    requires GoodMechanism(names, m)
    ensures WordCosts(m.text) <==> Costs(m.key.kind)
  {
    hide ShapeOf, KeyOf, IsWord;
    KeyHasKind(names, ShapeOf(m.text).kind, ShapeOf(m.text).rest);
  }

  lemma {:induction false} MechanismsCost(names: Names, mechanisms: seq<Mechanism>)
    requires GoodMechanisms(names, mechanisms)
    ensures CostOf(TextsOf(mechanisms)) == Lookups(mechanisms)
  {
    hide WordCosts, GoodMechanism, LooksUp;
    if mechanisms != [] {
      var k := |mechanisms| - 1;
      MechanismsCost(names, mechanisms[..k]);
      assert TextsOf(mechanisms) == TextsOf(mechanisms[..k]) + [mechanisms[k].text];
      CostSnoc(TextsOf(mechanisms[..k]), mechanisms[k].text);
      MechanismCosts(names, mechanisms[k]);
      CostsMeans(mechanisms[k].key.kind);
    }
  }

  lemma {:induction false} ModifiersCost(names: Names, modifiers: seq<Modifier>)
    requires GoodModifiers(names, modifiers)
    ensures CostOf(ModifierTexts(modifiers)) == Redirects(modifiers)
  {
    hide ShapeOf, DomainOf, IsWord;
    if modifiers != [] {
      var k := |modifiers| - 1;
      ModifiersCost(names, modifiers[..k]);
      assert GoodModifier(names, modifiers[k]);
      assert ModifierTexts(modifiers) == ModifierTexts(modifiers[..k]) + [modifiers[k].text];
      CostSnoc(ModifierTexts(modifiers[..k]), modifiers[k].text);
    }
  }

  lemma VersionCosts()
    ensures !WordCosts("v=spf1")
  {
    var text := "v=spf1";
    assert IsNameChar('v') && !IsNameChar('=');
    assert NameEnd(text, 1) == 1 && NameEnd(text, 0) == 1;
    assert text[..1] == "v" && Lowered("v") == "v";
    assert "v"[0] != "redirect"[0];
  }

  lemma AllCosts(r: Record)
    requires r.all.Some? ==> GoodAll(r.all.value)
    ensures CostOf(AllTexts(r)) == 0
  {
    hide ShapeOf, IsWord;
    if r.all.Some? {
      assert [r.all.value.text][1..] == [];
    }
  }

  /** Written out, a record has as many words that cost a lookup as were counted in it. */
  lemma WrittenCosts(names: Names, r: Record)
    requires Good(names, r)
    ensures CostOf(Words(Written(r))) == Lookups(r.mechanisms) + Redirects(r.modifiers)
  {
    hide WordCosts, Words, Joined, Lookups, Redirects, GoodMechanisms, GoodModifiers, ModifiersDiffer, GoodAll, AreWords, CostOf;
    var a, b, c := TextsOf(r.mechanisms), AllTexts(r), ModifierTexts(r.modifiers);
    TextsAreWords(names, r);
    WordsJoined(["v=spf1"] + a + b + c);
    VersionCosts();
    CostSnoc([], "v=spf1");
    NothingCosts();
    assert [] + ["v=spf1"] == ["v=spf1"];
    CostAppend(["v=spf1"], a);
    CostAppend(["v=spf1"] + a, b);
    CostAppend(["v=spf1"] + a + b, c);
    MechanismsCost(names, r.mechanisms);
    AllCosts(r);
    ModifiersCost(names, r.modifiers);
  }

  lemma NothingCosts()
    ensures CostOf([]) == 0
  {
  }

  /** A merged record has at most ten words that are read as include, a, mx, ptr, exists or redirect. */
  lemma AtMostTen(names: Names, required: string, existing: seq<string>)
    requires existing != [] && Merging(names, required, existing).Ok?
    ensures CostOf(Words(Merging(names, required, existing).value.value)) <= 10
  {
    hide ParseRecord, Good, Lookups, Redirects, SomeHasKey, HasKey, Written, AddingAll, KeysDiffer, EndingOf, CostOf, Words, EndAlike;
    ParsedGood(names, required);
    AllParsed(names, existing);
    var wanted, current := ParseRecord(names, required).value, ParseAll(names, existing).value;
    AllOfThem(names, wanted, current);
    WrittenCosts(names, Merged(wanted, current));
  }

  // ---- How many lookups a merge needs ----

  /** The senders that cost a lookup, of all the records together. */
  ghost function CostlySenders(records: seq<Record>): set<Key> {
    set i, j | 0 <= i < |records| && 0 <= j < |records[i].mechanisms| && Costs(records[i].mechanisms[j].key.kind)
      :: records[i].mechanisms[j].key
  }

  ghost function CostlyKeys(mechanisms: seq<Mechanism>): set<Key> {
    set i | 0 <= i < |mechanisms| && Costs(mechanisms[i].key.kind) :: mechanisms[i].key
  }

  lemma {:induction false} CostlyCounted(mechanisms: seq<Mechanism>)
    requires KeysDiffer(mechanisms)
    ensures |CostlyKeys(mechanisms)| == Lookups(mechanisms)
  {
    hide LooksUp, Costs;
    if mechanisms == [] {
      assert CostlyKeys(mechanisms) == {};
    } else {
      var k := |mechanisms| - 1;
      var front, key := mechanisms[..k], mechanisms[k].key;
      CostlyCounted(front);
      CostsMeans(key.kind);
      CostlySnoc(mechanisms);
      assert key !in CostlyKeys(front);
    }
  }

  lemma CostlySnoc(mechanisms: seq<Mechanism>)
    requires mechanisms != []
    ensures
      var k := |mechanisms| - 1;
      CostlyKeys(mechanisms) == CostlyKeys(mechanisms[..k]) + (if Costs(mechanisms[k].key.kind) then {mechanisms[k].key} else {})
  {
    hide Costs;
    var k := |mechanisms| - 1;
    assert mechanisms == mechanisms[..k] + [mechanisms[k]];
    forall key | key in CostlyKeys(mechanisms[..k])
      ensures key in CostlyKeys(mechanisms)
    {
      var i :| 0 <= i < k && Costs(mechanisms[..k][i].key.kind) && mechanisms[..k][i].key == key;
      assert mechanisms[i].key == key;
    }
    forall key | key in CostlyKeys(mechanisms)
      ensures key in CostlyKeys(mechanisms[..k]) || (Costs(mechanisms[k].key.kind) && key == mechanisms[k].key)
    {
      var i :| 0 <= i < |mechanisms| && Costs(mechanisms[i].key.kind) && mechanisms[i].key == key;
      if i < k {
        assert mechanisms[..k][i].key == key;
      }
    }
  }

  lemma CostlyMembers(mechanisms: seq<Mechanism>, key: Key)
    ensures key in CostlyKeys(mechanisms) <==> HasKey(mechanisms, key) && Costs(key.kind)
  {
  }

  lemma CostlyOfRecords(records: seq<Record>, key: Key)
    ensures key in CostlySenders(records) <==> SomeHasKey(records, key) && Costs(key.kind)
  {
    hide Costs;
    if SomeHasKey(records, key) && Costs(key.kind) {
      var i :| 0 <= i < |records| && HasKey(records[i].mechanisms, key);
      var j :| 0 <= j < |records[i].mechanisms| && records[i].mechanisms[j].key == key;
      assert records[i].mechanisms[j].key in CostlySenders(records);
    }
    if key in CostlySenders(records) {
      var i, j :| 0 <= i < |records| && 0 <= j < |records[i].mechanisms| && Costs(records[i].mechanisms[j].key.kind)
        && records[i].mechanisms[j].key == key;
      assert HasKey(records[i].mechanisms, key);
    }
  }

  /** The lookups of a merged record are those of its senders, each once. */
  lemma MergedCosts(names: Names, wanted: Record, current: seq<Record>)
    requires current != [] && Good(names, wanted) && AllGood(names, current)
    ensures Lookups(Merged(wanted, current).mechanisms) == |CostlySenders(current + [wanted])|
  {
    hide Good, HasKey, AddingAll, Lookups, KeysDiffer, Costs, SomeHasKey, CostlyKeys, CostlySenders;
    var merged := Merged(wanted, current);
    AllOfThem(names, wanted, current);
    CostlyCounted(merged.mechanisms);
    forall key
      ensures key in CostlyKeys(merged.mechanisms) <==> key in CostlySenders(current + [wanted])
    {
      CostlyMembers(merged.mechanisms, key);
      CostlyOfRecords(current + [wanted], key);
    }
    assert CostlyKeys(merged.mechanisms) == CostlySenders(current + [wanted]);
  }

  lemma {:induction false} NoRedirects(modifiers: seq<Modifier>)
    requires ModifiersDiffer(modifiers)
    ensures Redirects(modifiers) == if HasModifier(modifiers, "redirect") then 1 else 0
  {
    if modifiers != [] {
      var k := |modifiers| - 1;
      NoRedirects(modifiers[..k]);
      assert modifiers == modifiers[..k] + [modifiers[k]];
      if HasModifier(modifiers[..k], "redirect") {
        var i :| 0 <= i < k && modifiers[..k][i].name == "redirect";
        assert modifiers[i].name == "redirect";
      }
    }
  }

  /** How many lookups the records need together: one for each sender that costs one, and one for a redirection. */
  ghost function Needed(wanted: Record, current: seq<Record>): nat
    requires current != []
  {
    |CostlySenders(current + [wanted])| + (if HasModifier(current[0].modifiers, "redirect") then 1 else 0)
  }

  ghost predicate AllEndAs(current: seq<Record>) {
    forall i, j :: 0 <= i < |current| && 0 <= j < |current| ==> EndingOf(current[i]) == EndingOf(current[j])
  }

  lemma EndAlikeMeans(current: seq<Record>)
    ensures EndAlike(current) <==> AllEndAs(current)
  {
    hide EndingOf;
  }

  /**
   * When a merge is refused, and for what: the first of a profile that does not parse, a published record that does not, records
   * that end differently, and more than ten lookups, counted over the distinct senders of all the records.
   */
  lemma RefusedExactly(names: Names, required: string, existing: seq<string>)
    ensures
      var wanted, current, r := ParseRecord(names, required), ParseAll(names, existing), Merging(names, required, existing);
      var both := existing != [] && wanted.Ok? && current.Ok?;
      && (forall p :: r == Err(ProfileUnusable(p)) <==> wanted == Err(p))
      && (forall p :: r == Err(PublishedUnusable(p)) <==> existing != [] && wanted.Ok? && current == Err(p))
      && (r == Err(EndDifferently) <==> both && !AllEndAs(current.value))
      && (forall n :: r == Err(TooManyLookups(n)) <==>
            both && AllEndAs(current.value) && n == Needed(wanted.value, current.value) && n > 10)
  {
    hide ParseRecord, EndAlike, AllEndAs, Good, AllGood, Lookups, Redirects, Written, Adding, AddingAll, CostlySenders, HasModifier;
    hide Words, Joined;
    var wanted, current := ParseRecord(names, required), ParseAll(names, existing);
    if existing != [] && wanted.Ok? && current.Ok? {
      ParsedGood(names, required);
      AllParsed(names, existing);
      EndAlikeMeans(current.value);
      MergedCosts(names, wanted.value, current.value);
      FirstDiffers(names, current.value);
      NoRedirects(current.value[0].modifiers);
    }
  }

  lemma FirstDiffers(names: Names, current: seq<Record>)
    requires current != [] && AllGood(names, current)
    ensures ModifiersDiffer(current[0].modifiers)
  {
    hide GoodMechanisms, GoodModifiers, ModifiersDiffer, GoodAll;
    assert Good(names, current[0]);
  }

  /** Every record parses, as far as the `k`th, which does not. */
  ghost predicate FirstBad(names: Names, existing: seq<string>, k: nat, problem: Problem) {
    && k < |existing| && ParseRecord(names, existing[k]) == Err(problem)
    && forall j :: 0 <= j < k ==> ParseRecord(names, existing[j]).Ok?
  }

  ghost predicate AllParse(names: Names, existing: seq<string>) {
    forall j :: 0 <= j < |existing| ==> ParseRecord(names, existing[j]).Ok?
  }

  /** The problem of the published records is that of the first that does not parse. */
  lemma {:induction false} PublishedExactly(names: Names, existing: seq<string>, problem: Problem)
    ensures ParseAll(names, existing).Ok? <==> AllParse(names, existing)
    ensures ParseAll(names, existing) == Err(problem) <==> exists k :: FirstBad(names, existing, k, problem)
  {
    hide ParseRecord;
    if existing != [] {
      var n := |existing| - 1;
      var front := existing[..n];
      PublishedExactly(names, front, problem);
      assert forall j :: 0 <= j < n ==> front[j] == existing[j];
      forall k: nat | k < n
        ensures FirstBad(names, existing, k, problem) <==> FirstBad(names, front, k, problem)
      {
      }
      assert FirstBad(names, existing, n, problem) <==> AllParse(names, front) && ParseRecord(names, existing[n]) == Err(problem);
    }
  }
}
