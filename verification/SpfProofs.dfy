/** What a merged SPF record means: it parses again, passes exactly the senders it should, ends as before, and merges once. */
module SpfProofs {
  import opened Outcomes
  import opened Text
  import opened Spf

  // ---- Words ----

  ghost predicate IsWord(w: string) {
    w != "" && (forall i :: 0 <= i < |w| ==> !IsSpace(w[i])) && '%' !in w
  }

  ghost predicate AreWords(words: seq<string>) {
    forall i :: 0 <= i < |words| ==> IsWord(words[i])
  }

  lemma {:induction false} RunEndIs(s: string, i: nat, spaces: bool, j: nat)
    requires i <= j <= |s| && (forall k :: i <= k < j ==> IsSpace(s[k]) == spaces)
    requires j < |s| ==> IsSpace(s[j]) != spaces
    ensures RunEnd(s, i, spaces) == j
    decreases j - i
  {
    hide IsSpace;
    if i < j {
      RunEndIs(s, i + 1, spaces, j);
    }
  }

  lemma FirstWord(w: string, rest: string)
    requires IsWord(w) && (rest == "" || IsSpace(rest[0]))
    ensures Words(w + rest) == [w] + Words(rest)
  {
    hide IsSpace;
    var s := w + rest;
    assert !IsSpace(w[0]);
    RunEndIs(s, 0, true, 0);
    assert forall k :: 0 <= k < |w| ==> s[k] == w[k];
    RunEndIs(s, 0, false, |w|);
    assert s[0..|w|] == w && s[|w|..] == rest;
  }

  lemma {:induction false} RunEndAll(s: string, i: nat, spaces: bool)
    requires i <= |s|
    ensures forall k :: i <= k < RunEnd(s, i, spaces) ==> IsSpace(s[k]) == spaces
    decreases |s| - i
  {
    hide IsSpace;
    if i < |s| && IsSpace(s[i]) == spaces {
      RunEndAll(s, i + 1, spaces);
    }
  }

  lemma SkipSpace(s: string)
    ensures Words(" " + s) == Words(s)
  {
    hide IsSpace, RunEnd, Words;
    var t := " " + s;
    var from := RunEnd(s, 0, true);
    RunEndSpace(s);
    if from == |s| {
      WordsNone(s);
      WordsNone(t);
    } else {
      var to := RunEnd(s, from, false);
      RunEndShift(s, from, false);
      WordsAt(s, from, to);
      WordsAt(t, from + 1, to + 1);
      assert t[from + 1..to + 1] == s[from..to] && t[to + 1..] == s[to..];
    }
  }

  lemma RunEndSpace(s: string)
    ensures RunEnd(" " + s, 0, true) == RunEnd(s, 0, true) + 1
  {
    hide IsSpace;
    SpaceIsSpace();
    RunEndShift(s, 0, true);
    assert (" " + s)[0] == ' ';
  }

  lemma WordsNone(s: string)
    requires RunEnd(s, 0, true) == |s|
    ensures Words(s) == []
  {
    hide IsSpace, RunEnd;
  }

  lemma {:induction false} RunEndShift(s: string, i: nat, spaces: bool)
    requires i <= |s|
    ensures RunEnd(" " + s, i + 1, spaces) == RunEnd(s, i, spaces) + 1
    decreases |s| - i
  {
    hide IsSpace;
    if i < |s| {
      assert (" " + s)[i + 1] == s[i];
      RunEndShift(s, i + 1, spaces);
    }
  }

  /** The first word, where it is known. */
  lemma WordsAt(s: string, from: nat, to: nat)
    requires from < |s| && RunEnd(s, 0, true) == from && RunEnd(s, from, false) == to
    ensures to <= |s| && Words(s) == [s[from..to]] + Words(s[to..])
  {
    hide IsSpace, RunEnd;
  }

  lemma SpaceIsSpace()
    ensures IsSpace(' ')
  {
  }

  /** Words written with a space between them are read back. */
  lemma {:induction false} WordsJoined(words: seq<string>)
    requires AreWords(words)
    ensures Words(Joined(words)) == words
    decreases |words|
  {
    hide IsWord, Words, IsSpace;
    if words == [] {
      NoWords();
    } else if |words| == 1 {
      FirstWord(words[0], "");
      NoWords();
      assert words[0] + "" == words[0];
    } else {
      var rest := Joined(words[1..]);
      SpaceIsSpace();
      FirstWord(words[0], " " + rest);
      SkipSpace(rest);
      WordsJoined(words[1..]);
      assert words[0] + " " + rest == words[0] + (" " + rest);
    }
  }

  lemma NoWords()
    ensures Words("") == []
  {
  }

  lemma {:induction false} JoinedChars(words: seq<string>)
    requires AreWords(words)
    ensures '%' !in Joined(words)
    decreases |words|
  {
    hide IsSpace;
    if |words| > 1 {
      assert AreWords(words[1..]);
      JoinedChars(words[1..]);
    }
  }

  lemma {:induction false} WordsAre(s: string)
    requires '%' !in s
    ensures AreWords(Words(s))
    decreases |s|
  {
    hide IsSpace;
    var from := RunEnd(s, 0, true);
    if from < |s| {
      var to := RunEnd(s, from, false);
      assert '%' !in s[to..];
      WordsAre(s[to..]);
      RunIsWord(s, from);
      WordsAt(s, from, to);
    }
  }

  lemma RunIsWord(s: string, from: nat)
    requires '%' !in s && from < |s| && !IsSpace(s[from])
    ensures IsWord(s[from..RunEnd(s, from, false)])
  {
    hide IsSpace;
    RunEndAll(s, from, false);
    var w := s[from..RunEnd(s, from, false)];
    assert forall i :: 0 <= i < |w| ==> w[i] == s[from + i];
  }

  // ---- Records that come from parsing ----

  ghost predicate GoodMechanism(names: Names, m: Mechanism) {
    && IsWord(m.text)
    && var shape := ShapeOf(m.text);
      shape.MechanismShape? && shape.kind != All && shape.qualifier == '+' && KeyOf(names, shape.kind, shape.rest) == Ok(m.key)
  }

  ghost predicate GoodAll(all: AllTerm) {
    IsWord(all.text) && ShapeOf(all.text) == MechanismShape(all.qualifier, All, "")
  }

  ghost predicate GoodModifier(names: Names, m: Modifier) {
    && IsWord(m.text)
    && var shape := ShapeOf(m.text);
      && shape.ModifierShape? && shape.name == m.name
      && (if m.name == "redirect" || m.name == "exp" then DomainOf(names, shape.value) == Ok(m.value) else shape.value == m.value)
  }

  ghost predicate GoodMechanisms(names: Names, mechanisms: seq<Mechanism>) {
    forall i :: 0 <= i < |mechanisms| ==> GoodMechanism(names, mechanisms[i])
  }

  ghost predicate GoodModifiers(names: Names, modifiers: seq<Modifier>) {
    forall i :: 0 <= i < |modifiers| ==> GoodModifier(names, modifiers[i])
  }

  ghost predicate ModifiersDiffer(modifiers: seq<Modifier>) {
    forall i, j :: 0 <= i < j < |modifiers| ==> modifiers[i].name != modifiers[j].name
  }

  ghost predicate Good(names: Names, r: Record) {
    && GoodMechanisms(names, r.mechanisms) && GoodModifiers(names, r.modifiers) && ModifiersDiffer(r.modifiers)
    && (r.all.Some? ==> GoodAll(r.all.value))
  }

  lemma StepGood(names: Names, r: Record, text: string)
    requires Good(names, r) && IsWord(text) && Step(names, r, text).Ok?
    ensures Good(names, Step(names, r, text).value)
  {
    hide ShapeOf, KeyOf, DomainOf, IsWord;
  }

  lemma {:induction false} StepsGood(names: Names, r: Record, terms: seq<string>)
    requires Good(names, r) && AreWords(terms) && Steps(names, r, terms).Ok?
    ensures Good(names, Steps(names, r, terms).value)
    decreases |terms|
  {
    hide Good, Step, IsWord;
    if terms != [] {
      StepGood(names, r, terms[0]);
      StepsGood(names, Step(names, r, terms[0]).value, terms[1..]);
    }
  }

  lemma ParsedGood(names: Names, record: string)
    requires ParseRecord(names, record).Ok?
    ensures Good(names, ParseRecord(names, record).value)
  {
    hide Step, IsWord;
    WordsAre(record);
    StepsGood(names, EMPTY, Terms(record));
  }

  lemma {:induction false} StepsOver(names: Names, r: Record, a: seq<string>, b: seq<string>)
    requires Steps(names, r, a).Ok?
    ensures Steps(names, r, a + b) == Steps(names, Steps(names, r, a).value, b)
    decreases |a|
  {
    hide Step;
    if a == [] {
      assert a + b == b;
    } else {
      assert (a + b)[0] == a[0] && (a + b)[1..] == a[1..] + b;
      StepsOver(names, Step(names, r, a[0]).value, a[1..], b);
    }
  }

  lemma {:induction false} MechanismsAgain(names: Names, r: Record, more: seq<Mechanism>)
    requires GoodMechanisms(names, more) && r.all.None?
    ensures Steps(names, r, TextsOf(more)) == Ok(r.(mechanisms := r.mechanisms + more))
    decreases |more|
  {
    hide ShapeOf, KeyOf, IsWord;
    if more == [] {
      assert r.mechanisms + more == r.mechanisms;
    } else {
      assert GoodMechanism(names, more[0]);
      var next := r.(mechanisms := r.mechanisms + [more[0]]);
      assert Mechanism(more[0].text, more[0].key) == more[0];
      assert Step(names, r, more[0].text) == Ok(next);
      assert TextsOf(more)[1..] == TextsOf(more[1..]);
      MechanismsAgain(names, next, more[1..]);
      assert r.mechanisms + more == r.mechanisms + [more[0]] + more[1..];
    }
  }

  lemma {:induction false} ModifiersAgain(names: Names, r: Record, more: seq<Modifier>)
    requires GoodModifiers(names, more) && ModifiersDiffer(r.modifiers + more)
    ensures Steps(names, r, ModifierTexts(more)) == Ok(r.(modifiers := r.modifiers + more))
    decreases |more|
  {
    hide ShapeOf, DomainOf, IsWord;
    if more == [] {
      assert r.modifiers + more == r.modifiers;
    } else {
      var m := more[0];
      assert GoodModifier(names, m);
      var next := r.(modifiers := r.modifiers + [m]);
      assert (r.modifiers + more)[|r.modifiers|] == m;
      assert forall i :: 0 <= i < |r.modifiers| ==> (r.modifiers + more)[i] == r.modifiers[i];
      assert !HasModifier(r.modifiers, m.name);
      assert Modifier(m.text, m.name, m.value) == m;
      assert Step(names, r, m.text) == Ok(next);
      assert ModifierTexts(more)[1..] == ModifierTexts(more[1..]);
      assert r.modifiers + more == r.modifiers + [m] + more[1..];
      ModifiersAgain(names, next, more[1..]);
    }
  }

  function AllTexts(r: Record): seq<string> {
    if r.all.Some? then [r.all.value.text] else []
  }

  lemma AllAgain(names: Names, r: Record, all: Option<AllTerm>)
    requires r.all.None? && (all.Some? ==> GoodAll(all.value))
    ensures Steps(names, r, AllTexts(r.(all := all))) == Ok(r.(all := all))
  {
    hide ShapeOf, KeyOf, IsWord;
    if all.Some? {
      assert AllTerm(all.value.text, all.value.qualifier) == all.value;
      assert [all.value.text][1..] == [];
    }
  }

  lemma VersionIsWord()
    ensures IsWord("v=spf1")
  {
  }

  lemma TextsAreWords(names: Names, r: Record)
    requires Good(names, r)
    ensures AreWords(["v=spf1"] + TextsOf(r.mechanisms) + AllTexts(r) + ModifierTexts(r.modifiers))
  {
    hide ShapeOf, KeyOf, DomainOf, IsWord;
    VersionIsWord();
    assert forall i :: 0 <= i < |r.mechanisms| ==> GoodMechanism(names, r.mechanisms[i]);
    assert forall i :: 0 <= i < |r.modifiers| ==> GoodModifier(names, r.modifiers[i]);
  }

  /** A record that came from parsing, written out, parses to itself. */
  lemma WrittenParses(names: Names, r: Record)
    requires Good(names, r)
    ensures ParseRecord(names, Written(r)) == Ok(r)
  {
    hide Step, IsWord, GoodMechanism, GoodModifier, GoodAll, Words, Joined, Steps;
    var a, b, c := TextsOf(r.mechanisms), AllTexts(r), ModifierTexts(r.modifiers);
    var words := ["v=spf1"] + a + b + c;
    TextsAreWords(names, r);
    WordsJoined(words);
    JoinedChars(words);
    assert words[1..] == a + b + c;
    var r1 := EMPTY.(mechanisms := r.mechanisms);
    var r2 := r1.(all := r.all);
    MechanismsAgain(names, EMPTY, r.mechanisms);
    assert EMPTY.mechanisms + r.mechanisms == r.mechanisms;
    AllAgain(names, r1, r.all);
    assert AllTexts(r2) == b;
    assert r2.modifiers + r.modifiers == r.modifiers;
    ModifiersAgain(names, r2, r.modifiers);
    StepsOver(names, EMPTY, a, b);
    StepsOver(names, EMPTY, a + b, c);
  }

  // ---- The senders kept ----

  ghost predicate KeysDiffer(mechanisms: seq<Mechanism>) {
    forall i, j :: 0 <= i < j < |mechanisms| ==> mechanisms[i].key != mechanisms[j].key
  }

  lemma {:induction false} AddingMeans(names: Names, kept: seq<Mechanism>, more: seq<Mechanism>)
    requires KeysDiffer(kept) && GoodMechanisms(names, kept) && GoodMechanisms(names, more)
    ensures
      var all := Adding(kept, more);
      && KeysDiffer(all) && GoodMechanisms(names, all) && kept <= all
      && (forall key :: HasKey(all, key) <==> HasKey(kept, key) || HasKey(more, key))
      && (|all| == |kept| <==> forall i :: 0 <= i < |more| ==> HasKey(kept, more[i].key))
    decreases |more|
  {
    hide GoodMechanism;
    if more != [] {
      var next := if HasKey(kept, more[0].key) then kept else kept + [more[0]];
      HasKeyCons(kept, more);
      AddingMeans(names, next, more[1..]);
      assert forall i :: 1 <= i < |more| ==> more[i] == more[1..][i - 1];
    }
  }

  lemma HasKeyCons(kept: seq<Mechanism>, more: seq<Mechanism>)
    requires more != []
    ensures forall key :: HasKey(more, key) <==> more[0].key == key || HasKey(more[1..], key)
    ensures forall key :: HasKey(kept + [more[0]], key) <==> HasKey(kept, key) || more[0].key == key
  {
    forall key
      ensures HasKey(more, key) <==> more[0].key == key || HasKey(more[1..], key)
      ensures HasKey(kept + [more[0]], key) <==> HasKey(kept, key) || more[0].key == key
    {
      if HasKey(more, key) {
        var i :| 0 <= i < |more| && more[i].key == key;
        if i > 0 {
          assert more[1..][i - 1].key == key;
        }
      }
      if HasKey(more[1..], key) {
        var i :| 0 <= i < |more[1..]| && more[1..][i].key == key;
        assert more[i + 1].key == key;
      }
      var one := kept + [more[0]];
      if HasKey(kept, key) {
        var i :| 0 <= i < |kept| && kept[i].key == key;
        assert one[i].key == key;
      }
      assert one[|kept|].key == more[0].key;
    }
  }

  ghost predicate SomeHasKey(records: seq<Record>, key: Key) {
    exists i :: 0 <= i < |records| && HasKey(records[i].mechanisms, key)
  }

  ghost predicate AllGood(names: Names, records: seq<Record>) {
    forall i :: 0 <= i < |records| ==> Good(names, records[i])
  }

  lemma {:induction false} AddingAllMeans(names: Names, kept: seq<Mechanism>, records: seq<Record>)
    requires KeysDiffer(kept) && GoodMechanisms(names, kept) && AllGood(names, records)
    ensures
      var all := AddingAll(kept, records);
      && KeysDiffer(all) && GoodMechanisms(names, all) && kept <= all
      && (forall key :: HasKey(all, key) <==> HasKey(kept, key) || SomeHasKey(records, key))
      && (|all| == |kept| <==> forall key :: SomeHasKey(records, key) ==> HasKey(kept, key))
    decreases |records|
  {
    hide GoodMechanisms, KeysDiffer, HasKey, Adding, GoodModifiers, ModifiersDiffer, GoodAll;
    if records != [] {
      var first := records[0].mechanisms;
      assert Good(names, records[0]);
      AddingMeans(names, kept, first);
      var next := Adding(kept, first);
      AddingAllMeans(names, next, records[1..]);
      var all := AddingAll(kept, records);
      SomeHasCons(records);
      SameSize(kept, first, next);
    }
  }

  lemma SomeHasCons(records: seq<Record>)
    requires records != []
    ensures forall key :: SomeHasKey(records, key) <==> HasKey(records[0].mechanisms, key) || SomeHasKey(records[1..], key)
  {
    hide HasKey;
    forall key
      ensures SomeHasKey(records, key) <==> HasKey(records[0].mechanisms, key) || SomeHasKey(records[1..], key)
    {
      if SomeHasKey(records, key) {
        var i :| 0 <= i < |records| && HasKey(records[i].mechanisms, key);
        if i > 0 {
          assert HasKey(records[1..][i - 1].mechanisms, key);
        }
      }
      if SomeHasKey(records[1..], key) {
        var i :| 0 <= i < |records[1..]| && HasKey(records[1..][i].mechanisms, key);
        assert HasKey(records[i + 1].mechanisms, key);
      }
    }
  }

  lemma SameSize(kept: seq<Mechanism>, more: seq<Mechanism>, next: seq<Mechanism>)
    requires |next| == |kept| <==> forall i :: 0 <= i < |more| ==> HasKey(kept, more[i].key)
    ensures |next| == |kept| <==> forall key :: HasKey(more, key) ==> HasKey(kept, key)
  {
    assert forall i :: 0 <= i < |more| ==> HasKey(more, more[i].key);
  }

  // ---- What a record says of a sender (RFC 7208, sections 4.6.2, 5.1 and 6.1) ----

  datatype Verdict = Pass | Fail | SoftFail | Neutral | Redirect(domain: string)

  function VerdictOf(qualifier: char): Verdict {
    if qualifier == '-' then Fail else if qualifier == '~' then SoftFail else if qualifier == '?' then Neutral else Pass
  }

  function RedirectOf(modifiers: seq<Modifier>): Verdict {
    if modifiers == [] then Neutral
    else if modifiers[0].name == "redirect" then Redirect(modifiers[0].value)
    else RedirectOf(modifiers[1..])
  }

  /** What is said of a sender that no mechanism matches: by `all`, or else by a redirection. */
  function EndsIn(r: Record): Verdict {
    match r.all
    case Some(all) => VerdictOf(all.qualifier)
    case None => RedirectOf(r.modifiers)
  }

  /** The mechanisms are evaluated from left to right, and the first that matches decides. */
  function Evaluate<S>(mechanisms: seq<Mechanism>, otherwise: Verdict, matches: (Key, S) -> bool, sender: S): Verdict {
    if mechanisms == [] then otherwise
    else if matches(mechanisms[0].key, sender) then Pass
    else Evaluate(mechanisms[1..], otherwise, matches, sender)
  }

  function Judge<S>(r: Record, matches: (Key, S) -> bool, sender: S): Verdict {
    Evaluate(r.mechanisms, EndsIn(r), matches, sender)
  }

  predicate Passes<S>(r: Record, matches: (Key, S) -> bool, sender: S) {
    exists i :: 0 <= i < |r.mechanisms| && matches(r.mechanisms[i].key, sender)
  }

  ghost predicate SomePasses<S>(records: seq<Record>, matches: (Key, S) -> bool, sender: S) {
    exists i :: 0 <= i < |records| && Passes(records[i], matches, sender)
  }

  lemma {:induction false} JudgeIs<S>(mechanisms: seq<Mechanism>, otherwise: Verdict, matches: (Key, S) -> bool, sender: S)
    ensures Evaluate(mechanisms, otherwise, matches, sender)
         == if exists i :: 0 <= i < |mechanisms| && matches(mechanisms[i].key, sender) then Pass else otherwise
  {
    if mechanisms != [] && !matches(mechanisms[0].key, sender) {
      JudgeIs(mechanisms[1..], otherwise, matches, sender);
      assert forall i :: 1 <= i < |mechanisms| ==> mechanisms[i] == mechanisms[1..][i - 1];
    }
  }

  predicate Lists(modifiers: seq<Modifier>, name: string, value: string) {
    exists i :: 0 <= i < |modifiers| && modifiers[i].name == name && modifiers[i].value == value
  }

  lemma {:induction false} PairsMean(modifiers: seq<Modifier>)
    ensures forall name, value :: (name, value) in Pairs(modifiers) <==> Lists(modifiers, name, value)
  {
    if modifiers != [] {
      PairsMean(modifiers[..|modifiers| - 1]);
    }
  }

  lemma {:induction false} RedirectOfMeans(modifiers: seq<Modifier>)
    ensures RedirectOf(modifiers) == Neutral <==> forall i :: 0 <= i < |modifiers| ==> modifiers[i].name != "redirect"
    ensures RedirectOf(modifiers) == Neutral
         || (RedirectOf(modifiers).Redirect? && Lists(modifiers, "redirect", RedirectOf(modifiers).domain))
  {
    if modifiers != [] {
      RedirectOfMeans(modifiers[1..]);
      assert forall i :: 1 <= i < |modifiers| ==> modifiers[i] == modifiers[1..][i - 1];
    }
  }

  lemma SamePairsSameRedirect(a: seq<Modifier>, b: seq<Modifier>)
    requires ModifiersDiffer(a) && ModifiersDiffer(b) && Pairs(a) == Pairs(b)
    ensures RedirectOf(a) == RedirectOf(b)
  {
    hide Pairs, RedirectOf;
    RedirectOfMeans(a);
    RedirectOfMeans(b);
    PairsMean(a);
    PairsMean(b);
    if RedirectOf(a) != Neutral {
      assert ("redirect", RedirectOf(a).domain) in Pairs(b);
    }
    if RedirectOf(b) != Neutral {
      assert ("redirect", RedirectOf(b).domain) in Pairs(a);
    }
  }

  lemma SameEnding(names: Names, a: Record, b: Record)
    requires Good(names, a) && Good(names, b) && EndingOf(a) == EndingOf(b)
    ensures EndsIn(a) == EndsIn(b)
  {
    hide Pairs, RedirectOf, GoodMechanisms, GoodModifiers, ModifiersDiffer, GoodAll;
    if a.all.None? {
      SamePairsSameRedirect(a.modifiers, b.modifiers);
    }
  }

  // ---- The merged record ----

  lemma {:induction false} AllParsed(names: Names, existing: seq<string>)
    requires ParseAll(names, existing).Ok?
    ensures
      var current := ParseAll(names, existing).value;
      && AllGood(names, current)
      && forall i :: 0 <= i < |existing| ==> ParseRecord(names, existing[i]) == Ok(current[i])
    decreases |existing|
  {
    hide ParseRecord, Good;
    if existing != [] {
      var n := |existing| - 1;
      AllParsed(names, existing[..n]);
      ParsedGood(names, existing[n]);
      assert forall i :: 0 <= i < n ==> existing[i] == existing[..n][i];
    }
  }

  lemma AllOfThem(names: Names, wanted: Record, current: seq<Record>)
    requires current != [] && Good(names, wanted) && AllGood(names, current)
    ensures
      var merged := Merged(wanted, current);
      && Good(names, merged) && KeysDiffer(merged.mechanisms)
      && (forall key :: HasKey(merged.mechanisms, key) <==> SomeHasKey(current + [wanted], key))
  {
    hide GoodMechanisms, GoodModifiers, ModifiersDiffer, GoodAll, AddingAll, HasKey;
    assert AllGood(names, current + [wanted]);
    assert Good(names, current[0]);
    NoMechanisms(names);
    AddingAllMeans(names, [], current + [wanted]);
  }

  lemma NoMechanisms(names: Names)
    ensures KeysDiffer([]) && GoodMechanisms(names, []) && forall key :: !HasKey([], key)
  {
  }

  lemma PassesByKey<S>(r: Record, matches: (Key, S) -> bool, sender: S)
    ensures Passes(r, matches, sender) <==> exists key :: HasKey(r.mechanisms, key) && matches(key, sender)
  {
    if Passes(r, matches, sender) {
      var i :| 0 <= i < |r.mechanisms| && matches(r.mechanisms[i].key, sender);
      assert HasKey(r.mechanisms, r.mechanisms[i].key);
    }
  }

  lemma MergedPasses<S>(merged: Record, records: seq<Record>, matches: (Key, S) -> bool, sender: S)
    requires forall key :: HasKey(merged.mechanisms, key) <==> SomeHasKey(records, key)
    ensures Passes(merged, matches, sender) <==> SomePasses(records, matches, sender)
  {
    hide HasKey, Passes;
    PassesByKey(merged, matches, sender);
    if Passes(merged, matches, sender) {
      var key :| HasKey(merged.mechanisms, key) && matches(key, sender);
      var i :| 0 <= i < |records| && HasKey(records[i].mechanisms, key);
      PassesByKey(records[i], matches, sender);
    }
    if SomePasses(records, matches, sender) {
      var i :| 0 <= i < |records| && Passes(records[i], matches, sender);
      PassesByKey(records[i], matches, sender);
      var key :| HasKey(records[i].mechanisms, key) && matches(key, sender);
      assert SomeHasKey(records, key);
    }
  }

  /** The records a merge is of: those published, in order, and the profile's. */
  ghost function Sources(names: Names, required: string, existing: seq<string>): seq<Record>
    requires ParseRecord(names, required).Ok? && ParseAll(names, existing).Ok?
  {
    ParseAll(names, existing).value + [ParseRecord(names, required).value]
  }

  /**
   * What a merge means: the value parses; a sender passes by a mechanism exactly when some published record or the profile's
   * passes it by one; a sender none of them passes is judged as every published record judges it; and at most ten terms look
   * something up.
   */
  lemma MergeMeans<S>(names: Names, required: string, existing: seq<string>, matches: (Key, S) -> bool, sender: S)
    requires existing != [] && Merging(names, required, existing).Ok?
    ensures ParseRecord(names, required).Ok? && ParseAll(names, existing).Ok?
    ensures
      var r := ParseRecord(names, Merging(names, required, existing).value.value);
      var current := ParseAll(names, existing).value;
      && r.Ok?
      && Judge(r.value, matches, sender)
          == (if SomePasses(Sources(names, required, existing), matches, sender) then Pass else EndsIn(r.value))
      && (forall i :: 0 <= i < |current| ==>
           EndsIn(current[i]) == EndsIn(r.value) && Pairs(current[i].modifiers) == Pairs(r.value.modifiers))
      && Lookups(r.value.mechanisms) + Redirects(r.value.modifiers) <= MAX_LOOKUPS
  {
    hide ParseRecord, Good, Lookups, Redirects, Pairs, EndsIn, Passes, SomePasses, SomeHasKey, HasKey, Written, AddingAll;
    ParsedGood(names, required);
    AllParsed(names, existing);
    var wanted, current := ParseRecord(names, required).value, ParseAll(names, existing).value;
    var merged := Merged(wanted, current);
    AllOfThem(names, wanted, current);
    WrittenParses(names, merged);
    JudgeIs(merged.mechanisms, EndsIn(merged), matches, sender);
    PassesIs(merged, matches, sender);
    MergedPasses(merged, current + [wanted], matches, sender);
    forall i | 0 <= i < |current|
      ensures EndsIn(current[i]) == EndsIn(merged) && Pairs(current[i].modifiers) == Pairs(merged.modifiers)
    {
      assert Good(names, current[i]) && EndingOf(current[i]) == EndingOf(current[0]);
      SameEnding(names, current[i], merged);
    }
  }

  lemma PassesIs<S>(r: Record, matches: (Key, S) -> bool, sender: S)
    ensures Passes(r, matches, sender) <==> exists i :: 0 <= i < |r.mechanisms| && matches(r.mechanisms[i].key, sender)
  {
  }

  /** Merging into what was merged gives the same value, and says that nothing changed. */
  lemma MergeAgain(names: Names, required: string, existing: seq<string>)
    requires existing != [] && Merging(names, required, existing).Ok?
    ensures Merging(names, required, [Merging(names, required, existing).value.value])
         == Ok(Merge(Merging(names, required, existing).value.value, false))
  {
    hide ParseRecord, Good, Lookups, Redirects, SomeHasKey, HasKey, Written, AddingAll, KeysDiffer, EndingOf;
    ParsedGood(names, required);
    AllParsed(names, existing);
    var wanted, current := ParseRecord(names, required).value, ParseAll(names, existing).value;
    var merged := Merged(wanted, current);
    AllOfThem(names, wanted, current);
    WrittenParses(names, merged);
    var value := Written(merged);
    ParseOne(names, value);
    MergedAgain(names, wanted, current);
    NothingAdded(names, merged);
  }

  lemma ParseOne(names: Names, value: string)
    requires ParseRecord(names, value).Ok?
    ensures ParseAll(names, [value]) == Ok([ParseRecord(names, value).value])
  {
    hide ParseRecord;
    assert [value][..0] == [];
    assert ParseAll(names, [value][..0]) == Ok([]);
    assert [] + [ParseRecord(names, value).value] == [ParseRecord(names, value).value];
  }

  lemma NothingAdded(names: Names, r: Record)
    requires Good(names, r) && KeysDiffer(r.mechanisms)
    ensures Adding([], r.mechanisms) == r.mechanisms
  {
    hide HasKey, GoodMechanism, GoodModifiers, ModifiersDiffer, GoodAll;
    AddingDistinct([], r.mechanisms);
    assert [] + r.mechanisms == r.mechanisms;
  }

  lemma {:induction false} AddingDistinct(kept: seq<Mechanism>, more: seq<Mechanism>)
    requires KeysDiffer(kept + more)
    ensures Adding(kept, more) == kept + more
    decreases |more|
  {
    if more == [] {
      assert kept + more == kept;
    } else {
      assert (kept + more)[|kept|] == more[0];
      assert forall i :: 0 <= i < |kept| ==> (kept + more)[i] == kept[i];
      assert kept + [more[0]] + more[1..] == kept + more;
      AddingDistinct(kept + [more[0]], more[1..]);
    }
  }

  lemma MergedAgain(names: Names, wanted: Record, current: seq<Record>)
    requires current != [] && Good(names, wanted) && AllGood(names, current)
    ensures Merged(wanted, [Merged(wanted, current)]) == Merged(wanted, current)
  {
    hide GoodMechanism, GoodModifiers, ModifiersDiffer, GoodAll, HasKey, KeysDiffer, AddingAll, Adding;
    var merged := Merged(wanted, current);
    AllOfThem(names, wanted, current);
    NothingAdded(names, merged);
    var m := merged.mechanisms;
    assert (current + [wanted])[|current|] == wanted;
    KeysOf(wanted);
    forall i | 0 <= i < |wanted.mechanisms|
      ensures HasKey(m, wanted.mechanisms[i].key)
    {
      assert HasKey((current + [wanted])[|current|].mechanisms, wanted.mechanisms[i].key);
    }
    AddingMeans(names, m, wanted.mechanisms);
    assert Adding(m, wanted.mechanisms) == m;
    AddingTwo(merged, wanted);
  }

  lemma KeysOf(r: Record)
    ensures forall i :: 0 <= i < |r.mechanisms| ==> HasKey(r.mechanisms, r.mechanisms[i].key)
  {
  }

  lemma AddingTwo(a: Record, b: Record)
    ensures AddingAll([], [a] + [b]) == Adding(Adding([], a.mechanisms), b.mechanisms)
  {
    hide Adding;
    assert ([a] + [b])[1..] == [b] && [b][1..] == [];
    assert AddingAll(Adding(Adding([], a.mechanisms), b.mechanisms), []) == Adding(Adding([], a.mechanisms), b.mechanisms);
  }

  /** The merge says that nothing changed exactly when one record is published and it has every sender the profile wants. */
  lemma ChangedExactly(names: Names, required: string, existing: seq<string>)
    requires existing != [] && Merging(names, required, existing).Ok?
    ensures ParseRecord(names, required).Ok? && ParseAll(names, existing).Ok?
    ensures
      var wanted, first := ParseRecord(names, required).value, ParseAll(names, existing).value[0];
      !Merging(names, required, existing).value.changed <==>
        |existing| == 1 && forall i :: 0 <= i < |wanted.mechanisms| ==> HasKey(first.mechanisms, wanted.mechanisms[i].key)
  {
    hide ParseRecord, Good, Lookups, Redirects, HasKey, Written, Adding, AddingAll, KeysDiffer, EndAlike;
    ParsedGood(names, required);
    AllParsed(names, existing);
    var wanted, current := ParseRecord(names, required).value, ParseAll(names, existing).value;
    if |existing| == 1 {
      assert current == [current[0]];
      assert Good(names, current[0]);
      AddedWhen(names, wanted, current[0]);
      AddingTwo(current[0], wanted);
    }
  }

  lemma AddedWhen(names: Names, wanted: Record, first: Record)
    requires Good(names, wanted) && Good(names, first)
    ensures
      var own := Adding([], first.mechanisms);
      |Adding(own, wanted.mechanisms)| == |own| <==>
        forall i :: 0 <= i < |wanted.mechanisms| ==> HasKey(first.mechanisms, wanted.mechanisms[i].key)
    ensures |Adding([], first.mechanisms)| <= |Adding(Adding([], first.mechanisms), wanted.mechanisms)|
  {
    hide GoodMechanism, GoodModifiers, ModifiersDiffer, GoodAll, HasKey, KeysDiffer, Adding;
    NoMechanisms(names);
    AddingMeans(names, [], first.mechanisms);
    AddingMeans(names, Adding([], first.mechanisms), wanted.mechanisms);
  }

  // ---- Spellings of one sender ----

  lemma BeforeSlashOf(a: string, tail: string)
    requires '/' !in a && (tail == "" || tail[0] == '/')
    ensures BeforeSlash(a + tail) == (a, tail)
  {
    var s := a + tail;
    assert forall i :: 0 <= i < |a| ==> s[i] == a[i];
    forall j | 0 <= j < |a|
      ensures !OccursAt(s, "/", j)
    {
      assert s[j..j + 1][0] == a[j] && a[j] in a;
    }
    if tail == "" {
      assert s == a;
      assert forall j :: j >= |a| ==> !OccursAt(s, "/", j);
    } else {
      assert s[|a|..|a| + 1] == "/";
      assert OccursAt(s, "/", |a|);
      assert s[..|a|] == a && s[|a|..] == tail;
    }
  }

  lemma DefaultPrefixes()
    ensures Prefixes("") == Prefixes("/32") == Prefixes("//128") == Prefixes("/32//128") == Some(("32", "128"))
  {
    DefaultBits();
    hide Prefixes, AllDecimal, NumberOf;
    NoPrefix();
    FourPrefix("32", "");
    FourPrefix("32", "//128");
    SixPrefix("128");
    SixAfterFour("128");
    assert "/" + ("32" + "") == "/32" && "/" + ("32" + "//128") == "/32//128" && "//" + "128" == "//128";
  }

  lemma NoPrefix()
    ensures Prefixes("") == Some(("32", "128"))
  {
  }

  lemma SixPrefix(six: string)
    requires SixDigits(six)
    ensures Prefixes("//" + six) == Some(("32", six))
  {
    SixAfterFour(six);
  }

  lemma SixAfterFour(six: string)
    ensures StartsWith("//" + six, "//") && ("//" + six)[2..] == six
  {
    assert ("//" + six)[0..2] == "//";
  }

  lemma FourPrefix(four: string, more: string)
    requires '/' !in four && 1 <= |four| <= 2 && AllDecimal(four) && (more == "" || more[0] == '/')
    ensures Prefixes("/" + (four + more)) ==
      if more == "" then Some((four, "128"))
      else if StartsWith(more, "//") && SixDigits(more[2..]) then Some((four, more[2..]))
      else None
  {
    hide BeforeSlash, AllDecimal;
    var tail := "/" + (four + more);
    BeforeSlashOf(four, more);
    assert tail[1..] == four + more && tail[1] == four[0];
    if StartsWith(tail, "//") {
      OccursChar(tail, "//", 0, 1);
    }
  }

  lemma DefaultBits()
    ensures AllDecimal("32") && NumberOf("32") == 32 && AllDecimal("128") && NumberOf("128") == 128
  {
    assert "32"[..1] == "3" && "3"[..0] == "";
    assert "128"[..2] == "12" && "12"[..1] == "1" && "1"[..0] == "";
  }

  /** Leaving out a prefix length says what writing the default says, with a domain or without one. */
  lemma DefaultsSpelledOut(names: Names, kind: Kind, name: string)
    requires '/' !in name
    ensures kind == A || kind == Mx ==>
      && KeyOf(names, kind, "") == KeyOf(names, kind, "/32") == KeyOf(names, kind, "//128") == KeyOf(names, kind, "/32//128")
      && KeyOf(names, kind, ":" + name) == KeyOf(names, kind, ":" + name + "/32")
          == KeyOf(names, kind, ":" + name + "//128") == KeyOf(names, kind, ":" + name + "/32//128")
    ensures kind == Ip4 ==> KeyOf(names, kind, ":" + name) == KeyOf(names, kind, ":" + name + "/32")
    ensures kind == Ip6 ==> KeyOf(names, kind, ":" + name) == KeyOf(names, kind, ":" + name + "/128")
  {
    hide Prefixes, BeforeSlash, NumberOf;
    DefaultPrefixes();
    DefaultBits();
    NamedTail(name, "");
    NamedTail(name, "/32");
    NamedTail(name, "//128");
    NamedTail(name, "/32//128");
    NamedTail(name, "/128");
    assert ":" + name + "" == ":" + name;
  }

  lemma NamedTail(name: string, tail: string)
    requires '/' !in name && (tail == "" || tail[0] == '/')
    ensures (":" + name + tail)[0] == ':' && BeforeSlash((":" + name + tail)[1..]) == (name, tail)
  {
    assert (":" + name + tail)[1..] == name + tail;
    BeforeSlashOf(name, tail);
  }

  /** A mechanism with its `+` written out is the same mechanism. */
  lemma PlusSpelledOut(text: string)
    requires text != "" && IsLetter(text[0]) && ShapeOf(text).MechanismShape?
    ensures ShapeOf("+" + text) == ShapeOf(text)
  {
    assert ("+" + text)[1..] == text;
    assert !IsLetter('+');
  }

  // ---- What the terms are, said of the whole text at once ----

  function Spelling(kind: Kind): string {
    match kind
    case All => "all"
    case Include => "include"
    case A => "a"
    case Mx => "mx"
    case Ptr => "ptr"
    case Ip4 => "ip4"
    case Ip6 => "ip6"
    case Exists => "exists"
  }

  lemma LoweredSpelling(kind: Kind)
    ensures Lowered(Spelling(kind)) == Spelling(kind)
  {
    match kind
    case All => LoweredFrom("all");
    case Include => LoweredFrom("include");
    case A => LoweredFrom("a");
    case Mx => LoweredFrom("mx");
    case Ptr => LoweredFrom("ptr");
    case Ip4 => LoweredFrom("ip4");
    case Ip6 => LoweredFrom("ip6");
    case Exists => LoweredFrom("exists");
  }

  lemma {:induction false} LoweredFrom(s: string)
    requires forall i :: 0 <= i < |s| ==> !('A' <= s[i] <= 'Z')
    ensures Lowered(s) == s
  {
    if s != "" {
      LoweredFrom(s[1..]);
    }
  }

  lemma {:induction false} LoweredAt(s: string, i: nat)
    requires i < |s|
    ensures Lowered(s)[i] == Lower(s[i])
  {
    if i > 0 {
      LoweredAt(s[1..], i - 1);
    }
  }

  lemma BeginsItself(word: string, rest: string)
    requires Lowered(word) == word
    ensures Begins(word + rest, word) && (word + rest)[|word|..] == rest
  {
    assert (word + rest)[..|word|] == word;
  }

  /** A text with another character somewhere in front does not begin with the word. */
  lemma BeginsNot(s: string, word: string, i: nat)
    requires i < |word| && (i < |s| ==> Lower(s[i]) != word[i])
    ensures !Begins(s, word)
  {
    if |word| <= |s| {
      LoweredAt(s[..|word|], i);
    }
  }

  /** Every kind, spelled out and followed by nothing, a colon or a slash, is read as itself. */
  lemma KindReadBack(kind: Kind, rest: string)
    requires rest == "" || rest[0] == ':' || rest[0] == '/'
    ensures KindAt(Spelling(kind) + rest) == Some((kind, rest))
  {
    hide Begins, Lowered;
    var s := Spelling(kind) + rest;
    LoweredSpelling(kind);
    BeginsItself(Spelling(kind), rest);
    match kind
    case All =>
    case Include => BeginsNot(s, "all", 0);
    case A =>
      BeginsNot(s, "all", 1);
      BeginsNot(s, "include", 0);
    case Mx =>
      BeginsNot(s, "all", 0);
      BeginsNot(s, "include", 0);
      BeginsNot(s, "a", 0);
    case Ptr =>
      BeginsNot(s, "all", 0);
      BeginsNot(s, "include", 0);
      BeginsNot(s, "a", 0);
      BeginsNot(s, "mx", 0);
    case Ip4 => IpIsNoOther(s);
    case Ip6 =>
      IpIsNoOther(s);
      BeginsNot(s, "ip4", 2);
    case Exists =>
      BeginsNot(s, "all", 0);
      BeginsNot(s, "include", 0);
      BeginsNot(s, "a", 0);
      BeginsNot(s, "mx", 0);
      BeginsNot(s, "ptr", 0);
      BeginsNot(s, "ip4", 0);
      BeginsNot(s, "ip6", 0);
  }

  lemma IpIsNoOther(s: string)
    requires |s| > 1 && s[0] == 'i' && s[1] == 'p'
    ensures !Begins(s, "all") && !Begins(s, "include") && !Begins(s, "a") && !Begins(s, "mx") && !Begins(s, "ptr")
  {
    hide Begins;
    BeginsNot(s, "all", 0);
    BeginsNot(s, "include", 1);
    BeginsNot(s, "a", 0);
    BeginsNot(s, "mx", 0);
    BeginsNot(s, "ptr", 0);
  }

  function Most(kind: Kind): nat {
    if kind == Ip4 then 32 else 128
  }

  /** `rest` is a colon, the address and perhaps a slash and a prefix length, and `key` is what they stand for. */
  predicate AddressText(names: Names, kind: Kind, rest: string, key: Key, address: string, digits: string) {
    && '/' !in address && address != "" && key.Address? && key.kind == kind
    && (if kind == Ip4 then names.isFour(address) && key.address == address else names.six(address) == Some(key.address))
    && ((rest == ":" + address && key.bits == Most(kind))
        || (rest == ":" + address + "/" + digits && 1 <= |digits| <= 3 && AllDecimal(digits)
            && key.bits == NumberOf(digits) <= Most(kind)))
  }

  lemma BeforeSlashIs(s: string)
    ensures
      var (front, tail) := BeforeSlash(s);
      s == front + tail && '/' !in front && (tail == "" || tail[0] == '/')
  {
    var (front, tail) := BeforeSlash(s);
    forall i | 0 <= i < |front|
      ensures front[i] != '/'
    {
      assert !OccursAt(s, "/", i);
      assert s[i..i + 1] == [s[i]];
    }
    if tail != "" {
      OccursChar(s, "/", |front|, 0);
    }
  }

  /** Exactly which texts an address key comes from. */
  lemma AddressExactly(names: Names, kind: Kind, rest: string, key: Key)
    requires kind == Ip4 || kind == Ip6
    ensures KeyOf(names, kind, rest) == Ok(key) <==> exists address, digits :: AddressText(names, kind, rest, key, address, digits)
  {
    hide BeforeSlash, NumberOf, AllDecimal;
    if KeyOf(names, kind, rest) == Ok(key) {
      var (address, tail) := BeforeSlash(rest[1..]);
      BeforeSlashIs(rest[1..]);
      assert rest == ":" + rest[1..];
      var digits := if tail == "" then "" else tail[1..];
      assert tail != "" ==> tail == "/" + digits;
      assert rest == ":" + address + tail;
      assert AddressText(names, kind, rest, key, address, digits);
    }
    if exists address, digits :: AddressText(names, kind, rest, key, address, digits) {
      var address, digits :| AddressText(names, kind, rest, key, address, digits);
      AddressIsRead(names, kind, rest, key, address, digits);
    }
  }

  lemma AddressIsRead(names: Names, kind: Kind, rest: string, key: Key, address: string, digits: string)
    requires (kind == Ip4 || kind == Ip6) && AddressText(names, kind, rest, key, address, digits)
    ensures KeyOf(names, kind, rest) == Ok(key)
  {
    hide BeforeSlash, NumberOf, AllDecimal;
    if rest == ":" + address && key.bits == Most(kind) {
      NamedTail(address, "");
      assert ":" + address + "" == ":" + address;
    } else {
      NamedTail(address, "/" + digits);
      assert ":" + address + "/" + digits == ":" + address + ("/" + digits);
      assert ("/" + digits)[1..] == digits;
    }
  }
}
