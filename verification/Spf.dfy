/** Merging a profile's SPF record into those a domain publishes (addons/dns/spf.ts). */
module Spf {
  import opened Outcomes
  import opened Text

  datatype Kind = All | Include | A | Mx | Ptr | Ip4 | Ip6 | Exists

  /**
   * What makes two mechanisms the same sender. The program spells these as strings, `kind:address/bits`,
   * `kind:target/four//six`, `ptr` and `kind:domain`; different keys have different spellings.
   */
  datatype Key =
    | Address(kind: Kind, address: string, bits: nat)
    | Hosts(kind: Kind, target: string, four: string, six: string)
    | Bare(kind: Kind)
    | Named(kind: Kind, domain: string)

  datatype Mechanism = Mechanism(text: string, key: Key)

  datatype AllTerm = AllTerm(text: string, qualifier: char)

  datatype Modifier = Modifier(text: string, name: string, value: string)

  datatype Record = Record(mechanisms: seq<Mechanism>, all: Option<AllTerm>, modifiers: seq<Modifier>)

  datatype Problem =
    | Macros | RepeatsModifier | NotATerm | TermsAfterAll | Malformed | NotPass | NotAnAddress | NotADomain | NeedsDomain

  datatype Refusal =
    | ProfileUnusable(problem: Problem) | PublishedUnusable(problem: Problem) | EndDifferently | TooManyLookups(count: nat)

  datatype Merge = Merge(value: string, changed: bool)

  /** How names and addresses are recognised: the canonical domain, whether text is an IPv4 address, the canonical IPv6 address. */
  datatype Names = Names(domain: string -> Option<string>, isFour: string -> bool, six: string -> Option<string>)

  const MAX_LOOKUPS: nat := 10

  // ---- Words ----

  /** Where the run of spaces, or of other characters, that `i` is in ends. */
  function RunEnd(s: string, i: nat, spaces: bool): (j: nat)
    requires i <= |s|
    ensures i <= j <= |s|
    ensures j < |s| ==> IsSpace(s[j]) != spaces
    decreases |s| - i
  {
    if i < |s| && IsSpace(s[i]) == spaces then RunEnd(s, i + 1, spaces) else i
  }

  /** The pieces of the text between its spaces. */
  function Words(s: string): seq<string>
    decreases |s|
  {
    var from := RunEnd(s, 0, true);
    if from == |s| then []
    else
      var to := RunEnd(s, from, false);
      [s[from..to]] + Words(s[to..])
  }

  /** The terms of a record: its words but the first. */
  function Terms(record: string): seq<string> {
    var words := Words(record);
    if words == [] then [] else words[1..]
  }

  function Joined(words: seq<string>): string {
    if words == [] then ""
    else if |words| == 1 then words[0]
    else words[0] + " " + Joined(words[1..])
  }

  // ---- One term ----

  function Lower(c: char): char {
    if 'A' <= c <= 'Z' then c - 'A' + 'a' else c
  }

  function Lowered(s: string): (r: string)
    ensures |r| == |s|
  {
    if s == "" then "" else [Lower(s[0])] + Lowered(s[1..])
  }

  predicate IsLetter(c: char) {
    'a' <= c <= 'z' || 'A' <= c <= 'Z'
  }

  predicate IsDecimal(c: char) {
    '0' <= c <= '9'
  }

  predicate IsNameChar(c: char) {
    IsLetter(c) || IsDecimal(c) || c in "_.-"
  }

  function NameEnd(s: string, i: nat): (j: nat)
    requires i <= |s|
    ensures i <= j <= |s|
    decreases |s| - i
  {
    if i < |s| && IsNameChar(s[i]) then NameEnd(s, i + 1) else i
  }

  /** A term's shape: a modifier, a mechanism, or neither. */
  datatype Shape = ModifierShape(name: string, value: string) | MechanismShape(qualifier: char, kind: Kind, rest: string) | NoShape

  function ShapeOf(text: string): Shape {
    var name := NameEnd(text, 0);
    if text != "" && IsLetter(text[0]) && name < |text| && text[name] == '=' then
      ModifierShape(Lowered(text[..name]), text[name + 1..])
    else
      var signed := text != "" && text[0] in "+?~-";
      var qualifier := if signed then text[0] else '+';
      match KindAt(if signed then text[1..] else text)
      case Some((kind, rest)) => MechanismShape(qualifier, kind, rest)
      case None => NoShape
  }

  /** The first of the kinds, in this order, that the text begins with in either case, and what follows it. */
  function KindAt(s: string): Option<(Kind, string)> {
    if Begins(s, "all") then Some((All, s[3..]))
    else if Begins(s, "include") then Some((Include, s[7..]))
    else if Begins(s, "a") then Some((A, s[1..]))
    else if Begins(s, "mx") then Some((Mx, s[2..]))
    else if Begins(s, "ptr") then Some((Ptr, s[3..]))
    else if Begins(s, "ip4") then Some((Ip4, s[3..]))
    else if Begins(s, "ip6") then Some((Ip6, s[3..]))
    else if Begins(s, "exists") then Some((Exists, s[6..]))
    else None
  }

  predicate Begins(s: string, word: string) {
    |word| <= |s| && Lowered(s[..|word|]) == word
  }

  /** The text up to the first slash, which it must have one character of, and what follows. */
  function BeforeSlash(s: string): (string, string) {
    match IndexOf(s, "/")
    case Some(i) => (s[..i], s[i..])
    case None => (s, "")
  }

  predicate AllDecimal(s: string) {
    forall i :: 0 <= i < |s| ==> IsDecimal(s[i])
  }

  function NumberOf(s: string): nat
    requires AllDecimal(s)
  {
    if s == "" then 0
    else
      assert IsDecimal(s[|s| - 1]);
      10 * NumberOf(s[..|s| - 1]) + (s[|s| - 1] as int - '0' as int)
  }

  /** `:address` and perhaps `/bits`. */
  function AddressKey(names: Names, kind: Kind, rest: string): Result<Key, Problem> {
    var most := if kind == Ip4 then 32 else 128;
    if rest == "" || rest[0] != ':' then Err(NotAnAddress)
    else
      var (address, tail) := BeforeSlash(rest[1..]);
      if address == "" then Err(NotAnAddress)
      else if tail != "" && !(1 <= |tail| - 1 <= 3 && AllDecimal(tail[1..])) then Err(NotAnAddress)
      else
        var bits := if tail == "" then most else NumberOf(tail[1..]);
        if bits > most then Err(NotAnAddress)
        else if kind == Ip4 then if names.isFour(address) then Ok(Address(kind, address, bits)) else Err(NotAnAddress)
        else
          match names.six(address)
          case Some(six) => Ok(Address(kind, six, bits))
          case None => Err(NotAnAddress)
  }

  function DomainOf(names: Names, value: string): Result<string, Problem> {
    match names.domain(value)
    case Some(domain) => Ok(domain)
    case None => Err(NotADomain)
  }

  /** Perhaps `:domain`, perhaps `/four`, perhaps `//six`. */
  function HostKey(names: Names, kind: Kind, rest: string): Result<Key, Problem> {
    var named := rest != "" && rest[0] == ':';
    var (name, tail) := if named then BeforeSlash(rest[1..]) else ("", rest);
    if named && name == "" then Err(Malformed)
    else
      match Prefixes(tail)
      case None => Err(Malformed)
      case Some((four, six)) =>
        if named then
          var target :- DomainOf(names, name);
          Ok(Hosts(kind, target, four, six))
        else Ok(Hosts(kind, "", four, six))
  }

  /** `/four` of one or two digits and `//six` of one to three, either of which may be missing. */
  function Prefixes(tail: string): Option<(string, string)> {
    if tail == "" then Some(("32", "128"))
    else if StartsWith(tail, "//") then
      if SixDigits(tail[2..]) then Some(("32", tail[2..])) else None
    else if tail[0] != '/' then None
    else
      var (four, more) := BeforeSlash(tail[1..]);
      if !(1 <= |four| <= 2 && AllDecimal(four)) then None
      else if more == "" then Some((four, "128"))
      else if StartsWith(more, "//") && SixDigits(more[2..]) then Some((four, more[2..]))
      else None
  }

  predicate SixDigits(s: string) {
    1 <= |s| <= 3 && AllDecimal(s)
  }

  function KeyOf(names: Names, kind: Kind, rest: string): Result<Key, Problem> {
    if kind == Ip4 || kind == Ip6 then AddressKey(names, kind, rest)
    else if kind == A || kind == Mx then HostKey(names, kind, rest)
    else if kind == Ptr && rest == "" then Ok(Bare(Ptr))
    else if rest != "" && rest[0] == ':' then
      var domain :- DomainOf(names, rest[1..]);
      Ok(Named(kind, domain))
    else Err(NeedsDomain)
  }

  // ---- One record ----

  predicate HasModifier(modifiers: seq<Modifier>, name: string) {
    exists i :: 0 <= i < |modifiers| && modifiers[i].name == name
  }

  /** The record with one more term, or why it cannot have it. */
  function Step(names: Names, r: Record, text: string): Result<Record, Problem> {
    match ShapeOf(text)
    case ModifierShape(name, value) =>
      if HasModifier(r.modifiers, name) then Err(RepeatsModifier)
      else
        var canonical :- (if name == "redirect" || name == "exp" then DomainOf(names, value) else Ok(value));
        Ok(r.(modifiers := r.modifiers + [Modifier(text, name, canonical)]))
    case NoShape => Err(NotATerm)
    case MechanismShape(qualifier, kind, rest) =>
      if r.all.Some? then Err(TermsAfterAll)
      else if kind == All then
        if rest != "" then Err(Malformed) else Ok(r.(all := Some(AllTerm(text, qualifier))))
      else if qualifier != '+' then Err(NotPass)
      else
        var key :- KeyOf(names, kind, rest);
        Ok(r.(mechanisms := r.mechanisms + [Mechanism(text, key)]))
  }

  function Steps(names: Names, r: Record, terms: seq<string>): Result<Record, Problem>
    decreases |terms|
  {
    if terms == [] then Ok(r)
    else
      var next :- Step(names, r, terms[0]);
      Steps(names, next, terms[1..])
  }

  const EMPTY := Record([], None, [])

  function ParseRecord(names: Names, record: string): Result<Record, Problem> {
    if '%' in record then Err(Macros) else Steps(names, EMPTY, Terms(record))
  }

  method Parse(names: Names, record: string) returns (r: Result<Record, Problem>)
    ensures r == ParseRecord(names, record)
  {
    hide Step;
    if '%' in record {
      return Err(Macros);
    }
    var terms := Terms(record);
    var parsed := EMPTY;
    for k := 0 to |terms|
      invariant Steps(names, EMPTY, terms) == Steps(names, parsed, terms[k..])
    {
      assert terms[k..][0] == terms[k] && terms[k..][1..] == terms[k + 1..];
      parsed :- Step(names, parsed, terms[k]);
    }
    assert terms[|terms|..] == [];
    r := Ok(parsed);
  }

  // ---- Merging ----

  /** How a record ends: its `all`, and its modifiers in whatever order. */
  datatype Ending = Ending(all: Option<char>, modifiers: multiset<(string, string)>)

  function Pairs(modifiers: seq<Modifier>): multiset<(string, string)> {
    if modifiers == [] then multiset{}
    else Pairs(modifiers[..|modifiers| - 1])
         + multiset{(modifiers[|modifiers| - 1].name, modifiers[|modifiers| - 1].value)}
  }

  function EndingOf(r: Record): Ending {
    Ending(if r.all.Some? then Some(r.all.value.qualifier) else None, Pairs(r.modifiers))
  }

  predicate LooksUp(kind: Kind) {
    kind in {Include, A, Mx, Ptr, Exists}
  }

  function Lookups(mechanisms: seq<Mechanism>): nat {
    if mechanisms == [] then 0
    else Lookups(mechanisms[..|mechanisms| - 1]) + (if LooksUp(mechanisms[|mechanisms| - 1].key.kind) then 1 else 0)
  }

  function Redirects(modifiers: seq<Modifier>): nat {
    if modifiers == [] then 0
    else Redirects(modifiers[..|modifiers| - 1]) + (if modifiers[|modifiers| - 1].name == "redirect" then 1 else 0)
  }

  predicate HasKey(mechanisms: seq<Mechanism>, key: Key) {
    exists i :: 0 <= i < |mechanisms| && mechanisms[i].key == key
  }

  /** The mechanisms kept, and those of `more` whose key none has yet. */
  function Adding(kept: seq<Mechanism>, more: seq<Mechanism>): seq<Mechanism>
    decreases |more|
  {
    if more == [] then kept
    else Adding(if HasKey(kept, more[0].key) then kept else kept + [more[0]], more[1..])
  }

  function AddingAll(kept: seq<Mechanism>, records: seq<Record>): seq<Mechanism>
    decreases |records|
  {
    if records == [] then kept else AddingAll(Adding(kept, records[0].mechanisms), records[1..])
  }

  function ParseAll(names: Names, existing: seq<string>): (r: Result<seq<Record>, Problem>)
    ensures r.Ok? ==> |r.value| == |existing|
  {
    if existing == [] then Ok([])
    else
      var before :- ParseAll(names, existing[..|existing| - 1]);
      var last :- ParseRecord(names, existing[|existing| - 1]);
      Ok(before + [last])
  }

  predicate EndAlike(records: seq<Record>) {
    forall i :: 0 <= i < |records| ==> EndingOf(records[i]) == EndingOf(records[0])
  }

  function TextsOf(mechanisms: seq<Mechanism>): seq<string> {
    seq(|mechanisms|, i requires 0 <= i < |mechanisms| => mechanisms[i].text)
  }

  function ModifierTexts(modifiers: seq<Modifier>): seq<string> {
    seq(|modifiers|, i requires 0 <= i < |modifiers| => modifiers[i].text)
  }

  /** The record written out. */
  function Written(r: Record): string {
    Joined(["v=spf1"] + TextsOf(r.mechanisms) + (if r.all.Some? then [r.all.value.text] else []) + ModifierTexts(r.modifiers))
  }

  /** The merged record: every sender once, and the rest as the first record has it. */
  function Merged(wanted: Record, current: seq<Record>): Record
    requires current != []
  {
    current[0].(mechanisms := AddingAll([], current + [wanted]))
  }

  function Merging(names: Names, required: string, existing: seq<string>): Result<Merge, Refusal> {
    match ParseRecord(names, required)
    case Err(problem) => Err(ProfileUnusable(problem))
    case Ok(wanted) =>
      if existing == [] then Ok(Merge(Joined(Words(required)), true))
      else
        match ParseAll(names, existing)
        case Err(problem) => Err(PublishedUnusable(problem))
        case Ok(current) => Combine(wanted, current)
  }

  function Combine(wanted: Record, current: seq<Record>): Result<Merge, Refusal>
    requires current != []
  {
    var merged := Merged(wanted, current);
    var count := Lookups(merged.mechanisms) + Redirects(merged.modifiers);
    if !EndAlike(current) then Err(EndDifferently)
    else if count > MAX_LOOKUPS then Err(TooManyLookups(count))
    else
      Ok(Merge(Written(merged), |current| > 1 || |merged.mechanisms| > |Adding([], current[0].mechanisms)|))
  }

  lemma {:induction false} ParseAllStops(names: Names, existing: seq<string>, k: nat)
    requires k < |existing| && ParseAll(names, existing[..k]).Ok? && ParseRecord(names, existing[k]).Err?
    ensures ParseAll(names, existing) == Err(ParseRecord(names, existing[k]).error)
    decreases |existing|
  {
    hide ParseRecord;
    var n := |existing| - 1;
    if k < n {
      assert existing[..n][..k] == existing[..k];
      ParseAllStops(names, existing[..n], k);
    }
  }

  lemma {:induction false} AddingOne(kept: seq<Mechanism>, more: seq<Mechanism>, k: nat)
    requires k < |more|
    ensures Adding(kept, more[..k + 1]) ==
      var before := Adding(kept, more[..k]);
      if HasKey(before, more[k].key) then before else before + [more[k]]
    decreases |more|
  {
    hide HasKey;
    var next := if HasKey(kept, more[0].key) then kept else kept + [more[0]];
    assert more[..k + 1][1..] == more[1..][..k];
    if k > 0 {
      assert more[..k][1..] == more[1..][..k - 1];
      AddingOne(next, more[1..], k - 1);
    }
  }

  lemma {:induction false} AddingRecord(kept: seq<Mechanism>, records: seq<Record>, k: nat)
    requires k < |records|
    ensures AddingAll(kept, records[..k + 1]) == Adding(AddingAll(kept, records[..k]), records[k].mechanisms)
    decreases |records|
  {
    hide Adding;
    var next := Adding(kept, records[0].mechanisms);
    assert records[..k + 1][1..] == records[1..][..k];
    if k > 0 {
      assert records[..k][1..] == records[1..][..k - 1];
      AddingRecord(next, records[1..], k - 1);
    }
  }

  /** The mechanisms of all the records, each sender once, the earliest spelling kept. */
  method Collect(records: seq<Record>) returns (mechanisms: seq<Mechanism>)
    ensures mechanisms == AddingAll([], records)
  {
    hide HasKey;
    mechanisms := [];
    for k := 0 to |records|
      invariant mechanisms == AddingAll([], records[..k])
    {
      var more := records[k].mechanisms;
      ghost var before := mechanisms;
      for j := 0 to |more|
        invariant mechanisms == Adding(before, more[..j])
      {
        AddingOne(before, more, j);
        if !HasKey(mechanisms, more[j].key) {
          mechanisms := mechanisms + [more[j]];
        }
      }
      assert more[..|more|] == more;
      AddingRecord([], records, k);
    }
    assert records[..|records|] == records;
  }

  method MergeSpf(names: Names, required: string, existing: seq<string>) returns (r: Result<Merge, Refusal>)
    ensures r == Merging(names, required, existing)
  {
    hide ParseRecord, Words, Joined, AddingAll, Adding, EndAlike, Lookups, Redirects, Written;
    var wanted := Parse(names, required);
    if wanted.Err? {
      return Err(ProfileUnusable(wanted.error));
    }
    if existing == [] {
      return Ok(Merge(Joined(Words(required)), true));
    }
    var current: seq<Record> := [];
    for k := 0 to |existing|
      invariant ParseAll(names, existing[..k]) == Ok(current)
    {
      var parsed := Parse(names, existing[k]);
      if parsed.Err? {
        ParseAllStops(names, existing, k);
        return Err(PublishedUnusable(parsed.error));
      }
      assert existing[..k + 1][..k] == existing[..k];
      current := current + [parsed.value];
    }
    assert existing[..|existing|] == existing;
    if !EndAlike(current) {
      return Err(EndDifferently);
    }
    var mechanisms := Collect(current + [wanted.value]);
    var first := current[0];
    var count := Lookups(mechanisms) + Redirects(first.modifiers);
    if count > MAX_LOOKUPS {
      return Err(TooManyLookups(count));
    }
    var own := Adding([], first.mechanisms);
    var value := Written(first.(mechanisms := mechanisms));
    r := Ok(Merge(value, |existing| > 1 || |mechanisms| > |own|));
  }
}
