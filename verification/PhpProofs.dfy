/** What the scanner reads is what the printer wrote: round trips, limits, locality and session framing. */
module PhpProofs {
  import opened Octets
  import opened Outcomes
  import opened PhpScanner

  type Encoder = string -> Bytes

  // ---- The printer ----

  function Digits(n: nat): (r: Bytes)
    ensures r != [] && AreDigits(r)
  {
    var last: Byte := 48 + n % 10;
    if n < 10 then [last] else Digits(n / 10) + [last]
  }

  function Signed(n: int): Bytes {
    if n < 0 then [45] + Digits(-n) else Digits(n)
  }

  function Quoted(text: Bytes): Bytes {
    [34] + text + [34]
  }

  function Print(node: Node, encode: Encoder): Bytes
    decreases node
  {
    match node
    case Null => [78, 59]
    case Boolean(truth) => [98] + [58] + [if truth then 49 else 48] + [59]
    case Integer(number) => [105] + [58] + Signed(number) + [59]
    case Text(text) => [115] + PrintText(text)
    case Array(entries) => [97] + ([58] + Signed(|entries|) + [58] + [123] + PrintAll(entries, encode) + [125])
    case Object(name, properties) =>
      [79] + ([58] + Signed(|encode(name)|) + [58] + Quoted(encode(name)))
      + ([58] + Signed(|properties|) + [58] + [123] + PrintAll(properties, encode) + [125])
  }

  function PrintText(text: Bytes): Bytes {
    [58] + Signed(|text|) + [58] + Quoted(text) + [59]
  }

  function KeyNode(key: Key): Node {
    match key
    case IntegerKey(number) => Integer(number)
    case TextKey(text) => Text(text)
  }

  function PrintAll(entries: seq<Entry>, encode: Encoder): Bytes
    decreases entries
  {
    if entries == [] then []
    else
      assert entries decreases to entries[0];
      PrintKey(entries[0].key) + Print(entries[0].value, encode) + PrintAll(entries[1..], encode)
  }

  function PrintKey(key: Key): Bytes {
    match key
    case IntegerKey(number) => [105] + [58] + Signed(number) + [59]
    case TextKey(text) => [115] + PrintText(text)
  }

  // ---- The values within the scanner's limits ----

  predicate Safe(n: int) {
    -MAX_SAFE <= n <= MAX_SAFE
  }

  predicate SafeKey(key: Key) {
    key.IntegerKey? ==> Safe(key.number)
  }

  ghost predicate KeysDiffer(entries: seq<Entry>) {
    forall i, j :: 0 <= i < j < |entries| ==> entries[i].key != entries[j].key
  }

  ghost predicate Fits(node: Node, decode: Decoder, encode: Encoder, depth: nat)
    decreases node
  {
    depth <= MAX_DEPTH &&
    match node
    case Integer(number) => Safe(number)
    case Array(entries) => |entries| <= MAX_ITEMS && KeysDiffer(entries) && FitAll(entries, decode, encode, depth + 1)
    case Object(name, properties) =>
      && Spelled(name, decode, encode)
      && |properties| <= MAX_ITEMS && KeysDiffer(properties) && FitAll(properties, decode, encode, depth + 1)
    case _ => true
  }

  ghost predicate FitAll(entries: seq<Entry>, decode: Decoder, encode: Encoder, depth: nat)
    decreases entries
  {
    entries == [] ||
    assert entries decreases to entries[0];
    (SafeKey(entries[0].key) && Fits(entries[0].value, decode, encode, depth) && FitAll(entries[1..], decode, encode, depth))
  }

  /** A class name that comes back from its bytes. */
  predicate Spelled(name: string, decode: Decoder, encode: Encoder) {
    name != "" && encode(name) != [] && decode(encode(name)) == Some(name)
  }

  /** How many nodes the scanner begins for a value: itself, and each key and value below it. */
  function Nodes(node: Node): nat
    decreases node
  {
    match node
    case Array(entries) => 1 + NodesOf(entries)
    case Object(_, properties) => 1 + NodesOf(properties)
    case _ => 1
  }

  function NodesOf(entries: seq<Entry>): nat
    decreases entries
  {
    if entries == [] then 0
    else
      assert entries decreases to entries[0];
      1 + Nodes(entries[0].value) + NodesOf(entries[1..])
  }

  // ---- Bytes at an offset ----

  predicate Here(s: Bytes, i: nat, p: Bytes) {
    i + |p| <= |s| && s[i..i + |p|] == p
  }

  lemma HereSplit(s: Bytes, i: nat, p: Bytes, q: Bytes)
    requires Here(s, i, p + q)
    ensures Here(s, i, p) && Here(s, i + |p|, q)
  {
    assert s[i..i + |p|] == s[i..i + |p + q|][..|p|];
    assert s[i + |p|..i + |p| + |q|] == s[i..i + |p + q|][|p|..];
  }

  lemma HereSplit4(s: Bytes, i: nat, p: Bytes, q: Bytes, u: Bytes, v: Bytes)
    requires Here(s, i, p + q + u + v)
    ensures Here(s, i, p) && Here(s, i + |p|, q) && Here(s, i + |p| + |q|, u) && Here(s, i + |p| + |q| + |u|, v)
  {
    HereSplit(s, i, p + q + u, v);
    HereSplit(s, i, p + q, u);
    HereSplit(s, i, p, q);
  }

  lemma HereByte(s: Bytes, i: nat, b: Byte)
    requires Here(s, i, [b])
    ensures i < |s| && s[i] == b
  {
    assert s[i..i + 1][0] == b;
  }

  lemma ExpectHere(s: Bytes, a: At, b: Byte)
    requires Here(s, a.offset, [b])
    ensures Expect(s, a, b) == Ok(At(a.offset + 1, a.nodes))
  {
    HereByte(s, a.offset, b);
  }

  // ---- Integers ----

  lemma {:induction false} DecimalDigits(n: nat)
    ensures Decimal(Digits(n)) == n
  {
    var d := Digits(n);
    if n >= 10 {
      DecimalDigits(n / 10);
      assert d[..|d| - 1] == Digits(n / 10);
    } else {
      assert d[..0] == [];
    }
  }

  lemma {:induction false} DigitsEndHere(s: Bytes, i: nat, end: nat)
    requires i <= end <= |s| && AreDigits(s[i..end]) && (end < |s| ==> !IsDigit(s[end]))
    ensures DigitsEnd(s, i) == end
    decreases end - i
  {
    if i < end {
      assert s[i..end][0] == s[i] && s[i..end][1..] == s[i + 1..end];
      DigitsEndHere(s, i + 1, end);
    }
  }

  lemma ReadIntegerHere(s: Bytes, a: At, n: int, next: Byte)
    requires Safe(n) && !IsDigit(next)
    requires Here(s, a.offset, Signed(n) + [next])
    ensures ReadInteger(s, a) == Ok(Scanned(n, At(a.offset + |Signed(n)|, a.nodes)))
  {
    hide Decimal, DigitsEnd, Digits, AreDigits, Here, ReadInteger;
    var i := a.offset;
    HereSplit(s, i, Signed(n), [next]);
    if n < 0 {
      var d := Digits(-n);
      HereSplit(s, i, [45], d);
      HereByte(s, i, 45);
      RunHere(s, i + 1, d, next);
      DecimalDigits(-n);
      ReadRun(s, a, i + 1, d, n);
    } else {
      var d := Digits(n);
      FirstDigit(s, i, d);
      RunHere(s, i, d, next);
      DecimalDigits(n);
      ReadRun(s, a, i, d, n);
    }
  }

  lemma RunHere(s: Bytes, i: nat, d: Bytes, next: Byte)
    requires AreDigits(d) && !IsDigit(next) && Here(s, i, d) && Here(s, i + |d|, [next])
    ensures i + |d| <= |s| && s[i..i + |d|] == d && DigitsEnd(s, i) == i + |d|
  {
    hide DigitsEnd, AreDigits;
    HereByte(s, i + |d|, next);
    DigitsEndHere(s, i, i + |d|);
  }

  lemma ReadRun(s: Bytes, a: At, start: nat, d: Bytes, n: int)
    requires a.offset < |s| && start == (if s[a.offset] == 45 then a.offset + 1 else a.offset)
    requires d != [] && AreDigits(d) && start + |d| <= |s| && DigitsEnd(s, start) == start + |d| && s[start..start + |d|] == d
    requires Safe(n) && Decimal(d) == (if s[a.offset] == 45 then -n else n)
    ensures ReadInteger(s, a) == Ok(Scanned(n, At(start + |d|, a.nodes)))
  {
    hide Decimal, DigitsEnd, AreDigits, Advanced;
  }

  lemma FirstDigit(s: Bytes, i: nat, d: Bytes)
    requires d != [] && AreDigits(d) && Here(s, i, d)
    ensures i < |s| && s[i] == d[0] && IsDigit(s[i])
  {
    assert s[i..i + |d|][0] == s[i];
  }

  /** The bytes are an optional minus sign and digits, and `n` is the number they write. */
  predicate Writes(text: Bytes, n: int) {
    text != [] &&
    if text[0] == 45 then text[1..] != [] && AreDigits(text[1..]) && n == -(Decimal(text[1..]) as int)
    else AreDigits(text) && n == Decimal(text)
  }

  /** Exactly when an integer is read: the longest run of digits, with or without a sign, and within the safe range. */
  lemma IntegerExactly(s: Bytes, a: At, n: int, end: nat)
    requires a.offset <= |s|
    ensures ReadInteger(s, a) == Ok(Scanned(n, At(end, a.nodes))) <==>
      && a.offset <= end <= |s| && Writes(s[a.offset..end], n) && Safe(n)
      && (end < |s| ==> !IsDigit(s[end]))
  {
    hide Decimal, Advanced, AreDigits;
    var i := a.offset;
    if i < |s| {
      var start := if s[i] == 45 then i + 1 else i;
      var last := DigitsEnd(s, start);
      if start < last {
        TextIs(s, i, last);
      }
      if i <= end <= |s| && Writes(s[i..end], n) && (end < |s| ==> !IsDigit(s[end])) {
        DigitsUpTo(s, i, end, n);
        DigitsEndHere(s, start, end);
      }
    }
  }

  lemma TextIs(s: Bytes, i: nat, last: nat)
    requires i < last <= |s|
    ensures s[i..last] != [] && s[i..last][0] == s[i] && s[i..last][1..] == s[i + 1..last]
  {
  }

  lemma DigitsUpTo(s: Bytes, i: nat, end: nat, n: int)
    requires i <= end <= |s| && Writes(s[i..end], n)
    ensures
      var start := if s[i..end][0] == 45 then i + 1 else i;
      && start < end && s[i..end][0] == s[i] && AreDigits(s[start..end])
  {
    hide Decimal, AreDigits;
    TextIs(s, i, end);
  }

  // ---- Reading what was printed ----

  lemma ReadQuotedHere(s: Bytes, a: At, text: Bytes)
    requires Here(s, a.offset, Quoted(text))
    ensures ReadQuoted(s, a, |text|) == Ok(Scanned(text, At(a.offset + |text| + 2, a.nodes)))
  {
    var i := a.offset;
    HereSplit(s, i, [34] + text, [34]);
    HereSplit(s, i, [34], text);
    ExpectHere(s, a, 34);
    ExpectHere(s, At(i + 1 + |text|, a.nodes), 34);
  }

  lemma Here58(s: Bytes, i: nat, p: Bytes, q: Bytes, rest: Bytes)
    requires Here(s, i, p + q + [58] + rest)
    ensures Here(s, i, p) && Here(s, i + |p|, q + [58]) && Here(s, i + |p| + |q|, [58])
    ensures Here(s, i + |p| + |q| + 1, rest)
  {
    assert p + q + [58] + rest == p + (q + [58]) + rest;
    HereSplit(s, i, p + (q + [58]), rest);
    HereSplit(s, i, p, q + [58]);
    HereSplit(s, i + |p|, q, [58]);
  }

  lemma ReadTextHere(s: Bytes, a: At, text: Bytes)
    requires Here(s, a.offset, PrintText(text)) && |s| <= MAX_SESSION_BYTES
    ensures ReadText(s, a) == Ok(Scanned(text, At(a.offset + |PrintText(text)|, a.nodes)))
  {
    hide ReadInteger, ReadQuoted, Expect, Here, Signed;
    var i, n := a.offset, Signed(|text|);
    assert PrintText(text) == [58] + n + [58] + (Quoted(text) + [59]);
    Here58(s, i, [58], n, Quoted(text) + [59]);
    HereSplit(s, i + 2 + |n|, Quoted(text), [59]);
    HereBound(s, i + 2 + |n|, Quoted(text));
    ExpectHere(s, a, 58);
    ReadIntegerHere(s, At(i + 1, a.nodes), |text|, 58);
    ExpectHere(s, At(i + 1 + |n|, a.nodes), 58);
    ReadQuotedHere(s, At(i + 2 + |n|, a.nodes), text);
    ExpectHere(s, At(i + 4 + |n| + |text|, a.nodes), 59);
  }

  lemma HereBound(s: Bytes, i: nat, p: Bytes)
    requires Here(s, i, p)
    ensures i + |p| <= |s|
  {
  }

  lemma ReadClassHere(s: Bytes, decode: Decoder, encode: Encoder, a: At, name: string)
    requires Spelled(name, decode, encode) && |s| <= MAX_SESSION_BYTES
    requires Here(s, a.offset, PrintHead(name, encode))
    ensures ReadClass(s, decode, a) == Ok(Scanned(name, At(a.offset + |PrintHead(name, encode)|, a.nodes)))
  {
    hide ReadInteger, ReadQuoted, Expect, Here, Signed;
    var text := encode(name);
    var i, n := a.offset, Signed(|text|);
    Here58(s, i, [58], n, Quoted(text));
    HereBound(s, i + 2 + |n|, Quoted(text));
    ExpectHere(s, a, 58);
    ReadIntegerHere(s, At(i + 1, a.nodes), |text|, 58);
    ExpectHere(s, At(i + 1 + |n|, a.nodes), 58);
    ReadQuotedHere(s, At(i + 2 + |n|, a.nodes), text);
  }

  lemma ReadIntegerNode(s: Bytes, decode: Decoder, depth: nat, a: At, n: int)
    requires depth <= MAX_DEPTH && Safe(n) && a.nodes + 1 <= MAX_NODES
    requires Here(s, a.offset, [105] + [58] + Signed(n) + [59])
    ensures ReadValue(s, decode, depth, a)
         == Ok(Scanned(Integer(n), At(a.offset + |[105] + [58] + Signed(n) + [59]|, a.nodes + 1)))
  {
    hide ReadInteger, Here, Signed, Safe;
    var i := a.offset;
    assert [105] + [58] + Signed(n) + [59] == [105] + [58] + (Signed(n) + [59]);
    HereSplit4(s, i, [105], [58], Signed(n), [59]);
    HereSplit(s, i, [105] + [58], Signed(n) + [59]);
    HereByte(s, i, 105);
    ExpectHere(s, At(i + 1, a.nodes + 1), 58);
    ReadIntegerHere(s, At(i + 2, a.nodes + 1), n, 59);
    ExpectHere(s, At(i + 2 + |Signed(n)|, a.nodes + 1), 59);
  }

  lemma ReadTextNode(s: Bytes, decode: Decoder, depth: nat, a: At, text: Bytes)
    requires depth <= MAX_DEPTH && |s| <= MAX_SESSION_BYTES && a.nodes + 1 <= MAX_NODES
    requires Here(s, a.offset, [115] + PrintText(text))
    ensures ReadValue(s, decode, depth, a)
         == Ok(Scanned(Text(text), At(a.offset + 1 + |PrintText(text)|, a.nodes + 1)))
  {
    hide ReadText, Here, PrintText;
    HereSplit(s, a.offset, [115], PrintText(text));
    HereByte(s, a.offset, 115);
    ReadTextHere(s, At(a.offset + 1, a.nodes + 1), text);
  }

  lemma ReadKeyHere(s: Bytes, decode: Decoder, depth: nat, a: At, key: Key)
    requires depth <= MAX_DEPTH && |s| <= MAX_SESSION_BYTES && a.nodes + 1 <= MAX_NODES && SafeKey(key)
    requires Here(s, a.offset, PrintKey(key))
    ensures ReadValue(s, decode, depth, a) == Ok(Scanned(KeyNode(key), At(a.offset + |PrintKey(key)|, a.nodes + 1)))
  {
    hide ReadValue, Here, Signed, PrintText;
    match key
    case IntegerKey(number) => ReadIntegerNode(s, decode, depth, a, number);
    case TextKey(text) => ReadTextNode(s, decode, depth, a, text);
  }

  lemma ReadNullHere(s: Bytes, decode: Decoder, depth: nat, a: At)
    requires depth <= MAX_DEPTH && a.nodes + 1 <= MAX_NODES && Here(s, a.offset, [78, 59])
    ensures ReadValue(s, decode, depth, a) == Ok(Scanned(Null, At(a.offset + 2, a.nodes + 1)))
  {
    hide Here;
    assert [78] + [59] == [78, 59];
    HereSplit(s, a.offset, [78], [59]);
    HereByte(s, a.offset, 78);
    ExpectHere(s, At(a.offset + 1, a.nodes + 1), 59);
  }

  lemma {:induction false} ReadArrayPrinted(s: Bytes, decode: Decoder, encode: Encoder, depth: nat, a: At, entries: seq<Entry>)
    requires depth <= MAX_DEPTH && |entries| <= MAX_ITEMS && KeysDiffer(entries) && FitAll(entries, decode, encode, depth + 1)
    requires |s| <= MAX_SESSION_BYTES && a.nodes + 1 + NodesOf(entries) <= MAX_NODES
    requires Here(s, a.offset, [97] + PrintBody(entries, encode))
    ensures ReadValue(s, decode, depth, a)
         == Ok(Scanned(Array(entries), At(a.offset + 1 + |PrintBody(entries, encode)|, a.nodes + 1 + NodesOf(entries))))
    decreases entries, 2
  {
    hide Here, PrintBody, ReadEntries, FitAll, KeysDiffer, NodesOf;
    HereSplit(s, a.offset, [97], PrintBody(entries, encode));
    HereByte(s, a.offset, 97);
    ReadEntriesPrinted(s, decode, encode, depth, At(a.offset + 1, a.nodes + 1), entries);
  }

  function PrintHead(name: string, encode: Encoder): Bytes {
    [58] + Signed(|encode(name)|) + [58] + Quoted(encode(name))
  }

  lemma {:induction false} ReadObjectPrinted(s: Bytes, decode: Decoder, encode: Encoder, depth: nat, a: At, name: string, entries: seq<Entry>)
    requires depth <= MAX_DEPTH && |entries| <= MAX_ITEMS && KeysDiffer(entries) && FitAll(entries, decode, encode, depth + 1)
    requires Spelled(name, decode, encode)
    requires |s| <= MAX_SESSION_BYTES && a.nodes + 1 + NodesOf(entries) <= MAX_NODES
    requires Here(s, a.offset, [79] + PrintHead(name, encode) + PrintBody(entries, encode))
    ensures ReadValue(s, decode, depth, a)
         == Ok(Scanned(Object(name, entries),
                       At(a.offset + 1 + |PrintHead(name, encode)| + |PrintBody(entries, encode)|, a.nodes + 1 + NodesOf(entries))))
    decreases entries, 2
  {
    hide Here, PrintBody, ReadEntries, ReadClass, FitAll, KeysDiffer, NodesOf, Spelled, Signed, Quoted;
    var i, head, body := a.offset, PrintHead(name, encode), PrintBody(entries, encode);
    HereSplit(s, i, [79] + head, body);
    HereSplit(s, i, [79], head);
    HereByte(s, i, 79);
    ReadClassHere(s, decode, encode, At(i + 1, a.nodes + 1), name);
    ReadEntriesPrinted(s, decode, encode, depth, At(i + 1 + |head|, a.nodes + 1), entries);
  }

  lemma PrintParts(node: Node, encode: Encoder)
    ensures node.Array? ==> Print(node, encode) == [97] + PrintBody(node.entries, encode)
    ensures node.Object? ==>
      Print(node, encode) == [79] + PrintHead(node.className, encode) + PrintBody(node.properties, encode)
  {
    hide Signed, PrintAll, Quoted;
  }

  /** A printed value is read back as itself, wherever it stands, whatever is around it. */
  lemma {:induction false} ReadPrinted(s: Bytes, decode: Decoder, encode: Encoder, depth: nat, a: At, node: Node)
    requires Fits(node, decode, encode, depth) && |s| <= MAX_SESSION_BYTES && a.nodes + Nodes(node) <= MAX_NODES
    requires Here(s, a.offset, Print(node, encode))
    ensures ReadValue(s, decode, depth, a)
         == Ok(Scanned(node, At(a.offset + |Print(node, encode)|, a.nodes + Nodes(node))))
    decreases node
  {
    hide Here, Signed, PrintText, PrintBody, PrintHead, ReadValue, FitAll, KeysDiffer, Spelled;
    PrintParts(node, encode);
    match node
    case Null => ReadNullHere(s, decode, depth, a);
    case Boolean(truth) => ReadBooleanHere(s, decode, depth, a, truth);
    case Integer(number) => ReadIntegerNode(s, decode, depth, a, number);
    case Text(text) => ReadTextNode(s, decode, depth, a, text);
    case Array(entries) => ReadArrayPrinted(s, decode, encode, depth, a, entries);
    case Object(name, properties) => ReadObjectPrinted(s, decode, encode, depth, a, name, properties);
  }

  function PrintBody(entries: seq<Entry>, encode: Encoder): Bytes {
    [58] + Signed(|entries|) + [58] + [123] + PrintAll(entries, encode) + [125]
  }

  lemma ReadBooleanHere(s: Bytes, decode: Decoder, depth: nat, a: At, truth: bool)
    requires depth <= MAX_DEPTH && a.nodes + 1 <= MAX_NODES
    requires Here(s, a.offset, [98] + [58] + [if truth then 49 else 48] + [59])
    ensures ReadValue(s, decode, depth, a) == Ok(Scanned(Boolean(truth), At(a.offset + 4, a.nodes + 1)))
  {
    hide Here;
    var i := a.offset;
    HereSplit4(s, i, [98], [58], [if truth then 49 else 48], [59]);
    HereByte(s, i, 98);
    HereByte(s, i + 1, 58);
    HereByte(s, i + 2, if truth then 49 else 48);
    HereByte(s, i + 3, 59);
  }

  lemma {:induction false} ReadEntriesPrinted(s: Bytes, decode: Decoder, encode: Encoder, depth: nat, a: At, entries: seq<Entry>)
    requires |entries| <= MAX_ITEMS && KeysDiffer(entries) && FitAll(entries, decode, encode, depth + 1) && depth <= MAX_DEPTH
    requires |s| <= MAX_SESSION_BYTES && a.nodes + NodesOf(entries) <= MAX_NODES
    requires Here(s, a.offset, PrintBody(entries, encode))
    ensures ReadEntries(s, decode, depth, a)
         == Ok(Scanned(entries, At(a.offset + |PrintBody(entries, encode)|, a.nodes + NodesOf(entries))))
    decreases entries, 1
  {
    hide Here, Signed, PrintAll, ReadInteger, ReadMore, Expect, FitAll, NodesOf, KeysDiffer;
    var i, n, all := a.offset, Signed(|entries|), PrintAll(entries, encode);
    assert PrintBody(entries, encode) == [58] + n + [58] + ([123] + all + [125]);
    Here58(s, i, [58], n, [123] + all + [125]);
    HereSplit(s, i + 2 + |n|, [123] + all, [125]);
    HereSplit(s, i + 2 + |n|, [123], all);
    ExpectHere(s, a, 58);
    ReadIntegerHere(s, At(i + 1, a.nodes), |entries|, 58);
    ExpectHere(s, At(i + 1 + |n|, a.nodes), 58);
    ExpectHere(s, At(i + 2 + |n|, a.nodes), 123);
    NoKeysYet(entries);
    ReadMorePrinted(s, decode, encode, depth + 1, At(i + 3 + |n|, a.nodes), [], entries);
    assert [] + entries == entries;
    ExpectHere(s, At(i + 3 + |n| + |all|, a.nodes + NodesOf(entries)), 125);
  }

  ghost predicate KeysApart(read: seq<Entry>, entries: seq<Entry>) {
    KeysDiffer(read + entries)
  }

  lemma NoKeysYet(entries: seq<Entry>)
    requires KeysDiffer(entries)
    ensures KeysApart([], entries)
  {
    assert [] + entries == entries;
  }

  lemma KeyIsNew(read: seq<Entry>, entries: seq<Entry>)
    requires entries != [] && KeysApart(read, entries)
    ensures !HasKey(read, entries[0].key)
    ensures KeysApart(read + [entries[0]], entries[1..])
    ensures read + [entries[0]] + entries[1..] == read + entries
  {
    assert read + [entries[0]] + entries[1..] == read + entries;
    assert (read + entries)[|read|] == entries[0];
    assert forall i :: 0 <= i < |read| ==> (read + entries)[i] == read[i];
  }

  lemma {:induction false} ReadMorePrinted(s: Bytes, decode: Decoder, encode: Encoder, depth: nat, a: At, read: seq<Entry>, entries: seq<Entry>)
    requires depth <= MAX_DEPTH + 1 && |entries| <= MAX_ITEMS && FitAll(entries, decode, encode, depth) && KeysApart(read, entries)
    requires |s| <= MAX_SESSION_BYTES && a.nodes + NodesOf(entries) <= MAX_NODES
    requires Here(s, a.offset, PrintAll(entries, encode))
    ensures ReadMore(s, decode, depth, a, read, |entries|)
         == Ok(Scanned(read + entries, At(a.offset + |PrintAll(entries, encode)|, a.nodes + NodesOf(entries))))
    decreases entries, 0
  {
    hide Here, PrintKey, ReadValue, Print, Nodes, KeysApart, HasKey, Fits, SafeKey;
    if entries == [] {
      assert read + entries == read;
    } else {
      var e, i := entries[0], a.offset;
      assert entries decreases to e;
      var key, value, rest := PrintKey(e.key), Print(e.value, encode), PrintAll(entries[1..], encode);
      HereSplit(s, i, key + value, rest);
      HereSplit(s, i, key, value);
      FitsDepth(e.value, decode, encode, depth);
      ReadKeyHere(s, decode, depth, a, e.key);
      ReadPrinted(s, decode, encode, depth, At(i + |key|, a.nodes + 1), e.value);
      KeyIsNew(read, entries);
      assert AsKey(KeyNode(e.key)) == Ok(e.key);
      assert Entry(e.key, e.value) == e;
      ReadMorePrinted(s, decode, encode, depth, At(i + |key| + |value|, a.nodes + 1 + Nodes(e.value)), read + [e], entries[1..]);
    }
  }

  lemma FitsDepth(node: Node, decode: Decoder, encode: Encoder, depth: nat)
    requires Fits(node, decode, encode, depth)
    ensures depth <= MAX_DEPTH
  {
  }

  /** Printing a value within the limits and scanning it yields that value. */
  lemma RoundTrip(node: Node, decode: Decoder, encode: Encoder)
    requires Fits(node, decode, encode, 0) && Nodes(node) <= MAX_NODES && |Print(node, encode)| <= MAX_SESSION_BYTES
    ensures ReadWhole(Print(node, encode), decode) == Some(node)
  {
    hide Print, Fits, Nodes, ReadValue;
    var s := Print(node, encode);
    assert Here(s, 0, s);
    ReadPrinted(s, decode, encode, 0, At(0, 0), node);
  }

  // ---- Whatever is scanned is within the limits ----

  /** Whatever decodes has bytes of its own that decode to it. */
  ghost predicate Encodes(decode: Decoder, encode: Encoder) {
    forall b :: decode(b).Some? && decode(b).value != "" ==> Spelled(decode(b).value, decode, encode)
  }

  lemma {:induction false} FitAllSnoc(read: seq<Entry>, e: Entry, decode: Decoder, encode: Encoder, depth: nat)
    requires FitAll(read, decode, encode, depth) && SafeKey(e.key) && Fits(e.value, decode, encode, depth)
    ensures FitAll(read + [e], decode, encode, depth)
    ensures NodesOf(read + [e]) == NodesOf(read) + 1 + Nodes(e.value)
  {
    hide Fits, Nodes, SafeKey;
    if read == [] {
      assert [e][1..] == [];
      assert read + [e] == [e];
    } else {
      FitAllSnoc(read[1..], e, decode, encode, depth);
      assert (read + [e])[1..] == read[1..] + [e];
    }
  }

  lemma KeysDifferSnoc(read: seq<Entry>, e: Entry)
    requires KeysDiffer(read) && !HasKey(read, e.key)
    ensures KeysDiffer(read + [e])
  {
  }

  /** A value scanned is within the limits of depth, number, class name and distinct keys, and took as many nodes as it has. */
  lemma {:induction false} ScannedFits(s: Bytes, decode: Decoder, encode: Encoder, depth: nat, a: At)
    requires depth <= MAX_DEPTH + 1 && Encodes(decode, encode)
    requires ReadValue(s, decode, depth, a).Ok?
    ensures
      var scanned := ReadValue(s, decode, depth, a).value;
      && Fits(scanned.what, decode, encode, depth)
      && scanned.at.nodes == a.nodes + Nodes(scanned.what) <= MAX_NODES
    decreases MAX_DEPTH + 1 - depth, 0
  {
    hide Encodes, ReadInteger, ReadQuoted, ReadEntries, ReadClass, FitAll, NodesOf, KeysDiffer, Spelled, Advanced;
    IntegersAreSafe(s, a.(offset := a.offset + 2, nodes := a.nodes + 1));
    var tagged := At(a.offset + 1, a.nodes + 1);
    if s[a.offset] == 97 {
      ScannedAllFit(s, decode, encode, depth, tagged);
    } else if s[a.offset] == 79 {
      ClassIsSpelled(s, decode, encode, tagged);
      ScannedAllFit(s, decode, encode, depth, ReadClass(s, decode, tagged).value.at);
    } else if s[a.offset] == 115 {
      TextKeepsNodes(s, tagged);
    }
  }

  lemma IntegersAreSafe(s: Bytes, a: At)
    ensures ReadInteger(s, a).Ok? ==> Safe(ReadInteger(s, a).value.what) && ReadInteger(s, a).value.at.nodes == a.nodes
  {
    hide DigitsEnd, Decimal, Advanced;
  }

  lemma TextKeepsNodes(s: Bytes, a: At)
    requires ReadText(s, a).Ok?
    ensures ReadText(s, a).value.at.nodes == a.nodes
  {
    hide ReadInteger, Advanced;
    IntegersAreSafe(s, Expect(s, a, 58).value);
  }

  lemma ClassIsSpelled(s: Bytes, decode: Decoder, encode: Encoder, a: At)
    requires Encodes(decode, encode) && ReadClass(s, decode, a).Ok?
    ensures Spelled(ReadClass(s, decode, a).value.what, decode, encode)
    ensures ReadClass(s, decode, a).value.at.nodes == a.nodes
  {
    hide ReadInteger, Advanced;
    IntegersAreSafe(s, Expect(s, a, 58).value);
  }

  lemma {:induction false} ScannedAllFit(s: Bytes, decode: Decoder, encode: Encoder, depth: nat, a: At)
    requires depth <= MAX_DEPTH && Encodes(decode, encode)
    requires ReadEntries(s, decode, depth, a).Ok?
    ensures
      var scanned := ReadEntries(s, decode, depth, a).value;
      && |scanned.what| <= MAX_ITEMS && KeysDiffer(scanned.what) && FitAll(scanned.what, decode, encode, depth + 1)
      && scanned.at.nodes == a.nodes + NodesOf(scanned.what)
      && (a.nodes <= MAX_NODES ==> scanned.at.nodes <= MAX_NODES)
    decreases MAX_DEPTH - depth, MAX_ITEMS + 3
  {
    hide Encodes, ReadInteger, ReadMore, KeysDiffer;
    IntegersAreSafe(s, Expect(s, a, 58).value);
    var count := ReadInteger(s, Expect(s, a, 58).value).value;
    var open := Expect(s, Expect(s, count.at, 58).value, 123).value;
    NoneYet(decode, encode, depth + 1);
    ScannedMoreFit(s, decode, encode, depth + 1, open, [], count.what);
  }

  lemma NoneYet(decode: Decoder, encode: Encoder, depth: nat)
    ensures KeysDiffer([]) && FitAll([], decode, encode, depth) && NodesOf([]) == 0
  {
  }

  lemma {:induction false} ScannedMoreFit(s: Bytes, decode: Decoder, encode: Encoder, depth: nat, a: At, read: seq<Entry>, left: nat)
    requires depth <= MAX_DEPTH + 1 && left <= MAX_ITEMS && Encodes(decode, encode)
    requires KeysDiffer(read) && FitAll(read, decode, encode, depth)
    requires ReadMore(s, decode, depth, a, read, left).Ok?
    ensures
      var scanned := ReadMore(s, decode, depth, a, read, left).value;
      && |scanned.what| == |read| + left && KeysDiffer(scanned.what) && FitAll(scanned.what, decode, encode, depth)
      && scanned.at.nodes + NodesOf(read) == a.nodes + NodesOf(scanned.what)
    decreases MAX_DEPTH + 1 - depth, left + 1
  {
    hide Encodes, ReadValue, KeysDiffer, FitAll, NodesOf, HasKey, Fits, Advanced;
    if left > 0 {
      var node := ReadValue(s, decode, depth, a).value;
      ScannedFits(s, decode, encode, depth, a);
      ScannedFits(s, decode, encode, depth, node.at);
      var value := ReadValue(s, decode, depth, node.at).value;
      var e := Entry(AsKey(node.what).value, value.what);
      KeyFits(node.what, decode, encode, depth);
      KeysDifferSnoc(read, e);
      FitAllSnoc(read, e, decode, encode, depth);
      ScannedMoreFit(s, decode, encode, depth, value.at, read + [e], left - 1);
    }
  }

  lemma KeyFits(node: Node, decode: Decoder, encode: Encoder, depth: nat)
    requires Fits(node, decode, encode, depth) && AsKey(node).Ok?
    ensures SafeKey(AsKey(node).value) && Nodes(node) == 1
  {
  }

  // ---- What is printed is no longer than what was read ----

  /** Text is encoded in no more bytes than it was decoded from. */
  ghost predicate Compact(decode: Decoder, encode: Encoder) {
    forall b :: decode(b).Some? ==> |encode(decode(b).value)| <= |b|
  }

  lemma {:induction false} DigitsShort(text: Bytes)
    requires AreDigits(text) && text != []
    ensures |Digits(Decimal(text))| <= |text|
  {
    var k := |text| - 1;
    var front, last := text[..k], text[k];
    assert IsDigit(last) && AreDigits(front);
    assert Decimal(text) == 10 * Decimal(front) + (last - 48);
    if front == [] {
      assert Decimal(front) == 0;
    } else {
      DigitsShort(front);
      assert Decimal(text) / 10 == Decimal(front);
    }
  }

  lemma {:induction false} DigitsGrow(m: nat, n: nat)
    requires m <= n
    ensures |Digits(m)| <= |Digits(n)|
  {
    if m >= 10 {
      DigitsGrow(m / 10, n / 10);
    }
  }

  lemma IntegerShort(s: Bytes, a: At)
    requires a.offset <= |s| && ReadInteger(s, a).Ok?
    ensures
      var scanned := ReadInteger(s, a).value;
      |Signed(scanned.what)| <= scanned.at.offset - a.offset && a.offset < scanned.at.offset <= |s|
  {
    hide ReadInteger, Decimal, Digits, AreDigits;
    var scanned := ReadInteger(s, a).value;
    IntegersAreSafe(s, a);
    IntegerExactly(s, a, scanned.what, scanned.at.offset);
    var text := s[a.offset..scanned.at.offset];
    SignedShort(text, scanned.what);
  }

  lemma SignedShort(text: Bytes, n: int)
    requires Writes(text, n)
    ensures |Signed(n)| <= |text|
  {
    hide Decimal, AreDigits;
    if text[0] == 45 {
      DigitsShort(text[1..]);
      if n == 0 {
        assert |Digits(0)| == 1;
      }
    } else {
      DigitsShort(text);
    }
  }

  lemma QuotedRead(s: Bytes, a: At, length: nat)
    requires ReadQuoted(s, a, length).Ok?
    ensures
      var scanned := ReadQuoted(s, a, length).value;
      |scanned.what| == length && scanned.at.offset == a.offset + length + 2 <= |s|
  {
  }

  lemma TextShort(s: Bytes, a: At)
    requires ReadText(s, a).Ok?
    ensures
      var scanned := ReadText(s, a).value;
      |PrintText(scanned.what)| <= scanned.at.offset - a.offset && scanned.at.offset <= |s|
  {
    hide ReadInteger, ReadQuoted, Signed, Expect, Advanced;
    var colon := At(a.offset + 1, a.nodes);
    ExpectStep(s, a, 58);
    IntegerShort(s, colon);
    var length := ReadInteger(s, colon).value;
    ExpectStep(s, length.at, 58);
    var second := At(length.at.offset + 1, length.at.nodes);
    QuotedRead(s, second, length.what);
    ExpectStep(s, ReadQuoted(s, second, length.what).value.at, 59);
  }

  lemma ClassShort(s: Bytes, decode: Decoder, encode: Encoder, a: At)
    requires Compact(decode, encode) && ReadClass(s, decode, a).Ok?
    ensures
      var scanned := ReadClass(s, decode, a).value;
      |PrintHead(scanned.what, encode)| <= scanned.at.offset - a.offset && scanned.at.offset <= |s|
  {
    hide ReadInteger, ReadQuoted, Expect, Advanced, Digits;
    var colon := At(a.offset + 1, a.nodes);
    ExpectStep(s, a, 58);
    IntegerShort(s, colon);
    var length := ReadInteger(s, colon).value;
    ExpectStep(s, length.at, 58);
    var second := At(length.at.offset + 1, length.at.nodes);
    QuotedRead(s, second, length.what);
    var quoted := ReadQuoted(s, second, length.what).value.what;
    DigitsGrow(|encode(decode(quoted).value)|, length.what);
  }

  lemma {:induction false} PrintAllSnoc(entries: seq<Entry>, e: Entry, encode: Encoder)
    ensures |PrintAll(entries + [e], encode)| == |PrintAll(entries, encode)| + |PrintKey(e.key)| + |Print(e.value, encode)|
  {
    hide Print, PrintKey;
    var all := entries + [e];
    if entries == [] {
      assert all == [e] && all[1..] == [];
    } else {
      assert all[0] == entries[0] && all[1..] == entries[1..] + [e];
      PrintAllSnoc(entries[1..], e, encode);
    }
  }

  lemma KeyPrinted(node: Node, encode: Encoder)
    requires AsKey(node).Ok?
    ensures PrintKey(AsKey(node).value) == Print(node, encode)
  {
  }

  /** Whatever is read, with zeros and signs it could do without, its printed form is no longer. */
  lemma {:induction false} PrintedShort(s: Bytes, decode: Decoder, encode: Encoder, depth: nat, a: At)
    requires depth <= MAX_DEPTH + 1 && Compact(decode, encode) && ReadValue(s, decode, depth, a).Ok?
    ensures
      var scanned := ReadValue(s, decode, depth, a).value;
      |Print(scanned.what, encode)| <= scanned.at.offset - a.offset
    decreases MAX_DEPTH + 1 - depth, 0
  {
    hide Compact, ReadInteger, ReadText, ReadEntries, ReadClass, PrintAll, PrintText, Signed, Advanced;
    var tagged := At(a.offset + 1, a.nodes + 1);
    if s[a.offset] == 97 {
      AllShort(s, decode, encode, depth, tagged);
    } else if s[a.offset] == 79 {
      ClassShort(s, decode, encode, tagged);
      AllShort(s, decode, encode, depth, ReadClass(s, decode, tagged).value.at);
    } else if s[a.offset] == 115 {
      TextShort(s, tagged);
    } else if s[a.offset] == 105 {
      IntegerShort(s, At(a.offset + 2, a.nodes + 1));
    }
  }

  lemma {:induction false} AllShort(s: Bytes, decode: Decoder, encode: Encoder, depth: nat, a: At)
    requires depth <= MAX_DEPTH && Compact(decode, encode) && ReadEntries(s, decode, depth, a).Ok?
    ensures
      var scanned := ReadEntries(s, decode, depth, a).value;
      |Signed(|scanned.what|)| + |PrintAll(scanned.what, encode)| + 4 <= scanned.at.offset - a.offset
    decreases MAX_DEPTH - depth, MAX_ITEMS + 3
  {
    hide Compact, ReadInteger, ReadMore, ReadEntries, Signed, Expect, Advanced;
    var count := EntriesRead(s, decode, depth, a);
    IntegerShort(s, At(a.offset + 1, a.nodes));
    MoreShort(s, decode, encode, depth + 1, At(count.at.offset + 2, count.at.nodes), [], count.what);
  }

  /** The count that was read, and the entries between the braces behind it. */
  lemma EntriesRead(s: Bytes, decode: Decoder, depth: nat, a: At) returns (count: Scanned<int>)
    requires depth <= MAX_DEPTH && ReadEntries(s, decode, depth, a).Ok?
    ensures a.offset < |s| && ReadInteger(s, At(a.offset + 1, a.nodes)) == Ok(count) && 0 <= count.what <= MAX_ITEMS
    ensures
      var entries := ReadMore(s, decode, depth + 1, At(count.at.offset + 2, count.at.nodes), [], count.what);
      && entries.Ok?
      && ReadEntries(s, decode, depth, a) == Ok(Scanned(entries.value.what, At(entries.value.at.offset + 1, entries.value.at.nodes)))
  {
    hide ReadInteger, ReadMore, Expect, Advanced;
    ExpectStep(s, a, 58);
    count := ReadInteger(s, At(a.offset + 1, a.nodes)).value;
    ExpectStep(s, count.at, 58);
    var open := At(count.at.offset + 2, count.at.nodes);
    ExpectStep(s, At(count.at.offset + 1, count.at.nodes), 123);
    var entries := ReadMore(s, decode, depth + 1, open, [], count.what).value;
    ExpectStep(s, entries.at, 125);
  }

  lemma {:induction false} MoreShort(s: Bytes, decode: Decoder, encode: Encoder, depth: nat, a: At, read: seq<Entry>, left: nat)
    requires depth <= MAX_DEPTH + 1 && left <= MAX_ITEMS && Compact(decode, encode)
    requires ReadMore(s, decode, depth, a, read, left).Ok?
    ensures
      var scanned := ReadMore(s, decode, depth, a, read, left).value;
      && |scanned.what| == |read| + left
      && |PrintAll(scanned.what, encode)| - |PrintAll(read, encode)| <= scanned.at.offset - a.offset
    decreases MAX_DEPTH + 1 - depth, left + 1
  {
    hide Compact, ReadValue, HasKey, PrintAll, Print, PrintKey, Advanced;
    if left > 0 {
      var node := ReadValue(s, decode, depth, a).value;
      PrintedShort(s, decode, encode, depth, a);
      PrintedShort(s, decode, encode, depth, node.at);
      var value := ReadValue(s, decode, depth, node.at).value;
      var e := Entry(AsKey(node.what).value, value.what);
      KeyPrinted(node.what, encode);
      PrintAllSnoc(read, e, encode);
      MoreShort(s, decode, encode, depth, value.at, read + [e], left - 1);
    }
  }

  /** What the scanner returns is within the limits, and printed and scanned again comes back, from no more bytes. */
  lemma ScannedComesBack(s: Bytes, decode: Decoder, encode: Encoder)
    requires Encodes(decode, encode) && Compact(decode, encode) && ReadWhole(s, decode).Some?
    ensures Fits(ReadWhole(s, decode).value, decode, encode, 0) && Nodes(ReadWhole(s, decode).value) <= MAX_NODES
    ensures |Print(ReadWhole(s, decode).value, encode)| <= |s|
    ensures ReadWhole(Print(ReadWhole(s, decode).value, encode), decode) == ReadWhole(s, decode)
  {
    hide ReadValue, Encodes, Compact, Fits, Nodes, Print, Advanced;
    ScannedFits(s, decode, encode, 0, At(0, 0));
    PrintedShort(s, decode, encode, 0, At(0, 0));
    RoundTrip(ReadWhole(s, decode).value, decode, encode);
  }

  // ---- Locality ----

  /** The bytes of `s` from `lo` to `hi` are those of `t`, `d` further on. */
  ghost predicate Same(s: Bytes, t: Bytes, d: int, lo: nat, hi: nat) {
    lo <= hi <= |s| && 0 <= lo + d && hi + d <= |t| && s[lo..hi] == t[lo + d..hi + d]
  }

  lemma SameByte(s: Bytes, t: Bytes, d: int, lo: nat, hi: nat, k: nat)
    requires Same(s, t, d, lo, hi) && lo <= k < hi
    ensures 0 <= k + d < |t| && s[k] == t[k + d]
  {
    assert s[lo..hi][k - lo] == t[lo + d..hi + d][k - lo];
  }

  lemma SameSlice(s: Bytes, t: Bytes, d: int, lo: nat, hi: nat, from: nat, to: nat)
    requires Same(s, t, d, lo, hi) && lo <= from <= to <= hi
    ensures 0 <= from + d && to + d <= |t| && s[from..to] == t[from + d..to + d]
  {
    forall k | from <= k < to
      ensures s[k] == t[k + d]
    {
      SameByte(s, t, d, lo, hi, k);
    }
    assert forall k :: 0 <= k < to - from ==> s[from..to][k] == s[from + k] && t[from + d..to + d][k] == t[from + k + d];
  }

  /** The same place `d` further on, after `m` fewer nodes. */
  function Shifted(a: At, d: int, m: int): At
    requires a.offset + d >= 0 && m <= a.nodes
  {
    At(a.offset + d, a.nodes - m)
  }

  /** The scan succeeded, and shifted it is `other`. */
  ghost predicate Follows<T(!new)>(scan: Scan<T>, other: Scan<T>, d: int, m: int) {
    && scan.Ok? && scan.value.at.offset + d >= 0 && m <= scan.value.at.nodes
    && other == Ok(Scanned(scan.value.what, Shifted(scan.value.at, d, m)))
  }

  lemma ExpectLocal(s: Bytes, t: Bytes, d: int, m: int, lo: nat, hi: nat, a: At, b: Byte)
    requires Same(s, t, d, lo, hi) && m <= a.nodes && lo <= a.offset < hi && Expect(s, a, b).Ok?
    ensures Expect(t, Shifted(a, d, m), b) == Ok(Shifted(At(a.offset + 1, a.nodes), d, m))
  {
    hide Same;
    SameByte(s, t, d, lo, hi, a.offset);
  }

  lemma IntegerLocal(s: Bytes, t: Bytes, d: int, m: int, lo: nat, hi: nat, a: At)
    requires Same(s, t, d, lo, hi) && m <= a.nodes && lo <= a.offset && ReadInteger(s, a).Ok? && ReadInteger(s, a).value.at.offset < hi
    ensures Follows(ReadInteger(s, a), ReadInteger(t, Shifted(a, d, m)), d, m)
  {
    hide Same, Decimal, Advanced, AreDigits;
    var i := a.offset;
    var start := if s[i] == 45 then i + 1 else i;
    var end := DigitsEnd(s, start);
    SameByte(s, t, d, lo, hi, i);
    SameSlice(s, t, d, lo, hi, start, end);
    SameByte(s, t, d, lo, hi, end);
    SameBound(s, t, d, lo, hi);
    DigitsEndHere(t, start + d, end + d);
  }

  lemma SameBound(s: Bytes, t: Bytes, d: int, lo: nat, hi: nat)
    requires Same(s, t, d, lo, hi)
    ensures lo <= hi <= |s| && 0 <= lo + d && hi + d <= |t|
  {
  }

  lemma QuotedLocal(s: Bytes, t: Bytes, d: int, m: int, lo: nat, hi: nat, a: At, length: nat)
    requires Same(s, t, d, lo, hi) && m <= a.nodes && lo <= a.offset
    requires ReadQuoted(s, a, length).Ok? && ReadQuoted(s, a, length).value.at.offset <= hi
    ensures Follows(ReadQuoted(s, a, length), ReadQuoted(t, Shifted(a, d, m), length), d, m)
  {
    hide Same, Expect, Advanced;
    var i := a.offset;
    ExpectStep(s, a, 34);
    ExpectStep(s, At(i + 1 + length, a.nodes), 34);
    ExpectLocal(s, t, d, m, lo, hi, a, 34);
    SameSlice(s, t, d, lo, hi, i + 1, i + 1 + length);
    ExpectLocal(s, t, d, m, lo, hi, At(i + 1 + length, a.nodes), 34);
  }

  lemma ExpectStep(s: Bytes, a: At, b: Byte)
    ensures Expect(s, a, b).Ok? ==> Expect(s, a, b) == Ok(At(a.offset + 1, a.nodes)) && a.offset < |s| && s[a.offset] == b
  {
  }

  lemma TextLocal(s: Bytes, t: Bytes, d: int, m: int, lo: nat, hi: nat, a: At)
    requires Same(s, t, d, lo, hi) && m <= a.nodes && lo <= a.offset && ReadText(s, a).Ok? && ReadText(s, a).value.at.offset <= hi
    ensures Follows(ReadText(s, a), ReadText(t, Shifted(a, d, m)), d, m)
  {
    hide Same, Expect, ReadInteger, ReadQuoted;
    var colon := At(a.offset + 1, a.nodes);
    ExpectStep(s, a, 58);
    var length := ReadInteger(s, colon).value;
    ExpectStep(s, length.at, 58);
    var second := At(length.at.offset + 1, length.at.nodes);
    var quoted := ReadQuoted(s, second, length.what).value;
    ExpectStep(s, quoted.at, 59);
    ExpectLocal(s, t, d, m, lo, hi, a, 58);
    IntegerLocal(s, t, d, m, lo, hi, colon);
    ExpectLocal(s, t, d, m, lo, hi, length.at, 58);
    QuotedSize(s, second, length.what);
    QuotedLocal(s, t, d, m, lo, hi, second, length.what);
    ExpectLocal(s, t, d, m, lo, hi, quoted.at, 59);
    SameBound(s, t, d, lo, hi);
  }

  lemma QuotedSize(s: Bytes, a: At, length: nat)
    requires ReadQuoted(s, a, length).Ok?
    ensures ReadQuoted(s, a, length).value.at == At(a.offset + length + 2, a.nodes)
  {
  }

  lemma ClassLocal(s: Bytes, t: Bytes, decode: Decoder, d: int, m: int, lo: nat, hi: nat, a: At)
    requires Same(s, t, d, lo, hi) && m <= a.nodes && lo <= a.offset
    requires ReadClass(s, decode, a).Ok? && ReadClass(s, decode, a).value.at.offset <= hi
    ensures Follows(ReadClass(s, decode, a), ReadClass(t, decode, Shifted(a, d, m)), d, m)
  {
    hide Same, Expect, ReadInteger, ReadQuoted;
    var colon := At(a.offset + 1, a.nodes);
    ExpectStep(s, a, 58);
    var length := ReadInteger(s, colon).value;
    ExpectStep(s, length.at, 58);
    var second := At(length.at.offset + 1, length.at.nodes);
    var quoted := ReadQuoted(s, second, length.what).value;
    ExpectLocal(s, t, d, m, lo, hi, a, 58);
    IntegerLocal(s, t, d, m, lo, hi, colon);
    ExpectLocal(s, t, d, m, lo, hi, length.at, 58);
    QuotedSize(s, second, length.what);
    QuotedLocal(s, t, d, m, lo, hi, second, length.what);
    SameBound(s, t, d, lo, hi);
  }

  lemma BooleanLocal(s: Bytes, t: Bytes, d: int, m: int, lo: nat, hi: nat, a: At)
    requires Same(s, t, d, lo, hi) && m <= a.nodes && lo <= a.offset && ReadBoolean(s, a).Ok? && ReadBoolean(s, a).value.at.offset <= hi
    ensures Follows(ReadBoolean(s, a), ReadBoolean(t, Shifted(a, d, m)), d, m)
  {
    hide Same;
    SameByte(s, t, d, lo, hi, a.offset);
    SameByte(s, t, d, lo, hi, a.offset + 1);
    SameByte(s, t, d, lo, hi, a.offset + 2);
  }

  /** What a value is read as depends only on the bytes read: the same bytes elsewhere give the same value. */
  lemma {:induction false} ValueLocal(s: Bytes, t: Bytes, decode: Decoder, d: int, m: int, lo: nat, hi: nat, depth: nat, a: At)
    requires depth <= MAX_DEPTH + 1 && Same(s, t, d, lo, hi) && m <= a.nodes && lo <= a.offset
    requires ReadValue(s, decode, depth, a).Ok? && ReadValue(s, decode, depth, a).value.at.offset <= hi
    requires ReadValue(s, decode, depth, a).value.at.nodes - m <= MAX_NODES
    ensures Follows(ReadValue(s, decode, depth, a), ReadValue(t, decode, depth, Shifted(a, d, m)), d, m)
    decreases MAX_DEPTH + 1 - depth, 0
  {
    hide Same, Expect, ReadInteger, ReadText, ReadEntries, ReadClass, ReadBoolean;
    var tagged := At(a.offset + 1, a.nodes + 1);
    SameByte(s, t, d, lo, hi, a.offset);
    match s[a.offset]
    case 78 =>
      ExpectStep(s, tagged, 59);
      ExpectLocal(s, t, d, m, lo, hi, tagged, 59);
    case 98 => BooleanLocal(s, t, d, m, lo, hi, tagged);
    case 105 =>
      ExpectStep(s, tagged, 58);
      var colon := At(tagged.offset + 1, tagged.nodes);
      var number := ReadInteger(s, colon).value;
      ExpectStep(s, number.at, 59);
      ExpectLocal(s, t, d, m, lo, hi, tagged, 58);
      IntegerLocal(s, t, d, m, lo, hi, colon);
      ExpectLocal(s, t, d, m, lo, hi, number.at, 59);
    case 115 => TextLocal(s, t, d, m, lo, hi, tagged);
    case 97 => EntriesLocal(s, t, decode, d, m, lo, hi, depth, tagged);
    case 79 =>
      var name := ReadClass(s, decode, tagged).value;
      ClassLocal(s, t, decode, d, m, lo, hi, tagged);
      EntriesLocal(s, t, decode, d, m, lo, hi, depth, name.at);
    case _ =>
  }

  lemma {:induction false} EntriesLocal(s: Bytes, t: Bytes, decode: Decoder, d: int, m: int, lo: nat, hi: nat, depth: nat, a: At)
    requires depth <= MAX_DEPTH && Same(s, t, d, lo, hi) && m <= a.nodes && lo <= a.offset
    requires ReadEntries(s, decode, depth, a).Ok? && ReadEntries(s, decode, depth, a).value.at.offset <= hi
    requires ReadEntries(s, decode, depth, a).value.at.nodes - m <= MAX_NODES
    ensures Follows(ReadEntries(s, decode, depth, a), ReadEntries(t, decode, depth, Shifted(a, d, m)), d, m)
    decreases MAX_DEPTH - depth, MAX_ITEMS + 3
  {
    hide Same, Expect, ReadInteger, ReadMore;
    var colon := At(a.offset + 1, a.nodes);
    ExpectStep(s, a, 58);
    var count := ReadInteger(s, colon).value;
    ExpectStep(s, count.at, 58);
    var second := At(count.at.offset + 1, count.at.nodes);
    ExpectStep(s, second, 123);
    var open := At(second.offset + 1, second.nodes);
    var entries := ReadMore(s, decode, depth + 1, open, [], count.what).value;
    ExpectStep(s, entries.at, 125);
    ExpectLocal(s, t, d, m, lo, hi, a, 58);
    IntegerLocal(s, t, d, m, lo, hi, colon);
    ExpectLocal(s, t, d, m, lo, hi, count.at, 58);
    ExpectLocal(s, t, d, m, lo, hi, second, 123);
    MoreLocal(s, t, decode, d, m, lo, hi, depth + 1, open, [], count.what);
    ExpectLocal(s, t, d, m, lo, hi, entries.at, 125);
  }

  lemma {:induction false} MoreLocal(s: Bytes, t: Bytes, decode: Decoder, d: int, m: int, lo: nat, hi: nat, depth: nat, a: At, read: seq<Entry>, left: nat)
    requires depth <= MAX_DEPTH + 1 && left <= MAX_ITEMS && Same(s, t, d, lo, hi) && m <= a.nodes && lo <= a.offset
    requires ReadMore(s, decode, depth, a, read, left).Ok? && ReadMore(s, decode, depth, a, read, left).value.at.offset <= hi
    requires ReadMore(s, decode, depth, a, read, left).value.at.nodes - m <= MAX_NODES
    ensures Follows(ReadMore(s, decode, depth, a, read, left), ReadMore(t, decode, depth, Shifted(a, d, m), read, left), d, m)
    decreases MAX_DEPTH + 1 - depth, left + 1
  {
    hide Same, ReadValue, HasKey, AsKey;
    SameBound(s, t, d, lo, hi);
    if left > 0 {
      var node := ReadValue(s, decode, depth, a).value;
      var value := ReadValue(s, decode, depth, node.at).value;
      var e := Entry(AsKey(node.what).value, value.what);
      ValueLocal(s, t, decode, d, m, lo, hi, depth, a);
      ValueLocal(s, t, decode, d, m, lo, hi, depth, node.at);
      MoreLocal(s, t, decode, d, m, lo, hi, depth, value.at, read + [e], left - 1);
    }
  }

  // ---- Sessions ----

  /** A field that is framed without ambiguity: a key without a bar that comes back from its bytes, and a value within the limits. */
  ghost predicate FieldFits(f: Field, decode: Decoder, encode: Encoder) {
    && encode(f.key) != [] && 124 !in encode(f.key) && decode(encode(f.key)) == Some(f.key)
    && Fits(f.value, decode, encode, 0)
  }

  ghost predicate FieldsFit(fields: seq<Field>, decode: Decoder, encode: Encoder) {
    forall i :: 0 <= i < |fields| ==> FieldFits(fields[i], decode, encode)
  }

  ghost predicate FieldsDiffer(fields: seq<Field>) {
    forall i, j :: 0 <= i < j < |fields| ==> fields[i].key != fields[j].key
  }

  function PrintFields(fields: seq<Field>, encode: Encoder): Bytes {
    if fields == [] then []
    else encode(fields[0].key) + [124] + Print(fields[0].value, encode) + PrintFields(fields[1..], encode)
  }

  function FieldNodes(fields: seq<Field>): nat {
    if fields == [] then 0 else Nodes(fields[0].value) + FieldNodes(fields[1..])
  }

  lemma ReadKeyFramed(s: Bytes, decode: Decoder, a: At, key: Bytes)
    requires Here(s, a.offset, key + [124]) && key != [] && 124 !in key && decode(key).Some?
    ensures ReadSessionKey(s, decode, a) == Ok(Scanned(decode(key).value, At(a.offset + |key| + 1, a.nodes)))
  {
    var i := a.offset;
    HereSplit(s, i, key, [124]);
    HereByte(s, i + |key|, 124);
    assert s[i..i + |key|] == key;
    BarAfterHere(s, i, i + |key|);
  }

  lemma {:induction false} BarAfterHere(s: Bytes, i: nat, end: nat)
    requires i <= end < |s| && 124 !in s[i..end] && s[end] == 124
    ensures BarAfter(s, i) == end
    decreases end - i
  {
    if i < end {
      assert s[i..end][0] == s[i] && s[i..end][1..] == s[i + 1..end];
      BarAfterHere(s, i + 1, end);
    }
  }

  lemma FieldIsNew(read: seq<Field>, fields: seq<Field>)
    requires fields != [] && FieldsDiffer(read + fields)
    ensures !HasField(read, fields[0].key)
    ensures FieldsDiffer(read + [fields[0]] + fields[1..]) && read + [fields[0]] + fields[1..] == read + fields
  {
    assert read + [fields[0]] + fields[1..] == read + fields;
    assert (read + fields)[|read|] == fields[0];
    assert forall i :: 0 <= i < |read| ==> (read + fields)[i] == read[i];
  }

  lemma {:induction false} ReadFieldsPrinted(s: Bytes, decode: Decoder, encode: Encoder, a: At, read: seq<Field>, fields: seq<Field>)
    requires FieldsFit(fields, decode, encode) && FieldsDiffer(read + fields)
    requires |s| <= MAX_SESSION_BYTES && a.nodes + FieldNodes(fields) <= MAX_NODES
    requires Here(s, a.offset, PrintFields(fields, encode)) && a.offset + |PrintFields(fields, encode)| == |s|
    ensures ReadFields(s, decode, a, read) == Ok(read + fields)
    decreases |fields|
  {
    hide Here, ReadValue, ReadSessionKey, Print, Fits, Nodes, HasField, FieldsDiffer;
    if fields == [] {
      assert read + fields == read;
    } else {
      var f, i := fields[0], a.offset;
      var key, value, rest := encode(f.key), Print(f.value, encode), PrintFields(fields[1..], encode);
      HereSplit(s, i, key + [124] + value, rest);
      HereSplit(s, i, key + [124], value);
      assert FieldFits(f, decode, encode);
      ReadKeyFramed(s, decode, a, key);
      ReadPrinted(s, decode, encode, 0, At(i + |key| + 1, a.nodes), f.value);
      FieldIsNew(read, fields);
      assert Field(f.key, f.value) == f;
      ReadFieldsPrinted(s, decode, encode, At(i + |key| + 1 + |value|, a.nodes + Nodes(f.value)), read + [f], fields[1..]);
    }
  }

  /** The fields of a session written as `key|value`, one after the other, are recovered in full. */
  lemma SessionRoundTrip(fields: seq<Field>, decode: Decoder, encode: Encoder)
    requires fields != [] && FieldsFit(fields, decode, encode) && FieldsDiffer(fields)
    requires FieldNodes(fields) <= MAX_NODES && |PrintFields(fields, encode)| <= MAX_SESSION_BYTES
    ensures ReadSession(PrintFields(fields, encode), decode) == Some(fields)
  {
    hide Print, Fits, Nodes, ReadFields, Here, FieldsDiffer;
    var s := PrintFields(fields, encode);
    WholeHere(s);
    assert [] + fields == fields;
    ReadFieldsPrinted(s, decode, encode, At(0, 0), [], fields);
    assert s[|encode(fields[0].key)|] == 124;
  }

  lemma WholeHere(s: Bytes)
    ensures Here(s, 0, s)
  {
    assert s[0..|s|] == s;
  }

  /** The bytes are these fields in this order, each a key, a bar and bytes that on their own are that field's value. */
  ghost predicate Framed(s: Bytes, decode: Decoder, fields: seq<Field>)
    decreases |fields|
  {
    if fields == [] then s == []
    else
      exists key: Bytes, value: Bytes, rest: Bytes ::
        && s == key + [124] + value + rest && key != [] && 124 !in key
        && decode(key) == Some(fields[0].key) && ReadWhole(value, decode) == Some(fields[0].value)
        && Framed(rest, decode, fields[1..])
  }

  lemma FieldsSnoc(read: seq<Field>, f: Field)
    requires FieldsDiffer(read) && !HasField(read, f.key)
    ensures FieldsDiffer(read + [f])
  {
  }

  lemma {:induction false} FieldNodesSnoc(read: seq<Field>, f: Field)
    ensures FieldNodes(read + [f]) == FieldNodes(read) + Nodes(f.value)
  {
    hide Nodes;
    if read == [] {
      assert read + [f] == [f];
    } else {
      FieldNodesSnoc(read[1..], f);
      assert (read + [f])[1..] == read[1..] + [f];
    }
  }

  /** A value read in the middle of a session is what its own bytes are read as. */
  lemma ReadAlone(s: Bytes, decode: Decoder, a: At)
    requires |s| <= MAX_SESSION_BYTES && ReadValue(s, decode, 0, a).Ok?
    ensures
      var scanned := ReadValue(s, decode, 0, a).value;
      ReadWhole(s[a.offset..scanned.at.offset], decode) == Some(scanned.what)
  {
    hide ReadValue;
    var end := ReadValue(s, decode, 0, a).value.at.offset;
    var own := s[a.offset..end];
    var from: int := a.offset;
    assert own[0..|own|] == own;
    assert Same(s, own, -from, a.offset, end);
    NodesKept(s, decode, a);
    ValueLocal(s, own, decode, -from, a.nodes, a.offset, end, 0, a);
  }

  lemma NodesKept(s: Bytes, decode: Decoder, a: At)
    requires ReadValue(s, decode, 0, a).Ok?
    ensures a.nodes <= ReadValue(s, decode, 0, a).value.at.nodes <= MAX_NODES
  {
    hide ReadInteger, ReadText, ReadEntries, ReadObject, ReadBoolean;
  }

  lemma FramedStep(key: Bytes, value: Bytes, rest: Bytes, decode: Decoder, fields: seq<Field>)
    requires fields != [] && key != [] && 124 !in key && decode(key) == Some(fields[0].key)
    requires ReadWhole(value, decode) == Some(fields[0].value) && Framed(rest, decode, fields[1..])
    ensures Framed(key + [124] + value + rest, decode, fields)
  {
    hide ReadWhole;
  }

  lemma {:induction false} ReadIsFramed(s: Bytes, decode: Decoder, encode: Encoder, a: At, read: seq<Field>)
    requires |s| <= MAX_SESSION_BYTES && a.offset <= |s| && Encodes(decode, encode) && FieldsDiffer(read)
    requires ReadFields(s, decode, a, read).Ok? && a.nodes == FieldNodes(read) <= MAX_NODES
    ensures
      var all := ReadFields(s, decode, a, read).value;
      && |read| <= |all| && all[..|read|] == read && FieldsDiffer(all) && FieldNodes(all) <= MAX_NODES
      && Framed(s[a.offset..], decode, all[|read|..])
    decreases |s| - a.offset
  {
    hide ReadValue, ReadSessionKey, ReadWhole, Encodes, FieldsDiffer, FieldNodes, Nodes, Fits, HasField, Framed;
    if a.offset == |s| {
      NothingFramed(decode);
      assert s[a.offset..] == [] && read[|read|..] == [];
    } else {
      var key := ReadSessionKey(s, decode, a).value;
      var value := ReadValue(s, decode, 0, key.at).value;
      var f := Field(key.what, value.what);
      KeyOfSession(s, decode, a);
      ReadAlone(s, decode, key.at);
      ScannedFits(s, decode, encode, 0, key.at);
      FieldsSnoc(read, f);
      FieldNodesSnoc(read, f);
      ReadIsFramed(s, decode, encode, value.at, read + [f]);
      var all := ReadFields(s, decode, a, read).value;
      var bytes, own, rest := s[a.offset..key.at.offset - 1], s[key.at.offset..value.at.offset], s[value.at.offset..];
      assert all[|read|] == (read + [f])[|read|] == f;
      assert all[..|read|] == (read + [f])[..|read|];
      assert all[|read|..][1..] == all[|read| + 1..];
      FramedStep(bytes, own, rest, decode, all[|read|..]);
      assert s[a.offset..] == bytes + [124] + own + rest;
    }
  }

  lemma NothingFramed(decode: Decoder)
    ensures Framed([], decode, [])
  {
  }

  lemma KeyOfSession(s: Bytes, decode: Decoder, a: At)
    requires a.offset <= |s| && ReadSessionKey(s, decode, a).Ok?
    ensures
      var key := ReadSessionKey(s, decode, a).value;
      && a.offset + 1 < key.at.offset <= |s| && key.at.nodes == a.nodes
      && s[key.at.offset - 1] == 124 && 124 !in s[a.offset..key.at.offset - 1]
      && decode(s[a.offset..key.at.offset - 1]) == Some(key.what)
  {
  }

  lemma {:induction false} FramedIsRead(s: Bytes, decode: Decoder, encode: Encoder, a: At, read: seq<Field>, fields: seq<Field>)
    requires |s| <= MAX_SESSION_BYTES && a.offset <= |s| && Encodes(decode, encode)
    requires Framed(s[a.offset..], decode, fields) && FieldsDiffer(read + fields)
    requires a.nodes + FieldNodes(fields) <= MAX_NODES
    ensures ReadFields(s, decode, a, read) == Ok(read + fields)
    decreases |fields|
  {
    hide ReadValue, ReadSessionKey, ReadWhole, Encodes, FieldsDiffer, Nodes, Fits, HasField, Here, Framed;
    if fields == [] {
      NothingLeft(s[a.offset..], decode);
      assert read + fields == read;
    } else {
      var key, value, rest := FramedParts(s[a.offset..], decode, fields);
      var f, at := fields[0], At(a.offset + |key| + 1, a.nodes);
      var end := at.offset + |value|;
      SuffixParts(s, a.offset, key + [124], value, rest);
      ReadKeyFramed(s, decode, a, key);
      ReadWithin(s, decode, encode, at, value);
      FieldIsNew(read, fields);
      assert Field(f.key, f.value) == f;
      FramedIsRead(s, decode, encode, At(end, a.nodes + Nodes(f.value)), read + [f], fields[1..]);
    }
  }

  lemma NothingLeft(s: Bytes, decode: Decoder)
    requires Framed(s, decode, [])
    ensures s == []
  {
  }

  lemma FramedParts(s: Bytes, decode: Decoder, fields: seq<Field>) returns (key: Bytes, value: Bytes, rest: Bytes)
    requires fields != [] && Framed(s, decode, fields)
    ensures s == key + [124] + value + rest && key != [] && 124 !in key
    ensures decode(key) == Some(fields[0].key) && ReadWhole(value, decode) == Some(fields[0].value)
    ensures Framed(rest, decode, fields[1..])
  {
    hide ReadWhole;
    key, value, rest :|
      && s == key + [124] + value + rest && key != [] && 124 !in key
      && decode(key) == Some(fields[0].key) && ReadWhole(value, decode) == Some(fields[0].value)
      && Framed(rest, decode, fields[1..]);
  }

  /** A value that scans alone is read wherever its bytes stand, as long as its nodes are not too many. */
  lemma ReadWithin(s: Bytes, decode: Decoder, encode: Encoder, a: At, value: Bytes)
    requires Encodes(decode, encode) && ReadWhole(value, decode).Some? && a.offset + |value| <= |s|
    requires s[a.offset..a.offset + |value|] == value && a.nodes + Nodes(ReadWhole(value, decode).value) <= MAX_NODES
    ensures
      var node := ReadWhole(value, decode).value;
      ReadValue(s, decode, 0, a) == Ok(Scanned(node, At(a.offset + |value|, a.nodes + Nodes(node))))
  {
    hide ReadValue, Encodes, Nodes, Fits, Same, Advanced, ReadWhole, Follows;
    var start := At(0, 0);
    WholeIs(value, decode);
    ScannedFits(value, decode, encode, 0, start);
    var nodes: int := a.nodes;
    ItselfThere(value, s, a.offset);
    ValueLocal(value, s, decode, a.offset, -nodes, 0, |value|, 0, start);
    assert Shifted(start, a.offset, -nodes) == a;
    FollowsIs(ReadValue(value, decode, 0, start), ReadValue(s, decode, 0, a), a.offset, -nodes);
  }

  lemma FollowsIs<T(!new)>(scan: Scan<T>, other: Scan<T>, d: int, m: int)
    requires Follows(scan, other, d, m)
    ensures scan.Ok? && scan.value.at.offset + d >= 0 && m <= scan.value.at.nodes
    ensures other == Ok(Scanned(scan.value.what, At(scan.value.at.offset + d, scan.value.at.nodes - m)))
  {
  }

  lemma WholeIs(s: Bytes, decode: Decoder)
    requires ReadWhole(s, decode).Some?
    ensures
      var scan := ReadValue(s, decode, 0, At(0, 0));
      scan.Ok? && scan.value.what == ReadWhole(s, decode).value && scan.value.at.offset == |s|
  {
    hide ReadValue;
  }

  lemma ItselfThere(value: Bytes, s: Bytes, i: nat)
    requires i + |value| <= |s| && s[i..i + |value|] == value
    ensures Same(value, s, i, 0, |value|)
  {
    assert value[0..|value|] == value;
  }

  lemma SuffixParts(s: Bytes, i: nat, p: Bytes, q: Bytes, rest: Bytes)
    requires i <= |s| && s[i..] == p + q + rest
    ensures Here(s, i, p) && i + |p| + |q| <= |s| && s[i + |p|..i + |p| + |q|] == q && s[i + |p| + |q|..] == rest
  {
    assert Here(s, i, p + q + rest);
    HereSplit(s, i, p + q, rest);
    HereSplit(s, i, p, q);
    assert s[i + |p| + |q|..] == s[i..][|p| + |q|..];
  }

  /**
   * Exactly which sessions are read, and as what: not empty, not too large, cut into `key|value` segments with different
   * keys, each value on its own scanning in full, with no more nodes in all than one value may have.
   */
  lemma SessionExactly(s: Bytes, decode: Decoder, encode: Encoder, fields: seq<Field>)
    requires Encodes(decode, encode)
    ensures ReadSession(s, decode) == Some(fields) <==>
      s != [] && |s| <= MAX_SESSION_BYTES && Framed(s, decode, fields) && FieldsDiffer(fields) && FieldNodes(fields) <= MAX_NODES
  {
    hide ReadFields, Encodes, FieldsDiffer, FieldNodes, Framed;
    assert s[0..] == s && [] + fields == fields;
    NothingDiffers();
    if s != [] && |s| <= MAX_SESSION_BYTES {
      if ReadFields(s, decode, At(0, 0), []).Ok? {
        var all := ReadFields(s, decode, At(0, 0), []).value;
        ReadIsFramed(s, decode, encode, At(0, 0), []);
        assert all[0..] == all;
      }
      if Framed(s, decode, fields) && FieldsDiffer(fields) && FieldNodes(fields) <= MAX_NODES {
        FramedIsRead(s, decode, encode, At(0, 0), [], fields);
      }
    }
  }

  lemma NothingDiffers()
    ensures FieldsDiffer([]) && FieldNodes([]) == 0
  {
  }
}
