/** The scanner of PHP's serialization format, and the session framing around it (lib/sso-auth.ts). */
module PhpScanner {
  import opened Octets
  import opened Outcomes

  /** UTF-8 decoding, which may fail. */
  type Decoder = Bytes -> Option<string>

  const MAX_SESSION_BYTES: nat := 256 * 1024
  const MAX_DEPTH: nat := 64
  const MAX_NODES: nat := 20_000
  const MAX_ITEMS: nat := 20_000
  const MAX_SAFE: int := 0x1F_FFFF_FFFF_FFFF

  datatype Key = IntegerKey(number: int) | TextKey(text: Bytes)

  datatype Entry = Entry(key: Key, value: Node)

  datatype Node =
    | Null
    | Boolean(truth: bool)
    | Integer(number: int)
    | Text(text: Bytes)
    | Array(entries: seq<Entry>)
    | Object(className: string, properties: seq<Entry>)

  datatype Failure =
    | TooLarge | TooDeep | TooManyNodes | Truncated | Malformed | BadBoolean | UnknownTag | BadSessionKey | KeyNotUtf8
    | BadSize | DuplicateKey | BadClass | KeyNotScalar | BadLength | BadInteger | OutOfRange | DuplicateSessionKey

  /** Where the scanner stands, and how many nodes it has begun. */
  datatype At = At(offset: nat, nodes: nat)

  datatype Scanned<+T> = Scanned(what: T, at: At)

  type Scan<+T> = Result<Scanned<T>, Failure>

  /** On success the scanner has moved on, within the bytes, and the nodes are within their limit. */
  predicate Advanced<T(!new)>(s: Bytes, a: At, r: Scan<T>) {
    r.Ok? ==>
      && a.offset < r.value.at.offset <= |s|
      && a.nodes <= r.value.at.nodes
      && (a.nodes <= MAX_NODES ==> r.value.at.nodes <= MAX_NODES)
  }

  // ---- What each reading step yields ----

  function ReadByte(s: Bytes, a: At): Scan<Byte> {
    if a.offset < |s| then Ok(Scanned(s[a.offset], a.(offset := a.offset + 1))) else Err(Truncated)
  }

  function Expect(s: Bytes, a: At, expected: Byte): Result<At, Failure> {
    var byte :- ReadByte(s, a);
    if byte.what == expected then Ok(byte.at) else Err(Malformed)
  }

  predicate IsDigit(b: Byte) {
    48 <= b <= 57
  }

  predicate AreDigits(text: Bytes) {
    forall k :: 0 <= k < |text| ==> IsDigit(text[k])
  }

  function DigitsEnd(s: Bytes, i: nat): (j: nat)
    requires i <= |s|
    ensures i <= j <= |s| && AreDigits(s[i..j]) && (j < |s| ==> !IsDigit(s[j]))
    decreases |s| - i
  {
    if i < |s| && IsDigit(s[i]) then
      var j := DigitsEnd(s, i + 1);
      assert s[i..j] == [s[i]] + s[i + 1..j];
      j
    else i
  }

  function Decimal(digits: Bytes): nat
    requires AreDigits(digits)
  {
    if digits == [] then 0
    else
      var last: int := digits[|digits| - 1];
      assert IsDigit(last);
      10 * Decimal(digits[..|digits| - 1]) + (last - 48)
  }

  function ReadInteger(s: Bytes, a: At): (r: Scan<int>)
    ensures Advanced(s, a, r)
  {
    if a.offset >= |s| then Err(BadInteger)
    else
      var negative := s[a.offset] == 45;
      var start := if negative then a.offset + 1 else a.offset;
      var end := DigitsEnd(s, start);
      if end == start then Err(BadInteger)
      else
        var magnitude: int := Decimal(s[start..end]);
        var value := if negative then -magnitude else magnitude;
        if -MAX_SAFE <= value <= MAX_SAFE then Ok(Scanned(value, a.(offset := end))) else Err(OutOfRange)
  }

  /** As many bytes as asked for, between quotes. */
  function ReadQuoted(s: Bytes, a: At, length: nat): (r: Scan<Bytes>)
    ensures Advanced(s, a, r)
  {
    var open :- Expect(s, a, 34);
    var end := open.offset + length;
    if end > |s| then Err(Truncated)
    else
      var value := s[open.offset..end];
      var close :- Expect(s, open.(offset := end), 34);
      Ok(Scanned(value, close))
  }

  function ReadText(s: Bytes, a: At): (r: Scan<Bytes>)
    ensures Advanced(s, a, r)
  {
    var colon :- Expect(s, a, 58);
    var length :- ReadInteger(s, colon);
    if length.what < 0 || length.what > |s| then Err(BadLength)
    else
      var second :- Expect(s, length.at, 58);
      var quoted :- ReadQuoted(s, second, length.what);
      var end :- Expect(s, quoted.at, 59);
      Ok(Scanned(quoted.what, end))
  }

  function AsKey(node: Node): Result<Key, Failure> {
    match node
    case Integer(number) => Ok(IntegerKey(number))
    case Text(text) => Ok(TextKey(text))
    case _ => Err(KeyNotScalar)
  }

  predicate HasKey(entries: seq<Entry>, key: Key) {
    exists i :: 0 <= i < |entries| && entries[i].key == key
  }

  /** What a value is read as. */
  function ReadValue(s: Bytes, decode: Decoder, depth: nat, a: At): (r: Scan<Node>)
    requires depth <= MAX_DEPTH + 1
    ensures Advanced(s, a, r)
    decreases MAX_DEPTH + 1 - depth, 0
  {
    if depth > MAX_DEPTH then Err(TooDeep)
    else if a.nodes + 1 > MAX_NODES then Err(TooManyNodes)
    else
      var tag :- ReadByte(s, a.(nodes := a.nodes + 1));
      match tag.what
      case 78 =>
        var end :- Expect(s, tag.at, 59);
        Ok(Scanned(Null, end))
      case 98 => ReadBoolean(s, tag.at)
      case 105 =>
        var colon :- Expect(s, tag.at, 58);
        var number :- ReadInteger(s, colon);
        var end :- Expect(s, number.at, 59);
        Ok(Scanned(Integer(number.what), end))
      case 115 =>
        var text :- ReadText(s, tag.at);
        Ok(Scanned(Text(text.what), text.at))
      case 97 =>
        var entries :- ReadEntries(s, decode, depth, tag.at);
        Ok(Scanned(Array(entries.what), entries.at))
      case 79 => ReadObject(s, decode, depth, tag.at)
      case _ => Err(UnknownTag)
  }

  function ReadBoolean(s: Bytes, a: At): (r: Scan<Node>)
    ensures Advanced(s, a, r)
  {
    var colon :- Expect(s, a, 58);
    var digit :- ReadByte(s, colon);
    if digit.what != 48 && digit.what != 49 then Err(BadBoolean)
    else
      var end :- Expect(s, digit.at, 59);
      Ok(Scanned(Boolean(digit.what == 49), end))
  }

  function ReadObject(s: Bytes, decode: Decoder, depth: nat, a: At): (r: Scan<Node>)
    requires depth <= MAX_DEPTH
    ensures Advanced(s, a, r)
    decreases MAX_DEPTH + 1 - depth, 0, 0
  {
    var name :- ReadClass(s, decode, a);
    var properties :- ReadEntries(s, decode, depth, name.at);
    Ok(Scanned(Object(name.what, properties.what), properties.at))
  }

  function ReadClass(s: Bytes, decode: Decoder, a: At): (r: Scan<string>)
    ensures Advanced(s, a, r)
  {
    var colon :- Expect(s, a, 58);
    var length :- ReadInteger(s, colon);
    if length.what < 1 || length.what > |s| then Err(BadClass)
    else
      var second :- Expect(s, length.at, 58);
      var quoted :- ReadQuoted(s, second, length.what);
      var name := decode(quoted.what);
      if name.None? || name.value == "" then Err(BadClass) else Ok(Scanned(name.value, quoted.at))
  }

  /** A count and that many entries between braces, one level down. */
  function ReadEntries(s: Bytes, decode: Decoder, depth: nat, a: At): (r: Scan<seq<Entry>>)
    requires depth <= MAX_DEPTH
    ensures Advanced(s, a, r)
    decreases MAX_DEPTH - depth, MAX_ITEMS + 2
  {
    var colon :- Expect(s, a, 58);
    var count :- ReadInteger(s, colon);
    if count.what < 0 || count.what > MAX_ITEMS then Err(BadSize)
    else
      var second :- Expect(s, count.at, 58);
      var open :- Expect(s, second, 123);
      var entries :- ReadMore(s, decode, depth + 1, open, [], count.what);
      var close :- Expect(s, entries.at, 125);
      Ok(Scanned(entries.what, close))
  }

  /** `left` more entries after those read. */
  function ReadMore(s: Bytes, decode: Decoder, depth: nat, a: At, read: seq<Entry>, left: nat): (r: Scan<seq<Entry>>)
    requires depth <= MAX_DEPTH + 1
    requires left <= MAX_ITEMS
    ensures left > 0 ==> Advanced(s, a, r)
    ensures left == 0 ==> r == Ok(Scanned(read, a))
    decreases MAX_DEPTH + 1 - depth, left + 1
  {
    if left == 0 then Ok(Scanned(read, a))
    else
      var node :- ReadValue(s, decode, depth, a);
      var key :- AsKey(node.what);
      if HasKey(read, key) then Err(DuplicateKey)
      else
        var value :- ReadValue(s, decode, depth, node.at);
        ReadMore(s, decode, depth, value.at, read + [Entry(key, value.what)], left - 1)
  }

  function BarAfter(s: Bytes, i: nat): (j: nat)
    requires i <= |s|
    ensures i <= j <= |s|
    ensures forall k :: i <= k < j ==> s[k] != 124
    ensures j < |s| ==> s[j] == 124
    decreases |s| - i
  {
    if i < |s| && s[i] != 124 then BarAfter(s, i + 1) else i
  }

  function ReadSessionKey(s: Bytes, decode: Decoder, a: At): (r: Scan<string>)
    requires a.offset <= |s|
    ensures Advanced(s, a, r)
  {
    var end := BarAfter(s, a.offset);
    if end == a.offset || end >= |s| then Err(BadSessionKey)
    else
      var key := decode(s[a.offset..end]);
      if key.None? then Err(KeyNotUtf8) else Ok(Scanned(key.value, a.(offset := end + 1)))
  }

  /** What the bytes are read as, when a value is all there is. */
  function ReadWhole(s: Bytes, decode: Decoder): Option<Node> {
    if |s| > MAX_SESSION_BYTES then None
    else
      match ReadValue(s, decode, 0, At(0, 0))
      case Ok(scanned) => if scanned.at.offset == |s| then Some(scanned.what) else None
      case Err(_) => None
  }

  datatype Field = Field(key: string, value: Node)

  predicate HasField(fields: seq<Field>, key: string) {
    exists i :: 0 <= i < |fields| && fields[i].key == key
  }

  /** The fields of a session after those read, up to the end of the bytes. */
  function ReadFields(s: Bytes, decode: Decoder, a: At, read: seq<Field>): Result<seq<Field>, Failure>
    requires a.offset <= |s|
    decreases |s| - a.offset
  {
    if a.offset == |s| then Ok(read)
    else
      var key :- ReadSessionKey(s, decode, a);
      if HasField(read, key.what) then Err(DuplicateSessionKey)
      else
        var value :- ReadValue(s, decode, 0, key.at);
        ReadFields(s, decode, value.at, read + [Field(key.what, value.what)])
  }

  function ReadSession(s: Bytes, decode: Decoder): Option<seq<Field>> {
    if s == [] || |s| > MAX_SESSION_BYTES then None
    else
      match ReadFields(s, decode, At(0, 0), [])
      case Ok(fields) => Some(fields)
      case Err(_) => None
  }

  // ---- The scanner as it runs ----

  class Scanner {
    const bytes: Bytes
    const decode: Decoder
    var offset: nat
    var nodes: nat

    ghost function Stands(): At
      reads this
    {
      At(offset, nodes)
    }

    /** The step gave what `scan` says, and on success left the scanner where it says. */
    ghost predicate Did<T(!new)>(r: Result<T, Failure>, scan: Scan<T>)
      reads this
    {
      match scan
      case Ok(scanned) => r == Ok(scanned.what) && Stands() == scanned.at
      case Err(failure) => r == Err(failure)
    }

    constructor (bytes: Bytes, decode: Decoder)
      requires |bytes| <= MAX_SESSION_BYTES
      ensures this.bytes == bytes && this.decode == decode && Stands() == At(0, 0)
    {
      this.bytes, this.decode, offset, nodes := bytes, decode, 0, 0;
    }

    method NextByte() returns (r: Result<Byte, Failure>)
      modifies this
      ensures Did(r, ReadByte(bytes, old(Stands())))
    {
      if offset >= |bytes| {
        return Err(Truncated);
      }
      r := Ok(bytes[offset]);
      offset := offset + 1;
    }

    method ExpectByte(expected: Byte) returns (r: Result<Byte, Failure>)
      modifies this
      ensures
        match Expect(bytes, old(Stands()), expected)
        case Ok(at) => r.Ok? && Stands() == at
        case Err(failure) => r == Err(failure)
    {
      r := NextByte();
      if r.Ok? && r.value != expected {
        r := Err(Malformed);
      }
    }

    method NextInteger() returns (r: Result<int, Failure>)
      modifies this
      ensures Did(r, ReadInteger(bytes, old(Stands())))
    {
      hide Advanced, AreDigits, Decimal;
      var start := offset;
      if offset < |bytes| && bytes[offset] == 45 {
        offset := offset + 1;
      }
      var digits := offset;
      while offset < |bytes| && IsDigit(bytes[offset])
        invariant start < |bytes| ==> digits <= offset <= |bytes| && DigitsEnd(bytes, offset) == DigitsEnd(bytes, digits)
        invariant start >= |bytes| ==> offset == digits == start
        invariant nodes == old(nodes)
      {
        offset := offset + 1;
      }
      if offset == digits {
        return Err(BadInteger);
      }
      assert DigitsEnd(bytes, digits) == offset;
      var magnitude: int := Decimal(bytes[digits..offset]);
      var value := if start == digits then magnitude else -magnitude;
      if !(-MAX_SAFE <= value <= MAX_SAFE) {
        return Err(OutOfRange);
      }
      r := Ok(value);
    }

    method NextQuoted(length: nat) returns (r: Result<Bytes, Failure>)
      modifies this
      ensures Did(r, ReadQuoted(bytes, old(Stands()), length))
    {
      hide ReadByte;
      var open :- ExpectByte(34);
      var end := offset + length;
      if end > |bytes| {
        return Err(Truncated);
      }
      var value := bytes[offset..end];
      offset := end;
      var close :- ExpectByte(34);
      r := Ok(value);
    }

    method NextText() returns (r: Result<Bytes, Failure>)
      modifies this
      ensures Did(r, ReadText(bytes, old(Stands())))
    {
      hide ReadByte, Expect, ReadInteger, ReadQuoted;
      var colon :- ExpectByte(58);
      var length :- NextInteger();
      if length < 0 || length > |bytes| {
        return Err(BadLength);
      }
      var second :- ExpectByte(58);
      var value :- NextQuoted(length);
      var semicolon :- ExpectByte(59);
      r := Ok(value);
    }

    method ParseKey(depth: nat) returns (r: Result<Key, Failure>)
      requires depth <= MAX_DEPTH + 1
      modifies this
      decreases MAX_DEPTH + 1 - depth, 1
      ensures
        match ReadValue(bytes, decode, depth, old(Stands()))
        case Ok(node) => r == AsKey(node.what) && (r.Ok? ==> Stands() == node.at)
        case Err(failure) => r == Err(failure)
    {
      hide ReadValue;
      var value :- ParseValue(depth);
      match value
      case Integer(number) => r := Ok(IntegerKey(number));
      case Text(text) => r := Ok(TextKey(text));
      case _ => r := Err(KeyNotScalar);
    }

    method ParseEntries(depth: nat) returns (r: Result<seq<Entry>, Failure>)
      requires depth <= MAX_DEPTH
      modifies this
      decreases MAX_DEPTH - depth, 2
      ensures Did(r, ReadEntries(bytes, decode, depth, old(Stands())))
    {
      hide ReadByte, Expect, ReadInteger, ReadValue, AsKey, HasKey, Advanced;
      var colon :- ExpectByte(58);
      var count :- NextInteger();
      if count < 0 || count > MAX_ITEMS {
        return Err(BadSize);
      }
      var second :- ExpectByte(58);
      var open :- ExpectByte(123);
      var entries: seq<Entry> := [];
      ghost var all := ReadMore(bytes, decode, depth + 1, Stands(), [], count);
      for index := 0 to count
        invariant all == ReadMore(bytes, decode, depth + 1, Stands(), entries, count - index)
      {
        var key :- ParseKey(depth + 1);
        if HasKey(entries, key) {
          return Err(DuplicateKey);
        }
        var value :- ParseValue(depth + 1);
        entries := entries + [Entry(key, value)];
      }
      var close :- ExpectByte(125);
      r := Ok(entries);
    }

    method NextClass() returns (r: Result<string, Failure>)
      modifies this
      ensures Did(r, ReadClass(bytes, decode, old(Stands())))
    {
      hide ReadByte, Expect, ReadInteger, ReadQuoted;
      var colon :- ExpectByte(58);
      var length :- NextInteger();
      if length < 1 || length > |bytes| {
        return Err(BadClass);
      }
      var second :- ExpectByte(58);
      var quoted :- NextQuoted(length);
      var name := decode(quoted);
      if name.None? || name.value == "" {
        return Err(BadClass);
      }
      r := Ok(name.value);
    }

    method ParseObject(depth: nat) returns (r: Result<Node, Failure>)
      requires depth <= MAX_DEPTH
      modifies this
      decreases MAX_DEPTH - depth, 3
      ensures Did(r, ReadObject(bytes, decode, depth, old(Stands())))
    {
      hide ReadClass, ReadEntries;
      var name :- NextClass();
      var properties :- ParseEntries(depth);
      r := Ok(Object(name, properties));
    }

    method ParseValue(depth: nat) returns (r: Result<Node, Failure>)
      requires depth <= MAX_DEPTH + 1
      modifies this
      decreases MAX_DEPTH + 1 - depth, 0
      ensures Did(r, ReadValue(bytes, decode, depth, old(Stands())))
    {
      hide ReadInteger, ReadText, ReadEntries, ReadObject, Advanced;
      if depth > MAX_DEPTH {
        return Err(TooDeep);
      }
      nodes := nodes + 1;
      if nodes > MAX_NODES {
        return Err(TooManyNodes);
      }
      var tag :- NextByte();
      match tag
      case 78 =>
        var end :- ExpectByte(59);
        r := Ok(Null);
      case 98 =>
        var colon :- ExpectByte(58);
        var digit :- NextByte();
        if digit != 48 && digit != 49 {
          return Err(BadBoolean);
        }
        var end :- ExpectByte(59);
        r := Ok(Boolean(digit == 49));
      case 105 =>
        var colon :- ExpectByte(58);
        var number :- NextInteger();
        var end :- ExpectByte(59);
        r := Ok(Integer(number));
      case 115 =>
        var text :- NextText();
        r := Ok(Text(text));
      case 97 =>
        var entries :- ParseEntries(depth);
        r := Ok(Array(entries));
      case 79 =>
        r := ParseObject(depth);
      case _ =>
        r := Err(UnknownTag);
    }

    method NextSessionKey() returns (r: Result<string, Failure>)
      requires offset <= |bytes|
      modifies this
      ensures Did(r, ReadSessionKey(bytes, decode, old(Stands())))
    {
      var start := offset;
      while offset < |bytes| && bytes[offset] != 124
        invariant start <= offset <= |bytes| && nodes == old(nodes)
        invariant BarAfter(bytes, offset) == BarAfter(bytes, start)
      {
        offset := offset + 1;
      }
      if offset == start || offset >= |bytes| {
        return Err(BadSessionKey);
      }
      var key := decode(bytes[start..offset]);
      if key.None? {
        return Err(KeyNotUtf8);
      }
      offset := offset + 1;
      r := Ok(key.value);
    }
  }

  method ParseSerializedValue(bytes: Bytes, decode: Decoder) returns (r: Option<Node>)
    ensures r == ReadWhole(bytes, decode)
  {
    if |bytes| > MAX_SESSION_BYTES {
      return None;
    }
    var scanner := new Scanner(bytes, decode);
    var value := scanner.ParseValue(0);
    if value.Err? || scanner.offset != |bytes| {
      return None;
    }
    r := Some(value.value);
  }

  /** The framing loop at the head of parsePanelSession. */
  method ParseSessionFields(bytes: Bytes, decode: Decoder) returns (r: Option<seq<Field>>)
    ensures r == ReadSession(bytes, decode)
  {
    hide ReadValue, ReadSessionKey;
    if bytes == [] || |bytes| > MAX_SESSION_BYTES {
      return None;
    }
    var scanner := new Scanner(bytes, decode);
    var top: seq<Field> := [];
    while scanner.offset < |bytes|
      invariant scanner.bytes == bytes && scanner.decode == decode && scanner.offset <= |bytes|
      invariant ReadFields(bytes, decode, At(0, 0), []) == ReadFields(bytes, decode, scanner.Stands(), top)
      decreases |bytes| - scanner.offset
    {
      var key := scanner.NextSessionKey();
      if key.Err? || HasField(top, key.value) {
        return None;
      }
      var value := scanner.ParseValue(0);
      if value.Err? {
        return None;
      }
      top := top + [Field(key.value, value.value)];
    }
    r := Some(top);
  }
}
