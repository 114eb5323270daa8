/** What masking blanks: a vhost as code, comments and strings, and that every text is such a sequence. */
module NginxNoise {
  import opened Outcomes
  import opened Text
  import opened NginxProxy

  // ---- Comments and strings as they are written ----

  datatype Item = Plain(c: char) | Escaped(c: char)

  /** How a string ends: with its quote, with a backslash that escapes nothing, or with its line. */
  datatype Ending = Quote | Backslash | Cut

  datatype Piece = Code(c: char) | Comment(text: string) | Quoted(quote: char, items: seq<Item>, ending: Ending)

  function ItemText(item: Item): string {
    match item
    case Plain(c) => [c]
    case Escaped(c) => ['\\', c]
  }

  function ItemsText(items: seq<Item>): string {
    if items == [] then "" else ItemText(items[0]) + ItemsText(items[1..])
  }

  function EndingText(quote: char, ending: Ending): string {
    match ending
    case Quote => [quote]
    case Backslash => "\\"
    case Cut => ""
  }

  function PieceText(p: Piece): string {
    match p
    case Code(c) => [c]
    case Comment(text) => "#" + text
    case Quoted(quote, items, ending) => [quote] + (ItemsText(items) + EndingText(quote, ending))
  }

  function PiecesText(ps: seq<Piece>): string {
    if ps == [] then "" else PieceText(ps[0]) + PiecesText(ps[1..])
  }

  predicate IsItem(item: Item, quote: char) {
    match item
    case Plain(c) => c != quote && c != '\\' && c != LF
    case Escaped(c) => !IsLineTerminator(c)
  }

  predicate AreItems(items: seq<Item>, quote: char) {
    forall i :: 0 <= i < |items| ==> IsItem(items[i], quote)
  }

  /** The piece may stand in front of `r`: it is written as one, and could take no more. */
  predicate Stands(p: Piece, r: string) {
    match p
    case Code(c) => c != '#' && c != '"' && c != '\''
    case Comment(text) => LF !in text && (r == "" || r[0] == LF)
    case Quoted(quote, items, ending) =>
      && (quote == '"' || quote == '\'') && AreItems(items, quote)
      && (ending == Backslash ==> r == "" || IsLineTerminator(r[0]))
      && (ending == Cut ==> r == "" || r[0] == LF)
  }

  predicate AllStand(ps: seq<Piece>) {
    ps == [] || (Stands(ps[0], PiecesText(ps[1..])) && AllStand(ps[1..]))
  }

  /** Code stays, and everything else is as many spaces. */
  function Blanked(ps: seq<Piece>): string {
    if ps == [] then ""
    else (if ps[0].Code? then [ps[0].c] else Spaces(|PieceText(ps[0])|)) + Blanked(ps[1..])
  }

  // ---- Masking blanks exactly that ----

  lemma {:induction false} BodyRead(items: seq<Item>, quote: char, r: string)
    requires AreItems(items, quote) && (quote == '"' || quote == '\'')
    requires r == "" || r[0] == quote || r[0] == LF || (r[0] == '\\' && (|r| == 1 || IsLineTerminator(r[1])))
    ensures QuoteBody(ItemsText(items) + r, quote) == |ItemsText(items)|
  {
    hide QuoteBody, ItemText, IsItem, IsLineTerminator;
    if items == [] {
      assert ItemsText(items) + r == r;
      BodyStops(quote, r);
    } else {
      assert IsItem(items[0], quote);
      ItemRead(items[0], quote, ItemsText(items[1..]) + r);
      Joins(ItemText(items[0]), ItemsText(items[1..]), r);
      BodyRead(items[1..], quote, r);
    }
  }

  lemma BodyStops(quote: char, r: string)
    requires r == "" || r[0] == quote || r[0] == LF || (r[0] == '\\' && (|r| == 1 || IsLineTerminator(r[1])))
    ensures QuoteBody(r, quote) == 0
  {
    hide IsLineTerminator;
  }

  lemma ItemRead(item: Item, quote: char, more: string)
    requires IsItem(item, quote) && (quote == '"' || quote == '\'')
    ensures QuoteBody(ItemText(item) + more, quote) == |ItemText(item)| + QuoteBody(more, quote)
  {
    hide IsLineTerminator;
    assert (ItemText(item) + more)[|ItemText(item)|..] == more;
  }

  lemma Joins(a: string, b: string, r: string)
    ensures (a + b) + r == a + (b + r)
  {
  }

  lemma {:induction false} LineRead(text: string, r: string)
    requires LF !in text && (r == "" || r[0] == LF)
    ensures LineLength(text + r) == |text|
  {
    if text == "" {
      assert text + r == r;
    } else {
      assert (text + r)[1..] == text[1..] + r;
      LineRead(text[1..], r);
    }
  }

  lemma NoiseRead(p: Piece, r: string)
    requires Stands(p, r)
    ensures Noise(PieceText(p) + r) == if p.Code? then 0 else |PieceText(p)|
    ensures PieceText(p) != ""
  {
    hide QuoteBody, LineLength, ItemsText, AreItems, IsLineTerminator;
    var s := PieceText(p) + r;
    match p
    case Code(_) =>
    case Comment(text) =>
      assert s[1..] == text + r;
      LineRead(text, r);
    case Quoted(quote, items, ending) =>
      TailStops(quote, ending, r);
      BodyRead(items, quote, EndingText(quote, ending) + r);
      QuotedNoise(quote, ItemsText(items), EndingText(quote, ending) + r);
      Regroup(quote, ItemsText(items), EndingText(quote, ending), r);
      EndingEnds(quote, ending, r);
  }

  /** A string is its quote, its body and one more character if that ends it. */
  lemma QuotedNoise(quote: char, body: string, tail: string)
    requires (quote == '"' || quote == '\'') && QuoteBody(body + tail, quote) == |body|
    ensures Noise([quote] + (body + tail)) == 1 + |body| + (if tail != "" && (tail[0] == quote || tail[0] == '\\') then 1 else 0)
  {
    hide QuoteBody, LineLength;
    var s := [quote] + (body + tail);
    assert s[1..] == body + tail;
    assert tail != "" ==> s[1 + |body|] == tail[0];
  }

  lemma Regroup(quote: char, body: string, ending: string, r: string)
    ensures [quote] + (body + ending) + r == [quote] + (body + (ending + r))
  {
  }

  lemma EndingEnds(quote: char, ending: Ending, r: string)
    requires quote == '"' || quote == '\''
    requires ending == Backslash ==> r == "" || IsLineTerminator(r[0])
    requires ending == Cut ==> r == "" || r[0] == LF
    ensures
      var tail := EndingText(quote, ending) + r;
      |EndingText(quote, ending)| == if tail != "" && (tail[0] == quote || tail[0] == '\\') then 1 else 0
  {
  }

  lemma TailStops(quote: char, ending: Ending, r: string)
    requires quote == '"' || quote == '\''
    requires ending == Backslash ==> r == "" || IsLineTerminator(r[0])
    requires ending == Cut ==> r == "" || r[0] == LF
    ensures
      var tail := EndingText(quote, ending) + r;
      tail == "" || tail[0] == quote || tail[0] == LF || (tail[0] == '\\' && (|tail| == 1 || IsLineTerminator(tail[1])))
  {
  }

  /** A text is masked as its pieces are blanked. */
  lemma {:induction false} MaskExactly(ps: seq<Piece>)
    requires AllStand(ps)
    ensures Mask(PiecesText(ps)) == Blanked(ps)
  {
    hide Noise, Stands, PieceText, Spaces;
    if ps != [] {
      var front, more := PieceText(ps[0]), PiecesText(ps[1..]);
      NoiseRead(ps[0], more);
      MaskExactly(ps[1..]);
      MaskFirst(front, more);
      if ps[0].Code? {
        CodeText(ps[0]);
      }
    }
  }

  lemma CodeText(p: Piece)
    requires p.Code?
    ensures PieceText(p) == [p.c]
  {
  }

  lemma MaskFirst(front: string, more: string)
    requires front != ""
    ensures Noise(front + more) == |front| ==> Mask(front + more) == Spaces(|front|) + Mask(more)
    ensures Noise(front + more) == 0 && |front| == 1 ==> Mask(front + more) == front + Mask(more)
  {
    hide Noise, Spaces;
    var s := front + more;
    assert s[|front|..] == more;
    assert |front| == 1 ==> front == [s[0]];
  }

  // ---- Every text is such pieces ----

  lemma {:induction false} BodyWritten(s: string, quote: char) returns (items: seq<Item>)
    ensures AreItems(items, quote) && ItemsText(items) == s[..QuoteBody(s, quote)]
    ensures
      var rest := s[QuoteBody(s, quote)..];
      rest == "" || rest[0] == quote || rest[0] == LF || (rest[0] == '\\' && (|rest| == 1 || IsLineTerminator(rest[1])))
  {
    hide IsLineTerminator;
    items := [];
    var n := QuoteBody(s, quote);
    if n == 0 {
      assert s[..0] == "" && s[0..] == s;
    } else {
      var item := if s[0] == '\\' then Escaped(s[1]) else Plain(s[0]);
      var k := if s[0] == '\\' then 2 else 1;
      var more := BodyWritten(s[k..], quote);
      items := [item] + more;
      assert items[1..] == more;
      assert s[..n] == s[..k] + s[k..][..n - k] && s[n..] == s[k..][n - k..];
      assert s[..k] == if s[0] == '\\' then ['\\', s[1]] else [s[0]];
    }
  }

  lemma {:induction false} LineWritten(s: string)
    ensures LF !in s[..LineLength(s)]
    ensures LineLength(s) < |s| ==> s[LineLength(s)] == LF
  {
    if s != "" && s[0] != LF {
      LineWritten(s[1..]);
      assert s[..LineLength(s)] == [s[0]] + s[1..][..LineLength(s[1..])];
    }
  }

  lemma PieceWritten(s: string) returns (p: Piece)
    requires s != ""
    ensures |PieceText(p)| <= |s| && s == PieceText(p) + s[|PieceText(p)|..] && Stands(p, s[|PieceText(p)|..])
  {
    hide IsLineTerminator, ItemsText, AreItems;
    if s[0] == '#' {
      LineWritten(s[1..]);
      p := Comment(s[1..][..LineLength(s[1..])]);
      assert s == "#" + s[1..];
    } else if s[0] == '"' || s[0] == '\'' {
      p := QuotedWritten(s);
    } else {
      p := Code(s[0]);
      assert s == [s[0]] + s[1..];
    }
  }

  lemma QuotedWritten(s: string) returns (p: Piece)
    requires s != "" && (s[0] == '"' || s[0] == '\'')
    ensures |PieceText(p)| <= |s| && s == PieceText(p) + s[|PieceText(p)|..] && Stands(p, s[|PieceText(p)|..])
  {
    hide IsLineTerminator, ItemsText, AreItems, QuoteBody, EndingText;
    var items := BodyWritten(s[1..], s[0]);
    var n := QuoteBody(s[1..], s[0]);
    var rest := s[1..][n..];
    var ending := EndingOf(rest, s[0]);
    var text := EndingText(s[0], ending);
    p := Quoted(s[0], items, ending);
    assert s == [s[0]] + s[1..] && s[1..] == s[1..][..n] + rest;
    Regroup(s[0], ItemsText(items), text, rest[|text|..]);
    assert s == PieceText(p) + rest[|text|..];
    Behind(PieceText(p), rest[|text|..]);
  }

  /** How a string ends in front of what stops its body. */
  lemma EndingOf(rest: string, quote: char) returns (ending: Ending)
    requires quote == '"' || quote == '\''
    requires rest == "" || rest[0] == quote || rest[0] == LF || (rest[0] == '\\' && (|rest| == 1 || IsLineTerminator(rest[1])))
    ensures |EndingText(quote, ending)| <= |rest| && rest == EndingText(quote, ending) + rest[|EndingText(quote, ending)|..]
    ensures
      var r := rest[|EndingText(quote, ending)|..];
      && (ending == Backslash ==> r == "" || IsLineTerminator(r[0]))
      && (ending == Cut ==> r == "" || r[0] == LF)
  {
    hide IsLineTerminator;
    ending := if rest == "" || rest[0] == LF then Cut else if rest[0] == quote then Quote else Backslash;
    assert rest != "" ==> rest == [rest[0]] + rest[1..];
  }

  lemma Behind(a: string, b: string)
    ensures (a + b)[|a|..] == b
  {
  }

  /** Whatever the text, it is code, comments and strings, one after the other. */
  lemma {:induction false} EveryText(s: string) returns (ps: seq<Piece>)
    ensures AllStand(ps) && PiecesText(ps) == s
    decreases |s|
  {
    hide Stands, PieceText;
    ps := [];
    if s != "" {
      var p := PieceWritten(s);
      var n := |PieceText(p)|;
      PieceIsSome(p);
      var more := EveryText(s[n..]);
      ps := [p] + more;
      assert ps[1..] == more;
    }
  }

  lemma PieceIsSome(p: Piece)
    ensures PieceText(p) != ""
  {
  }
}
