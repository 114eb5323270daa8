/** Long TXT values as quoted strings of at most 255 characters, and back (addons/dns/cloudflare.ts). */
module Txt {
  import opened Outcomes

  /** A UTF-16 code unit: a chunk may end between the two of a pair. */
  type Unit = u: int | 0 <= u < 0x1_0000
  type Units = seq<Unit>

  const QUOTE: Unit := 34
  const BACKSLASH: Unit := 92
  const SPACE: Unit := 32
  const CHUNK: nat := 255

  predicate IsSpace(u: Unit) {
    u == 32 || 9 <= u <= 13 || u == 0xA0 || u == 0x1680 || 0x2000 <= u <= 0x200A
    || u == 0x2028 || u == 0x2029 || u == 0x202F || u == 0x205F || u == 0x3000 || u == 0xFEFF
  }

  /** What `.` does not match. */
  predicate EndsLine(u: Unit) {
    u == 10 || u == 13 || u == 0x2028 || u == 0x2029
  }

  predicate Special(u: Unit) {
    u == QUOTE || u == BACKSLASH
  }

  // ---- Quoting ----

  function Chunks(v: Units): (r: seq<Units>)
    ensures Concat(r) == v && r != []
    ensures forall i :: 0 <= i < |r| ==> |r[i]| <= CHUNK && (i < |r| - 1 ==> |r[i]| == CHUNK)
  {
    if |v| <= CHUNK then
      assert Concat([v][1..]) == [];
      [v]
    else
      var rest := Chunks(v[CHUNK..]);
      assert ([v[..CHUNK]] + rest)[1..] == rest;
      [v[..CHUNK]] + rest
  }

  function Concat(pieces: seq<Units>): Units {
    if pieces == [] then [] else pieces[0] + Concat(pieces[1..])
  }

  function Escaped(chunk: Units): Units {
    if chunk == [] then []
    else (if Special(chunk[0]) then [BACKSLASH] else []) + [chunk[0]] + Escaped(chunk[1..])
  }

  /** The chunks between quotes, a space between one and the next. */
  function QuotedChunks(chunks: seq<Units>): Units {
    if chunks == [] then []
    else if |chunks| == 1 then [QUOTE] + Escaped(chunks[0]) + [QUOTE]
    else [QUOTE] + Escaped(chunks[0]) + [QUOTE] + [SPACE] + QuotedChunks(chunks[1..])
  }

  function QuoteTxt(value: Units): Units {
    QuotedChunks(Chunks(value))
  }

  // ---- Unquoting ----

  function Spaces(s: Units): (n: nat)
    ensures n <= |s|
  {
    if s != [] && IsSpace(s[0]) then 1 + Spaces(s[1..]) else 0
  }

  function TrimmedEnd(s: Units): Units {
    if s != [] && IsSpace(s[|s| - 1]) then TrimmedEnd(s[..|s| - 1]) else s
  }

  function Trimmed(s: Units): Units {
    TrimmedEnd(s[Spaces(s)..])
  }

  /** How long a run of plain units and escaped ones the text begins with. */
  function Body(s: Units): (n: nat)
    ensures n <= |s|
  {
    if s == [] || s[0] == QUOTE then 0
    else if s[0] != BACKSLASH then 1 + Body(s[1..])
    else if |s| > 1 && !EndsLine(s[1]) then 2 + Body(s[2..])
    else 0
  }

  /** A quoted string the text begins with: its contents, and all that matched, spaces after it included. */
  datatype Match = Match(contents: Units, all: Units)

  function MatchAt(s: Units): (m: Option<Match>)
    ensures m.Some? ==> 0 < |m.value.all| <= |s|
  {
    if s == [] || s[0] != QUOTE then None
    else
      var n := Body(s[1..]);
      if 1 + n < |s| && s[1 + n] == QUOTE then
        var end := n + 2 + Spaces(s[n + 2..]);
        Some(Match(s[1..1 + n], s[..end]))
      else None
  }

  /** Every match, each looked for from the end of the one before. */
  function Matches(s: Units): seq<Match>
    decreases |s|
  {
    if s == [] then []
    else
      match MatchAt(s)
      case Some(m) => [m] + Matches(s[|m.all|..])
      case None => Matches(s[1..])
  }

  function Unescaped(s: Units): Units {
    if s == [] then []
    else if s[0] == BACKSLASH && |s| > 1 && Special(s[1]) then [s[1]] + Unescaped(s[2..])
    else [s[0]] + Unescaped(s[1..])
  }

  function AllOf(matches: seq<Match>): Units {
    if matches == [] then [] else matches[0].all + AllOf(matches[1..])
  }

  function ContentsOf(matches: seq<Match>): Units {
    if matches == [] then [] else Unescaped(matches[0].contents) + ContentsOf(matches[1..])
  }

  function UnquoteTxt(value: Units): Units {
    var trimmed := Trimmed(value);
    if trimmed == [] || trimmed[0] != QUOTE then trimmed
    else
      var matches := Matches(trimmed);
      if Trimmed(AllOf(matches)) != trimmed then trimmed else ContentsOf(matches)
  }

  // ---- The round trip ----

  lemma {:induction false} BodyEscaped(chunk: Units, rest: Units)
    ensures Body(Escaped(chunk) + [QUOTE] + rest) == |Escaped(chunk)|
  {
    var s := Escaped(chunk) + [QUOTE] + rest;
    if chunk != [] {
      var more := Escaped(chunk[1..]) + [QUOTE] + rest;
      BodyEscaped(chunk[1..], rest);
      if Special(chunk[0]) {
        assert s[1] == chunk[0] && s[2..] == more;
      } else {
        assert s[0] == chunk[0] && s[1..] == more;
      }
    }
  }

  lemma {:induction false} UnescapedEscaped(chunk: Units)
    ensures Unescaped(Escaped(chunk)) == chunk
  {
    if chunk != [] {
      var s := Escaped(chunk);
      UnescapedEscaped(chunk[1..]);
      if Special(chunk[0]) {
        assert s[1] == chunk[0] && s[2..] == Escaped(chunk[1..]);
      } else {
        assert s[1..] == Escaped(chunk[1..]);
      }
      assert [chunk[0]] + chunk[1..] == chunk;
    }
  }

  lemma MatchIs(s: Units, n: nat, gap: nat)
    requires s != [] && s[0] == QUOTE && Body(s[1..]) == n && 1 + n < |s| && s[1 + n] == QUOTE && Spaces(s[n + 2..]) == gap
    ensures n + 2 + gap <= |s| && MatchAt(s) == Some(Match(s[1..1 + n], s[..n + 2 + gap]))
  {
    hide Body, Spaces;
  }

  /** Where the parts of a quoted text are. */
  lemma QuotedParts(e: Units, gap: Units, rest: Units)
    ensures
      var s := [QUOTE] + e + [QUOTE] + gap + rest;
      && s[0] == QUOTE && s[1 + |e|] == QUOTE && s[1..] == e + [QUOTE] + (gap + rest)
      && s[1..1 + |e|] == e && s[|e| + 2..] == gap + rest && s[..|e| + 2 + |gap|] == [QUOTE] + e + [QUOTE] + gap
  {
  }

  /** A quoted chunk is matched whole, with the spaces before the next. */
  lemma MatchQuoted(chunk: Units, gap: Units, rest: Units)
    requires gap == [] || gap == [SPACE]
    requires rest == [] || rest[0] == QUOTE
    ensures
      var whole := [QUOTE] + Escaped(chunk) + [QUOTE] + gap;
      MatchAt(whole + rest) == Some(Match(Escaped(chunk), whole))
  {
    hide Body, Escaped, MatchAt, Spaces;
    var e := Escaped(chunk);
    BodyEscaped(chunk, gap + rest);
    QuotedParts(e, gap, rest);
    GapSpaces(gap, rest);
    MatchIs([QUOTE] + e + [QUOTE] + gap + rest, |e|, |gap|);
  }

  lemma GapSpaces(gap: Units, rest: Units)
    requires gap == [] || gap == [SPACE]
    requires rest == [] || rest[0] == QUOTE
    ensures Spaces(gap + rest) == |gap|
  {
    if gap != [] {
      assert (gap + rest)[1..] == rest;
    } else {
      assert gap + rest == rest;
    }
  }

  lemma QuotedBegins(chunks: seq<Units>)
    ensures chunks == [] ==> QuotedChunks(chunks) == []
    ensures chunks != [] ==> QuotedChunks(chunks) != [] && QuotedChunks(chunks)[0] == QUOTE
  {
  }

  lemma {:induction false} QuotedEnds(chunks: seq<Units>)
    requires chunks != []
    ensures var s := QuotedChunks(chunks); s != [] && s[|s| - 1] == QUOTE
    decreases |chunks|
  {
    hide Escaped;
    if |chunks| > 1 {
      QuotedEnds(chunks[1..]);
    }
  }

  lemma {:induction false} MatchesQuoted(chunks: seq<Units>)
    ensures AllOf(Matches(QuotedChunks(chunks))) == QuotedChunks(chunks)
    ensures ContentsOf(Matches(QuotedChunks(chunks))) == Concat(chunks)
    decreases |chunks|
  {
    hide MatchAt, Escaped, Unescaped;
    if chunks != [] {
      var rest := QuotedChunks(chunks[1..]);
      var gap := if |chunks| == 1 then [] else [SPACE];
      var whole := [QUOTE] + Escaped(chunks[0]) + [QUOTE] + gap;
      var s := QuotedChunks(chunks);
      assert s == whole + rest;
      QuotedBegins(chunks[1..]);
      MatchQuoted(chunks[0], gap, rest);
      MatchesQuoted(chunks[1..]);
      var first := Match(Escaped(chunks[0]), whole);
      assert s[|whole|..] == rest;
      assert Matches(s) == [first] + Matches(rest);
      assert ([first] + Matches(rest))[1..] == Matches(rest);
      UnescapedEscaped(chunks[0]);
    }
  }

  /** Quoting and unquoting gives back the value, whatever it holds. */
  lemma RoundTrip(value: Units)
    ensures UnquoteTxt(QuoteTxt(value)) == value
  {
    hide Matches, AllOf, ContentsOf, QuotedChunks, Chunks;
    var s := QuoteTxt(value);
    QuotedBegins(Chunks(value));
    QuotedEnds(Chunks(value));
    MatchesQuoted(Chunks(value));
    assert Spaces(s) == 0 && s[0..] == s;
    assert Trimmed(s) == s;
  }

  /** Two values with the same quoted form are the same value. */
  lemma QuoteInjective(a: Units, b: Units)
    requires QuoteTxt(a) == QuoteTxt(b)
    ensures a == b
  {
    hide QuoteTxt, UnquoteTxt;
    RoundTrip(a);
    RoundTrip(b);
  }
}
