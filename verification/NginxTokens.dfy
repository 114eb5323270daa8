/** The tokens of a vhost as they are written: what the token expression of NginxConfig matches, and nothing else, is
  * the text of a token that cannot take more of what follows. */
module NginxTokens {
  import opened Outcomes
  import opened Text
  import opened NginxConfig
  import opened NginxInsertion

  // ---- Tokens as they are written ----

  /** One item of a word or of a quoted string. */
  datatype Part = Char(c: char) | Escaped(c: char) | Variable(name: string)

  datatype Token =
    | Space(text: string)
    | Comment(text: string)
    | Mustache(name: string)
    | Quoted(quote: char, parts: seq<Part>)
    | Word(parts: seq<Part>)
    | Open
    | Close
    | Semicolon

  function PartText(p: Part): string {
    match p
    case Char(c) => [c]
    case Escaped(c) => ['\\', c]
    case Variable(name) => "${" + name + "}"
  }

  function PartsText(parts: seq<Part>): string {
    if parts == [] then "" else PartText(parts[0]) + PartsText(parts[1..])
  }

  function TokenText(t: Token): string {
    match t
    case Space(text) => text
    case Comment(text) => "#" + text
    case Mustache(name) => "{{" + name + "}}"
    case Quoted(quote, parts) => [quote] + PartsText(parts) + [quote]
    case Word(parts) => PartsText(parts)
    case Open => "{"
    case Close => "}"
    case Semicolon => ";"
  }

  predicate QuotedPart(p: Part, quote: char) {
    match p
    case Char(c) => c != quote && c != '\\'
    case Escaped(c) => !IsLineTerminator(c)
    case Variable(_) => false
  }

  predicate WordPart(p: Part) {
    match p
    case Char(c) => IsPlain(c)
    case Escaped(c) => !IsLineTerminator(c)
    case Variable(name) => name != "" && '}' !in name
  }

  predicate QuotedParts(parts: seq<Part>, quote: char) {
    forall i :: 0 <= i < |parts| ==> QuotedPart(parts[i], quote)
  }

  predicate WordParts(parts: seq<Part>) {
    forall i :: 0 <= i < |parts| ==> WordPart(parts[i])
  }

  predicate WellFormed(t: Token) {
    match t
    case Space(text) => text != "" && forall i :: 0 <= i < |text| ==> IsSpace(text[i])
    case Comment(text) => LF !in text
    case Mustache(name) => '}' !in name
    case Quoted(quote, parts) => (quote == '"' || quote == '\'') && QuotedParts(parts, quote)
    case Word(parts) => parts != [] && WordParts(parts)
    case _ => true
  }

  /** In `r` the first closing brace at or behind `from` is at `k`. */
  predicate FirstClosing(r: string, from: nat, k: int) {
    from <= k < |r| && r[k] == '}' && forall i :: from <= i < k ==> r[i] != '}'
  }

  /** `r` is the rest of a `{{…}}` behind its first brace. */
  ghost predicate RestOfMustache(r: string) {
    r != "" && r[0] == '{' && exists k :: FirstClosing(r, 1, k) && k + 1 < |r| && r[k + 1] == '}'
  }

  /** `r` is the rest of a `${…}` behind the dollar sign. */
  ghost predicate RestOfVariable(r: string) {
    r != "" && r[0] == '{' && exists k :: k >= 2 && FirstClosing(r, 1, k)
  }

  /** A word takes no more: what follows is nothing, white space, one of the characters that end a word, or a backslash
    * that escapes nothing; and a last dollar sign does not begin a variable. */
  ghost predicate WordEnds(parts: seq<Part>, r: string) {
    r == "" ||
    (&& (IsSpace(r[0]) || r[0] in "{};#\"'" || (r[0] == '\\' && (|r| == 1 || IsLineTerminator(r[1]))))
     && (parts != [] && parts[|parts| - 1] == Char('$') ==> !RestOfVariable(r)))
  }

  /** In front of `r` the token is as long as it can be. */
  ghost predicate Ends(t: Token, r: string) {
    match t
    case Space(_) => r == "" || !IsSpace(r[0])
    case Comment(_) => r == "" || r[0] == LF
    case Word(parts) => WordEnds(parts, r)
    case Open => !RestOfMustache(r)
    case _ => true
  }

  // ---- Each token is read as what it was written for ----

  lemma {:induction false} BraceRunAt(r: string, k: nat)
    requires FirstClosing(r, 0, k)
    ensures BraceRun(r) == k
  {
    if k > 0 {
      BraceRunAt(r[1..], k - 1);
    }
  }

  lemma {:induction false} BraceRunFirst(r: string)
    ensures BraceRun(r) < |r| ==> FirstClosing(r, 0, BraceRun(r))
    ensures forall i :: 0 <= i < BraceRun(r) ==> r[i] != '}'
  {
    if r != [] && r[0] != '}' {
      BraceRunFirst(r[1..]);
    }
  }

  lemma NameRun(name: string, r: string)
    requires '}' !in name && r != "" && r[0] == '}'
    ensures BraceRun(name + r) == |name|
  {
    assert FirstClosing(name + r, 0, |name|);
    BraceRunAt(name + r, |name|);
  }

  lemma MustacheReads(name: string, r: string)
    requires '}' !in name
    ensures MustacheLength("{{" + name + "}}" + r) == Some(|name| + 4)
  {
    hide BraceRun, MustacheLength;
    var x := "{{" + name + "}}" + r;
    NameRun(name, "}}" + r);
    StartsWithTwo(x, "{{");
    assert x[2..] == name + ("}}" + r);
    MustacheIs(x);
  }

  lemma VariableReads(name: string, r: string)
    requires name != "" && '}' !in name
    ensures VariableLength("${" + name + "}" + r) == Some(|name| + 3)
  {
    hide BraceRun, VariableLength;
    var x := "${" + name + "}" + r;
    NameRun(name, "}" + r);
    StartsWithTwo(x, "${");
    assert x[2..] == name + ("}" + r);
    VariableIs(x);
  }

  /** Behind a dollar sign, `r` makes a variable exactly when it is the rest of one. */
  lemma VariableBehind(r: string)
    ensures VariableLength("$" + r).Some? <==> RestOfVariable(r)
  {
    hide BraceRun, VariableLength;
    var x := "$" + r;
    VariableIs(x);
    StartsWithTwo(x, "${");
    if r != "" && r[0] == '{' {
      assert x[2..] == r[1..];
      BraceRunFirst(r[1..]);
      var k := BraceRun(r[1..]);
      if 0 < k && 2 + k < |x| {
        assert FirstClosing(r, 1, k + 1);
      }
      if RestOfVariable(r) {
        var j :| j >= 2 && FirstClosing(r, 1, j);
        assert FirstClosing(r[1..], 0, j - 1);
        BraceRunAt(r[1..], j - 1);
      }
    }
  }

  lemma MustacheBehind(r: string)
    ensures MustacheLength("{" + r).Some? <==> RestOfMustache(r)
  {
    hide BraceRun, MustacheLength;
    var x := "{" + r;
    MustacheIs(x);
    StartsWithTwo(x, "{{");
    if r != "" && r[0] == '{' {
      assert x[2..] == r[1..];
      BraceRunFirst(r[1..]);
      var k := BraceRun(r[1..]);
      if 2 + k + 1 < |x| && x[2 + k + 1] == '}' {
        assert FirstClosing(r, 1, k + 1);
      }
      if RestOfMustache(r) {
        var j :| FirstClosing(r, 1, j) && j + 1 < |r| && r[j + 1] == '}';
        assert FirstClosing(r[1..], 0, j - 1);
        BraceRunAt(r[1..], j - 1);
      }
    }
  }

  lemma {:induction false} QuotedReads(parts: seq<Part>, quote: char, r: string)
    requires QuotedParts(parts, quote) && quote != '\\'
    ensures QuotedLength(PartsText(parts) + [quote] + r, quote) == Some(|PartsText(parts)| + 1)
  {
    hide IsLineTerminator;
    var x := PartsText(parts) + [quote] + r;
    if parts != [] {
      var more := PartsText(parts[1..]) + [quote] + r;
      var n := |PartText(parts[0])|;
      assert x == PartText(parts[0]) + more && x[n..] == more;
      assert QuotedPart(parts[0], quote);
      QuotedReads(parts[1..], quote, r);
    }
  }

  /** What follows the first part of a word does not begin with a brace, unless it is what follows the word. */
  lemma PartsBegin(parts: seq<Part>, r: string)
    requires parts != [] && WordParts(parts)
    ensures PartsText(parts) != "" && (PartsText(parts) + r)[0] == PartsText(parts)[0]
    ensures !IsSpace(PartsText(parts)[0]) && PartsText(parts)[0] !in "{};#\"'"
  {
    hide IsLineTerminator;
    assert WordPart(parts[0]);
    PartBegins(parts[0]);
    assert PartsText(parts)[0] == PartText(parts[0])[0];
  }

  lemma PartBegins(p: Part)
    requires WordPart(p)
    ensures PartText(p) != "" && !IsSpace(PartText(p)[0]) && PartText(p)[0] !in "{};#\"'"
  {
    hide IsLineTerminator;
    match p
    case Char(c) => assert PartText(p)[0] == c;
    case Escaped(c) => assert PartText(p)[0] == '\\';
    case Variable(name) => assert PartText(p)[0] == '$';
  }

  lemma WordItemReads(p: Part, r: string)
    requires WordPart(p)
    requires p == Char('$') ==> !RestOfVariable(r)
    ensures WordItem(PartText(p) + r) == |PartText(p)|
  {
    hide VariableLength, RestOfVariable, IsLineTerminator;
    var x := PartText(p) + r;
    match p
    case Variable(name) =>
      VariableReads(name, r);
    case Char(c) =>
      VariableBehind(r);
      VariableIs(x);
      StartsWithTwo(x, "${");
    case Escaped(c) =>
      VariableIs(x);
      StartsWithTwo(x, "${");
  }

  lemma WordStops(parts: seq<Part>, r: string)
    requires WordEnds(parts, r)
    ensures WordRun(r) == 0
  {
    hide VariableLength, IsLineTerminator;
    if r != "" {
      VariableIs(r);
      StartsWithTwo(r, "${");
    }
  }

  lemma {:induction false} WordReads(parts: seq<Part>, r: string)
    requires WordParts(parts) && WordEnds(parts, r)
    ensures WordRun(PartsText(parts) + r) == |PartsText(parts)|
  {
    hide WordRun, WordItem, WordPart, PartText, WordEnds;
    if parts == [] {
      assert PartsText(parts) + r == r;
      WordStops(parts, r);
    } else {
      var more := PartsText(parts[1..]) + r;
      TailEnds(parts, r);
      WordReads(parts[1..], r);
      FirstReads(parts, r);
      SplitFront(PartText(parts[0]), PartsText(parts[1..]), r);
    }
  }

  lemma SplitFront(a: string, b: string, r: string)
    ensures (a + b) + r == a + (b + r) && ((a + b) + r)[|a|..] == b + r
  {
  }

  lemma FirstReads(parts: seq<Part>, r: string)
    requires parts != [] && WordParts(parts) && WordEnds(parts, r)
    ensures PartText(parts[0]) != ""
    ensures WordItem(PartText(parts[0]) + (PartsText(parts[1..]) + r)) == |PartText(parts[0])|
  {
    hide WordItem, PartsText, WordEnds, RestOfVariable;
    assert WordPart(parts[0]);
    PartBegins(parts[0]);
    if parts[0] == Char('$') {
      DollarStays(parts, r);
    }
    WordItemReads(parts[0], PartsText(parts[1..]) + r);
  }

  lemma TailEnds(parts: seq<Part>, r: string)
    requires parts != [] && WordParts(parts) && WordEnds(parts, r)
    ensures WordParts(parts[1..]) && WordEnds(parts[1..], r)
  {
    hide RestOfVariable;
    assert |parts| > 1 ==> parts[1..][|parts| - 2] == parts[|parts| - 1];
  }

  lemma DollarStays(parts: seq<Part>, r: string)
    requires parts != [] && parts[0] == Char('$') && WordParts(parts) && WordEnds(parts, r)
    ensures !RestOfVariable(PartsText(parts[1..]) + r)
  {
    if |parts| > 1 {
      PartsBegin(parts[1..], r);
    } else {
      assert PartsText(parts[1..]) + r == r;
    }
  }

  lemma SpaceReads(text: string, r: string)
    requires WellFormed(Space(text)) && Ends(Space(text), r)
    ensures TokenLength(text + r) == Some(|text|)
  {
    SpaceRunOf(text);
    SpaceRunAppend(text, r);
  }

  lemma CommentReads(text: string, r: string)
    requires WellFormed(Comment(text)) && Ends(Comment(text), r)
    ensures TokenLength("#" + text + r) == Some(1 + |text|)
  {
    hide MustacheLength, WordRun, SpaceRun;
    LineRunOf("#" + text);
    LineRunAppend("#" + text, r);
  }

  lemma {:induction false} LineRunOf(text: string)
    requires LF !in text
    ensures LineRun(text) == |text|
  {
    if text != [] {
      LineRunOf(text[1..]);
    }
  }

  lemma QuotedTokenReads(quote: char, parts: seq<Part>, r: string)
    requires WellFormed(Quoted(quote, parts))
    ensures TokenLength(TokenText(Quoted(quote, parts)) + r) == Some(|PartsText(parts)| + 2)
  {
    hide MustacheLength, SpaceRun, LineRun, WordRun, QuotedLength, PartsText, QuotedParts;
    var x := [quote] + PartsText(parts) + [quote] + r;
    QuotedReads(parts, quote, r);
    assert x[1..] == PartsText(parts) + [quote] + r;
    MustacheIs(x);
    StartsWithTwo(x, "{{");
  }

  lemma WordTokenReads(parts: seq<Part>, r: string)
    requires WellFormed(Word(parts)) && WordEnds(parts, r)
    ensures PartsText(parts) != "" && TokenLength(PartsText(parts) + r) == Some(|PartsText(parts)|)
  {
    hide MustacheLength, SpaceRun, LineRun, WordRun, QuotedLength, PartsText, WordEnds, IsSpace;
    var x := PartsText(parts) + r;
    PartsBegin(parts, r);
    WordReads(parts, r);
    MustacheIs(x);
    StartsWithTwo(x, "{{");
  }

  lemma MustacheTokenReads(name: string, r: string)
    requires '}' !in name
    ensures TokenLength("{{" + name + "}}" + r) == Some(|name| + 4)
  {
    hide MustacheLength, SpaceRun, LineRun, WordRun, QuotedLength;
    MustacheReads(name, r);
  }

  /** One of the three characters that are tokens of their own. */
  lemma MarkReads(c: char, r: string)
    requires c in "{};" && (c == '{' ==> !RestOfMustache(r))
    ensures TokenLength([c] + r) == Some(1)
  {
    hide MustacheLength, SpaceRun, LineRun, WordRun, QuotedLength, RestOfMustache, StartsWith;
    var x := [c] + r;
    if c == '{' {
      assert x == "{" + r;
      MustacheBehind(r);
    } else {
      MustacheIs(x);
      StartsWithTwo(x, "{{");
    }
    NoWord(x);
  }

  lemma NoWord(x: string)
    requires x != "" && x[0] in "{};"
    ensures WordRun(x) == 0
  {
    hide VariableLength;
    VariableIs(x);
    StartsWithTwo(x, "${");
  }

  /** A token that may stand in front of `r` is what the token expression matches there. */
  lemma TokenReads(t: Token, r: string)
    requires WellFormed(t) && Ends(t, r)
    ensures TokenText(t) != "" && TokenLength(TokenText(t) + r) == Some(|TokenText(t)|)
  {
    hide TokenLength, RestOfMustache, WordEnds, PartsText;
    match t
    case Space(text) => SpaceReads(text, r);
    case Comment(text) => CommentReads(text, r);
    case Mustache(name) => MustacheTokenReads(name, r);
    case Quoted(quote, parts) => QuotedTokenReads(quote, parts, r);
    case Word(parts) => WordTokenReads(parts, r);
    case Open => MarkReads('{', r);
    case Close => MarkReads('}', r);
    case Semicolon => MarkReads(';', r);
  }

  // ---- What the token expression matches is a token ----

  lemma {:induction false} QuotedWritten(r: string, quote: char) returns (parts: seq<Part>)
    requires QuotedLength(r, quote).Some?
    ensures QuotedParts(parts, quote) && PartsText(parts) + [quote] == r[..QuotedLength(r, quote).value]
  {
    hide IsLineTerminator;
    var n := QuotedLength(r, quote).value;
    if r[0] == quote {
      parts := [];
      assert r[..1] == [quote];
    } else {
      var p := if r[0] == '\\' then Escaped(r[1]) else Char(r[0]);
      var k := |PartText(p)|;
      var more := QuotedWritten(r[k..], quote);
      parts := [p] + more;
      assert parts[1..] == more;
      assert r[..n] == PartText(p) + r[k..][..n - k];
    }
  }

  lemma {:induction false} WordWritten(r: string) returns (parts: seq<Part>)
    ensures WordParts(parts) && PartsText(parts) == r[..WordRun(r)]
    ensures WordEnds(parts, r[WordRun(r)..])
  {
    hide WordRun, WordItem, WordEnds, WordPart, PartText;
    if r == "" || WordItem(r) == 0 {
      parts := [];
      NothingWritten(r);
    } else {
      var n := WordItem(r);
      var p := ItemWritten(r);
      var more := WordWritten(r[n..]);
      parts := [p] + more;
      assert parts[1..] == more;
      SplitRun(r, n, WordRun(r[n..]));
      WrittenEnds(r, p, more);
    }
  }

  lemma SplitRun(r: string, n: nat, k: nat)
    requires n + k <= |r|
    ensures r[..n + k] == r[..n] + r[n..][..k] && r[n + k..] == r[n..][k..]
  {
  }

  lemma NothingWritten(r: string)
    requires r == "" || WordItem(r) == 0
    ensures WordRun(r) == 0 && r[..0] == "" && r[0..] == r && WordEnds([], r)
  {
    hide VariableLength, IsLineTerminator;
    if r != "" {
      assert WordRun(r) == 0;
    }
  }

  /** The part a word's item was written for. */
  lemma ItemWritten(r: string) returns (p: Part)
    requires r != "" && WordItem(r) > 0
    ensures WordPart(p) && PartText(p) == r[..WordItem(r)]
    ensures p == Char('$') ==> !RestOfVariable(r[1..])
  {
    hide VariableLength, IsLineTerminator, RestOfVariable;
    VariableIs(r);
    StartsWithTwo(r, "${");
    if VariableLength(r).Some? {
      BraceRunFirst(r[2..]);
      var k := BraceRun(r[2..]);
      p := Variable(r[2..2 + k]);
      assert r[..3 + k] == "${" + r[2..2 + k] + "}";
      assert '}' !in r[2..2 + k];
    } else if r[0] == '\\' {
      p := Escaped(r[1]);
      assert r[..2] == ['\\', r[1]];
    } else {
      p := Char(r[0]);
      assert r[..1] == [r[0]];
      assert r == [r[0]] + r[1..];
      if r[0] == '$' {
        VariableBehind(r[1..]);
      }
    }
  }

  lemma WrittenEnds(r: string, p: Part, more: seq<Part>)
    requires r != "" && WordItem(r) > 0 && WordPart(p) && PartText(p) == r[..WordItem(r)]
    requires p == Char('$') ==> !RestOfVariable(r[1..])
    requires WordEnds(more, r[WordItem(r)..][WordRun(r[WordItem(r)..])..])
    requires PartsText(more) == r[WordItem(r)..][..WordRun(r[WordItem(r)..])]
    ensures WordEnds([p] + more, r[WordItem(r)..][WordRun(r[WordItem(r)..])..])
  {
    hide WordItem, WordRun, RestOfVariable, WordPart;
    var rest := r[WordItem(r)..];
    var parts := [p] + more;
    if more == [] {
      assert rest[WordRun(rest)..] == rest;
      assert p == Char('$') ==> |r[..WordItem(r)]| == 1;
    } else {
      assert parts[|parts| - 1] == more[|more| - 1];
    }
  }

  /** Whatever the token expression matches was written for a token, and that token could take no more. */
  lemma TokenWritten(r: string) returns (t: Token)
    requires r != "" && TokenLength(r).Some?
    ensures WellFormed(t) && TokenText(t) == r[..TokenLength(r).value] && Ends(t, r[TokenLength(r).value..])
  {
    hide MustacheLength, SpaceRun, LineRun, WordRun, QuotedLength, RestOfMustache, WordEnds, IsLineTerminator, PartsText, QuotedParts, WordParts;
    var n := TokenLength(r).value;
    if IsSpace(r[0]) {
      SpaceRunAll(r);
      t := Space(r[..n]);
    } else if r[0] == '#' {
      LineRunEnd(r);
      t := Comment(r[1..n]);
      assert r[..n] == "#" + r[1..n];
    } else if MustacheLength(r).Some? {
      t := MustacheWritten(r);
    } else if r[0] == '"' || r[0] == '\'' {
      t := QuotedTokenWritten(r);
    } else if WordRun(r) > 0 {
      t := WordTokenWritten(r);
    } else {
      t := if r[0] == '{' then Open else if r[0] == '}' then Close else Semicolon;
      assert r[..1] == [r[0]] && r == [r[0]] + r[1..];
      if r[0] == '{' {
        MustacheBehind(r[1..]);
      }
    }
  }

  lemma WordTokenWritten(r: string) returns (t: Token)
    requires WordRun(r) > 0
    ensures WellFormed(t) && TokenText(t) == r[..WordRun(r)] && Ends(t, r[WordRun(r)..])
  {
    hide WordRun, WordParts, WordEnds;
    var parts := WordWritten(r);
    t := Word(parts);
  }

  lemma QuotedTokenWritten(r: string) returns (t: Token)
    requires r != "" && (r[0] == '"' || r[0] == '\'') && QuotedLength(r[1..], r[0]).Some?
    ensures t.Quoted? && WellFormed(t) && TokenText(t) == r[..1 + QuotedLength(r[1..], r[0]).value]
  {
    hide QuotedLength, PartsText, QuotedParts;
    var n := QuotedLength(r[1..], r[0]).value;
    var parts := QuotedWritten(r[1..], r[0]);
    t := Quoted(r[0], parts);
    assert r == [r[0]] + r[1..];
    FrontOfMore([r[0]], r[1..], n);
    SplitFront([r[0]], PartsText(parts), [r[0]]);
  }

  lemma FrontOfMore(a: string, b: string, n: nat)
    requires n <= |b|
    ensures (a + b)[..|a| + n] == a + b[..n]
  {
  }

  lemma MustacheWritten(r: string) returns (t: Token)
    requires MustacheLength(r).Some?
    ensures t.Mustache? && WellFormed(t) && TokenText(t) == r[..MustacheLength(r).value]
  {
    hide BraceRun;
    StartsWithTwo(r, "{{");
    BraceRunFirst(r[2..]);
    var k := BraceRun(r[2..]);
    t := Mustache(r[2..2 + k]);
    assert '}' !in r[2..2 + k];
    assert r[..k + 4] == "{{" + r[2..2 + k] + "}}";
  }
}
