/** What the parser of NginxConfig reads, said by a printer: every text it accepts is a printed configuration, and it
  * reports that configuration's server blocks with their words, nesting and offsets. */
module NginxPrinted {
  import opened Outcomes
  import opened Text
  import opened NginxConfig
  import opened NginxInsertion
  import opened NginxTokens

  // ---- Configurations as they are written ----

  /** Words are written with what stands between them; words in front of a closing brace are dropped. */
  datatype Config =
    | End
    | Gap(token: Token, rest: Config)
    | Statement(words: seq<Token>, rest: Config)
    | Braces(words: seq<Token>, inner: Config, dropped: seq<Token>, rest: Config)

  function TokensText(ts: seq<Token>): string {
    if ts == [] then "" else TokenText(ts[0]) + TokensText(ts[1..])
  }

  predicate IsMark(t: Token) {
    t.Open? || t.Close? || t.Semicolon?
  }

  /** Nothing, or words with white space, comments and placeholders behind the first one. */
  predicate IsWords(ts: seq<Token>) {
    ts == [] || ((ts[0].Quoted? || ts[0].Word?) && NoMark(ts))
  }

  predicate NoMark(ts: seq<Token>) {
    forall i :: 0 <= i < |ts| ==> !IsMark(ts[i])
  }

  predicate Shaped(c: Config) {
    match c
    case End => true
    case Gap(t, rest) => (t.Space? || t.Comment? || t.Mustache?) && Shaped(rest)
    case Statement(words, rest) => IsWords(words) && Shaped(rest)
    case Braces(words, inner, dropped, rest) => IsWords(words) && Shaped(inner) && IsWords(dropped) && Shaped(rest)
  }

  function Tokens(c: Config): seq<Token> {
    match c
    case End => []
    case Gap(t, rest) => [t] + Tokens(rest)
    case Statement(words, rest) => words + [Semicolon] + Tokens(rest)
    case Braces(words, inner, dropped, rest) => words + [Open] + Tokens(inner) + dropped + [Close] + Tokens(rest)
  }

  function ConfigText(c: Config): string {
    TokensText(Tokens(c))
  }

  /** Every token is one that may stand in front of those behind it, and of `r`. */
  ghost predicate Fit(ts: seq<Token>, r: string) {
    ts == [] || (WellFormed(ts[0]) && Ends(ts[0], TokensText(ts[1..]) + r) && Fit(ts[1..], r))
  }

  /** `s` is the configuration as it is written. */
  ghost predicate Writes(c: Config, s: string) {
    Shaped(c) && Fit(Tokens(c), "") && s == ConfigText(c)
  }

  // ---- What it means ----

  datatype Content = Content(directives: seq<Directive>, blocks: seq<Block>, start: nat)

  /** A word without its quotes. */
  function Value(t: Token): string {
    if t.Quoted? then PartsText(t.parts) else TokenText(t)
  }

  function Values(ts: seq<Token>): seq<string> {
    if ts == [] then [] else (if ts[0].Space? || ts[0].Comment? then [] else [Value(ts[0])]) + Values(ts[1..])
  }

  /** Where the last words began: here, if there are any. */
  function Begin(words: seq<Token>, at: nat, start: nat): nat {
    if words == [] then start else at
  }

  /** The directives and blocks of a configuration that is written at offset `at`, and where its last words began. */
  function Meaning(c: Config, at: nat, start: nat): Content {
    match c
    case End => Content([], [], start)
    case Gap(t, rest) =>
      var after := at + |TokenText(t)|;
      var more := Meaning(rest, after, start);
      if t == Mustache("server_name")
      then more.(directives := [Directive(["server_name", "{{server_name}}"], at, after)] + more.directives)
      else more
    case Statement(words, rest) =>
      var begin, after := Begin(words, at, start), at + |TokensText(words)| + 1;
      var more := Meaning(rest, after, begin);
      more.(directives := [Directive(Values(words), begin, after)] + more.directives)
    case Braces(words, inner, dropped, rest) =>
      var open := at + |TokensText(words)| + 1;
      var within := Meaning(inner, open, Begin(words, at, start));
      var last := open + |ConfigText(inner)|;
      var end := last + |TokensText(dropped)| + 1;
      var more := Meaning(rest, end, Begin(dropped, last, within.start));
      more.(blocks := [Block(Values(words), open, end, within.directives, within.blocks)] + more.blocks)
  }

  /** The blocks whose only word is `server`. */
  function ServersAmong(bs: seq<Block>): seq<Block> {
    if bs == [] then [] else (if bs[0].words == ["server"] then [bs[0]] else []) + ServersAmong(bs[1..])
  }

  // ---- Texts of token lists ----

  lemma {:induction false} TextAppend(a: seq<Token>, b: seq<Token>)
    ensures TokensText(a + b) == TokensText(a) + TokensText(b)
  {
    if a == [] {
      assert a + b == b;
    } else {
      assert (a + b)[1..] == a[1..] + b;
      TextAppend(a[1..], b);
    }
  }

  lemma {:induction false} FitAppend(a: seq<Token>, b: seq<Token>, r: string)
    ensures Fit(a + b, r) <==> Fit(a, TokensText(b) + r) && Fit(b, r)
  {
    hide WellFormed, Ends, TokensText;
    if a == [] {
      assert a + b == b;
    } else {
      assert (a + b)[1..] == a[1..] + b;
      FitAppend(a[1..], b, r);
      TextAppend(a[1..], b);
      Joins(TokensText(a[1..]), TokensText(b), r);
    }
  }

  lemma Joins(a: string, b: string, r: string)
    ensures (a + b) + r == a + (b + r)
  {
  }

  lemma OneToken(t: Token, r: string)
    ensures TokensText([t]) == TokenText(t)
    ensures Fit([t], r) <==> WellFormed(t) && Ends(t, r)
  {
    hide WellFormed, Ends, TokenText;
    assert [t][1..] == [];
    assert TokensText([]) + r == r;
  }

  // ---- One token ----

  lemma RunToken(t: Token, r: string, at: nat, st: State)
    requires WellFormed(t) && Ends(t, r)
    ensures TokenText(t) != ""
    ensures Run(TokenText(t) + r, at, st)
         == match Step(st, TokenText(t), at) case Err(e) => Err(e) case Ok(next) => Run(r, at + |TokenText(t)|, next)
  {
    hide Run, Step, TokenLength, TokenText, WellFormed, Ends;
    TokenReads(t, r);
    RunTake(TokenText(t), r, at, st);
  }

  /** Words, and whatever stands between them, in the state of the parser. */
  function Worded(st: State, ts: seq<Token>, at: nat): State {
    st.(words := st.words + Values(ts), start := if st.words == [] then Begin(ts, at, st.start) else st.start)
  }

  lemma StepWord(t: Token, at: nat, st: State)
    requires WellFormed(t) && !IsMark(t) && TokenText(t) != ""
    requires st.words != [] || t.Quoted? || t.Word?
    ensures Step(st, TokenText(t), at) == Ok(Worded(st, [t], at))
  {
    hide PartsText, QuotedParts, AddDirective, AddChild, IsServer, StartsWith, WordParts;
    OneValue(t);
    assert st.words + [] == st.words;
    match t
    case Quoted(quote, parts) =>
      StepQuoted(quote, PartsText(parts), at, st);
    case Word(parts) =>
      PartsBegin(parts, "");
      assert PartsText(parts) + "" == PartsText(parts);
      StepPlain(PartsText(parts), at, st);
    case Mustache(name) =>
      StepMustache(name, at, st);
    case _ =>
  }

  function Taken(st: State, word: string, at: nat): State {
    st.(words := st.words + [word], start := if st.words == [] then at else st.start)
  }

  lemma StepQuoted(quote: char, inside: string, at: nat, st: State)
    requires quote == '"' || quote == '\''
    ensures Step(st, [quote] + inside + [quote], at) == Ok(Taken(st, inside, at))
  {
    hide AddDirective, AddChild, IsServer, StartsWith;
    var value := [quote] + inside + [quote];
    StartsWithTwo(value, "{{");
    assert value[0] == quote && value[|value| - 1] == quote && value[1..|value| - 1] == inside;
  }

  lemma StepPlain(value: string, at: nat, st: State)
    requires value != "" && !IsSpace(value[0]) && value[0] !in "{};#\"'"
    ensures Step(st, value, at) == Ok(Taken(st, value, at))
  {
    hide AddDirective, AddChild, IsServer, StartsWith;
    StartsWithTwo(value, "{{");
    assert Unquoted(value) == value;
  }

  lemma StepMustache(name: string, at: nat, st: State)
    requires st.words != []
    ensures Step(st, "{{" + name + "}}", at) == Ok(Taken(st, "{{" + name + "}}", at))
  {
    hide AddDirective, AddChild, IsServer;
    var value := "{{" + name + "}}";
    assert value[0] == '{' && |value| >= 4;
    assert Unquoted(value) == value;
  }

  lemma OneValue(t: Token)
    ensures Values([t]) == if t.Space? || t.Comment? then [] else [Value(t)]
  {
    hide Value;
    assert [t][1..] == [] && Values([]) == [];
    var own := if t.Space? || t.Comment? then [] else [Value(t)];
    assert own + [] == own;
  }

  lemma StepGap(t: Token, at: nat, st: State)
    requires WellFormed(t) && TokenText(t) != "" && st.words == []
    requires t.Space? || t.Comment? || t.Mustache?
    ensures Step(st, TokenText(t), at) ==
      Ok(if t == Mustache("server_name")
         then st.(stack := AddDirective(st.stack, Directive(["server_name", "{{server_name}}"], at, at + |TokenText(t)|)))
         else st)
  {
    hide AddDirective, AddChild, IsServer, StartsWith;
    StartsWithTwo(TokenText(t), "{{");
    if t.Mustache? {
      PlaceholderName(t.name);
    }
  }

  lemma PlaceholderName(name: string)
    ensures "{{" + name + "}}" == "{{server_name}}" <==> name == "server_name"
  {
    var text := "{{" + name + "}}";
    assert text[2..|text| - 2] == name;
    assert "{{server_name}}"[2..13] == "server_name";
  }

  // ---- Words ----

  lemma WordedMore(t: Token, ts: seq<Token>, at: nat, st: State)
    requires st.words != [] || t.Quoted? || t.Word?
    ensures Worded(Worded(st, [t], at), ts, at + |TokenText(t)|) == Worded(st, [t] + ts, at)
    ensures (Worded(st, [t], at)).words != []
  {
    hide TokenText, PartsText;
    OneValue(t);
    assert ([t] + ts)[1..] == ts;
    Joins3(st.words, Values([t]), Values(ts));
  }

  lemma Joins3<T>(a: seq<T>, b: seq<T>, c: seq<T>)
    ensures (a + b) + c == a + (b + c)
  {
  }

  lemma {:induction false} RunWords(ts: seq<Token>, r: string, at: nat, st: State)
    requires NoMark(ts) && Fit(ts, r)
    requires st.words != [] || IsWords(ts)
    ensures Run(TokensText(ts) + r, at, st) == Run(r, at + |TokensText(ts)|, Worded(st, ts, at))
    decreases ts
  {
    hide Run, Step, TokenText, WellFormed, Ends, IsMark, Worded;
    if ts == [] {
      NoWords(st, at);
      assert TokensText(ts) + r == r;
    } else {
      var t, more := ts[0], TokensText(ts[1..]) + r;
      assert ts == [t] + ts[1..];
      SplitFront(TokenText(t), TokensText(ts[1..]), r);
      RunToken(t, more, at, st);
      StepWord(t, at, st);
      WordedMore(t, ts[1..], at, st);
      RunWords(ts[1..], r, at + |TokenText(t)|, Worded(st, [t], at));
    }
  }

  lemma NoWords(st: State, at: nat)
    ensures Worded(st, [], at) == st
  {
    assert st.words + [] == st.words;
  }

  // ---- A whole configuration ----

  /** The state of the parser with a configuration's content added to the innermost open block, or at the top, where
    * only server blocks are kept. */
  function With(st: State, content: Content): State {
    if st.stack == [] then State([], st.result + ServersAmong(content.blocks), [], content.start)
    else
      var top := st.stack[|st.stack| - 1];
      var added := Frame(top.words, top.open, top.directives + content.directives, top.children + content.blocks);
      State(st.stack[..|st.stack| - 1] + [added], st.result, [], content.start)
  }

  lemma WithNothing(st: State)
    requires st.words == []
    ensures With(st, Content([], [], st.start)) == st
  {
    if st.stack == [] {
      assert st.result + [] == st.result;
    } else {
      var top := st.stack[|st.stack| - 1];
      assert top.directives + [] == top.directives && top.children + [] == top.children;
      LastApart(st.stack);
    }
  }

  lemma WithDirective(st: State, d: Directive, start: nat, more: Content)
    ensures With(st.(stack := AddDirective(st.stack, d), words := [], start := start), more)
         == With(st, more.(directives := [d] + more.directives))
  {
    if st.stack != [] {
      Joins3(st.stack[|st.stack| - 1].directives, [d], more.directives);
    }
  }

  /** The state behind a closing brace: the block goes to the block around it, or to the result. */
  function Behind(st: State, b: Block, start: nat): State {
    State(AddChild(st.stack, b), if st.stack == [] && b.words == ["server"] then st.result + [b] else st.result, [], start)
  }

  lemma WithBlock(st: State, b: Block, start: nat, more: Content)
    ensures With(Behind(st, b, start), more) == With(st, more.(blocks := [b] + more.blocks))
  {
    assert ([b] + more.blocks)[1..] == more.blocks;
    if st.stack == [] {
      var own := if b.words == ["server"] then [b] else [];
      Joins3(st.result, own, ServersAmong(more.blocks));
      assert st.result + [] == st.result;
    } else {
      Joins3(st.stack[|st.stack| - 1].children, [b], more.blocks);
    }
  }

  lemma ServerWord(words: seq<string>)
    ensures IsServer(words) <==> words == ["server"]
  {
    if IsServer(words) {
      JoinedServer(words);
    }
  }

  lemma RunSemi(r: string, at: nat, st: State)
    ensures Run(";" + r, at, st)
         == Run(r, at + 1, st.(stack := AddDirective(st.stack, Directive(st.words, st.start, at + 1)), words := []))
  {
    RunSemicolon(r, at, st);
  }

  lemma RunOpen(r: string, at: nat, st: State)
    requires !RestOfMustache(r)
    ensures Run("{" + r, at, st) == Run(r, at + 1, State(st.stack + [Frame(st.words, at + 1, [], [])], st.result, [], st.start))
  {
    hide Run, RestOfMustache, StartsWith;
    RunToken(Open, r, at, st);
    StartsWithTwo("{", "{{");
  }

  lemma RunClose(r: string, at: nat, st: State)
    ensures st.stack == [] ==> Run("}" + r, at, st) == Err(Unbalanced)
    ensures st.stack != [] ==>
      var below := State(st.stack[..|st.stack| - 1], st.result, [], st.start);
      Run("}" + r, at, st) == Run(r, at + 1, Behind(below, Closed(st.stack[|st.stack| - 1], at + 1), st.start))
  {
    hide Run, StartsWith, IsServer, AddChild;
    RunToken(Close, r, at, st);
    StartsWithTwo("}", "{{");
    if st.stack != [] {
      ServerWord(st.stack[|st.stack| - 1].words);
    }
  }

  // ---- How a configuration's text and tokens fall apart ----

  lemma GapApart(t: Token, rest: Config, r: string)
    ensures ConfigText(Gap(t, rest)) + r == TokenText(t) + (ConfigText(rest) + r)
    ensures Fit(Tokens(Gap(t, rest)), r) <==> WellFormed(t) && Ends(t, ConfigText(rest) + r) && Fit(Tokens(rest), r)
  {
    hide Fit, WellFormed, Ends, TokensText, TokenText;
    TextAppend([t], Tokens(rest));
    FitAppend([t], Tokens(rest), r);
    OneToken(t, ConfigText(rest) + r);
    Joins(TokenText(t), ConfigText(rest), r);
  }

  /** Tokens around a mark. */
  lemma MarkApart(a: seq<Token>, mark: Token, b: seq<Token>, r: string)
    requires IsMark(mark)
    ensures TokensText(a + [mark] + b) + r == TokensText(a) + (TokenText(mark) + (TokensText(b) + r))
    ensures Fit(a + [mark] + b, r) <==>
      && Fit(a, TokenText(mark) + (TokensText(b) + r)) && (mark == Open ==> !RestOfMustache(TokensText(b) + r)) && Fit(b, r)
  {
    hide Fit, TokensText, TokenText, RestOfMustache, WordEnds;
    assert a + [mark] + b == a + ([mark] + b);
    TextAppend(a, [mark] + b);
    TextAppend([mark], b);
    FitAppend(a, [mark] + b, r);
    FitAppend([mark], b, r);
    OneToken(mark, TokensText(b) + r);
    Joins(TokenText(mark), TokensText(b), r);
    Joins(TokensText(a), TokenText(mark) + TokensText(b), r);
  }

  lemma StatementApart(words: seq<Token>, rest: Config, r: string)
    ensures ConfigText(Statement(words, rest)) + r == TokensText(words) + (";" + (ConfigText(rest) + r))
    ensures Fit(Tokens(Statement(words, rest)), r) <==> Fit(words, ";" + (ConfigText(rest) + r)) && Fit(Tokens(rest), r)
  {
    MarkApart(words, Semicolon, Tokens(rest), r);
  }

  lemma BracesApart(words: seq<Token>, inner: Config, dropped: seq<Token>, rest: Config, r: string)
    ensures
      var close := "}" + (ConfigText(rest) + r);
      var within := ConfigText(inner) + (TokensText(dropped) + close);
      var c := Braces(words, inner, dropped, rest);
      && ConfigText(c) + r == TokensText(words) + ("{" + within)
      && (Fit(Tokens(c), r) <==>
            && Fit(words, "{" + within) && !RestOfMustache(within) && Fit(Tokens(inner), TokensText(dropped) + close)
            && Fit(dropped, close) && Fit(Tokens(rest), r))
  {
    hide Fit, TokensText, RestOfMustache;
    var end := dropped + [Close] + Tokens(rest);
    var all := Tokens(inner) + end;
    assert Tokens(Braces(words, inner, dropped, rest)) == words + [Open] + all;
    MarkApart(words, Open, all, r);
    TextAppend(Tokens(inner), end);
    FitAppend(Tokens(inner), end, r);
    Joins(ConfigText(inner), TokensText(end), r);
    MarkApart(dropped, Close, Tokens(rest), r);
  }

  // ---- Reading what was written ----

  /** With words read. */
  function Named(st: State, words: seq<Token>, at: nat): State {
    st.(words := Values(words), start := Begin(words, at, st.start))
  }

  lemma RunNamed(words: seq<Token>, r: string, at: nat, st: State)
    requires IsWords(words) && Fit(words, r) && st.words == []
    ensures Run(TokensText(words) + r, at, st) == Run(r, at + |TokensText(words)|, Named(st, words, at))
  {
    hide Run, Fit, TokensText, Values;
    RunWords(words, r, at, st);
    assert [] + Values(words) == Values(words);
  }

  function BehindGap(st: State, t: Token, at: nat): State {
    if t == Mustache("server_name")
    then st.(stack := AddDirective(st.stack, Directive(["server_name", "{{server_name}}"], at, at + |TokenText(t)|)))
    else st
  }

  function BehindStatement(st: State, words: seq<Token>, at: nat): State {
    var begin := Begin(words, at, st.start);
    var d := Directive(Values(words), begin, at + |TokensText(words)| + 1);
    State(AddDirective(st.stack, d), st.result, [], begin)
  }

  function Opened(st: State, words: seq<Token>, at: nat): State {
    State(st.stack + [Frame(Values(words), at + |TokensText(words)| + 1, [], [])], st.result, [], Begin(words, at, st.start))
  }

  function BehindBraces(st: State, words: seq<Token>, inner: Config, dropped: seq<Token>, at: nat): State {
    var open := at + |TokensText(words)| + 1;
    var within := Meaning(inner, open, Begin(words, at, st.start));
    var last := open + |ConfigText(inner)|;
    var b := Block(Values(words), open, last + |TokensText(dropped)| + 1, within.directives, within.blocks);
    Behind(st, b, Begin(dropped, last, within.start))
  }

  /** The parser read `c` and stands behind it. */
  ghost predicate ReadIs(c: Config, r: string, at: nat, st: State) {
    Run(ConfigText(c) + r, at, st) == Run(r, at + |ConfigText(c)|, With(st, Meaning(c, at, st.start)))
  }

  lemma ReadGap(t: Token, rest: Config, r: string, at: nat, st: State)
    requires Shaped(Gap(t, rest)) && Fit(Tokens(Gap(t, rest)), r) && st.words == []
    requires ReadIs(rest, r, at + |TokenText(t)|, BehindGap(st, t, at))
    ensures ReadIs(Gap(t, rest), r, at, st)
  {
    hide Run, Step, Fit, Tokens, TokensText, TokenText, WellFormed, Ends, With, AddDirective;
    GapApart(t, rest, r);
    RunToken(t, ConfigText(rest) + r, at, st);
    StepGap(t, at, st);
    var after := at + |TokenText(t)|;
    assert |ConfigText(Gap(t, rest))| == |TokenText(t)| + |ConfigText(rest)|;
    if t == Mustache("server_name") {
      WithDirective(st, Directive(["server_name", "{{server_name}}"], at, after), st.start, Meaning(rest, after, st.start));
    }
  }

  lemma ReadStatement(words: seq<Token>, rest: Config, r: string, at: nat, st: State)
    requires Shaped(Statement(words, rest)) && Fit(Tokens(Statement(words, rest)), r) && st.words == []
    requires ReadIs(rest, r, at + |TokensText(words)| + 1, BehindStatement(st, words, at))
    ensures ReadIs(Statement(words, rest), r, at, st)
  {
    hide Run, Fit, Tokens, TokensText, Values, With, AddDirective, IsWords;
    var begin, end := Begin(words, at, st.start), at + |TokensText(words)|;
    var c, more := Statement(words, rest), ConfigText(rest) + r;
    StatementApart(words, rest, r);
    RunNamed(words, ";" + more, at, st);
    RunSemi(more, end, Named(st, words, at));
    assert |ConfigText(c)| == |TokensText(words)| + 1 + |ConfigText(rest)|;
    WithDirective(st, Directive(Values(words), begin, end + 1), begin, Meaning(rest, end + 1, begin));
  }

  /** Up to the closing brace. */
  lemma ReadWithin(words: seq<Token>, inner: Config, dropped: seq<Token>, close: string, at: nat, st: State)
    requires IsWords(words) && IsWords(dropped) && st.words == []
    requires Fit(words, "{" + (ConfigText(inner) + (TokensText(dropped) + close)))
    requires !RestOfMustache(ConfigText(inner) + (TokensText(dropped) + close)) && Fit(dropped, close)
    requires ReadIs(inner, TokensText(dropped) + close, at + |TokensText(words)| + 1, Opened(st, words, at))
    ensures
      var open := at + |TokensText(words)| + 1;
      var last := open + |ConfigText(inner)|;
      var filled := With(Opened(st, words, at), Meaning(inner, open, Begin(words, at, st.start)));
      Run(TokensText(words) + ("{" + (ConfigText(inner) + (TokensText(dropped) + close))), at, st)
      == Run(close, last + |TokensText(dropped)|, Named(filled, dropped, last))
  {
    hide Run, Fit, Tokens, TokensText, Values, Meaning, IsWords, RestOfMustache;
    var tail := TokensText(dropped) + close;
    var within := ConfigText(inner) + tail;
    var open := at + |TokensText(words)| + 1;
    var entered := Opened(st, words, at);
    RunNamed(words, "{" + within, at, st);
    RunOpen(within, open - 1, Named(st, words, at));
    var filled := With(entered, Meaning(inner, open, entered.start));
    RunNamed(dropped, close, open + |ConfigText(inner)|, filled);
  }

  /** The closing brace puts the block where it belongs. */
  lemma Shut(st: State, words: seq<Token>, inner: Config, dropped: seq<Token>, at: nat)
    ensures
      var open := at + |TokensText(words)| + 1;
      var last := open + |ConfigText(inner)|;
      var filled := With(Opened(st, words, at), Meaning(inner, open, Begin(words, at, st.start)));
      var named := Named(filled, dropped, last);
      && named.stack != []
      && Behind(State(named.stack[..|named.stack| - 1], named.result, [], named.start),
                Closed(named.stack[|named.stack| - 1], last + |TokensText(dropped)| + 1), named.start)
         == BehindBraces(st, words, inner, dropped, at)
  {
    hide Tokens, TokensText, Values, Meaning, AddChild, Opened, With, Begin;
    var open := at + |TokensText(words)| + 1;
    Filled(st, words, at, Meaning(inner, open, Begin(words, at, st.start)));
  }

  lemma Filled(st: State, words: seq<Token>, at: nat, within: Content)
    ensures
      var frame := Frame(Values(words), at + |TokensText(words)| + 1, within.directives, within.blocks);
      var filled := With(Opened(st, words, at), within);
      && filled == State(st.stack + [frame], st.result, [], within.start)
      && filled.stack[..|filled.stack| - 1] == st.stack
  {
    hide TokensText, Values;
    assert [] + within.directives == within.directives && [] + within.blocks == within.blocks;
    assert Opened(st, words, at).stack[..|st.stack|] == st.stack;
  }

  /** Behind the closing brace. */
  lemma ReadBlock(words: seq<Token>, inner: Config, dropped: seq<Token>, after: string, at: nat, st: State)
    requires IsWords(words) && IsWords(dropped) && st.words == []
    requires Fit(words, "{" + (ConfigText(inner) + (TokensText(dropped) + ("}" + after))))
    requires !RestOfMustache(ConfigText(inner) + (TokensText(dropped) + ("}" + after))) && Fit(dropped, "}" + after)
    requires ReadIs(inner, TokensText(dropped) + ("}" + after), at + |TokensText(words)| + 1, Opened(st, words, at))
    ensures Run(TokensText(words) + ("{" + (ConfigText(inner) + (TokensText(dropped) + ("}" + after)))), at, st)
         == Run(after, EndOf(words, inner, dropped, at), BehindBraces(st, words, inner, dropped, at))
  {
    hide Run, Fit, Tokens, TokensText, Values, With, AddChild, IsWords, RestOfMustache, Opened, Named, Behind, Meaning, ReadIs;
    hide BehindBraces, Begin;
    var open := at + |TokensText(words)| + 1;
    var last := open + |ConfigText(inner)|;
    ReadWithin(words, inner, dropped, "}" + after, at, st);
    Shut(st, words, inner, dropped, at);
    var filled := With(Opened(st, words, at), Meaning(inner, open, Begin(words, at, st.start)));
    RunClose(after, last + |TokensText(dropped)|, Named(filled, dropped, last));
  }

  lemma ReadBraces(words: seq<Token>, inner: Config, dropped: seq<Token>, rest: Config, r: string, at: nat, st: State)
    requires Shaped(Braces(words, inner, dropped, rest)) && Fit(Tokens(Braces(words, inner, dropped, rest)), r)
    requires st.words == []
    requires ReadIs(inner, TokensText(dropped) + ("}" + (ConfigText(rest) + r)), at + |TokensText(words)| + 1, Opened(st, words, at))
    requires ReadIs(rest, r, EndOf(words, inner, dropped, at), BehindBraces(st, words, inner, dropped, at))
    ensures ReadIs(Braces(words, inner, dropped, rest), r, at, st)
  {
    hide Run, Fit, Tokens, TokensText, Values, With, AddChild, IsWords, RestOfMustache, Opened, Behind;
    var c, more := Braces(words, inner, dropped, rest), ConfigText(rest) + r;
    var open := at + |TokensText(words)| + 1;
    var last := open + |ConfigText(inner)|;
    var within := Meaning(inner, open, Begin(words, at, st.start));
    BracesApart(words, inner, dropped, rest, r);
    ReadBlock(words, inner, dropped, more, at, st);
    var end := last + |TokensText(dropped)| + 1;
    assert |ConfigText(c)| == end - at + |ConfigText(rest)|;
    var start := Begin(dropped, last, within.start);
    var b := Block(Values(words), open, end, within.directives, within.blocks);
    WithBlock(st, b, start, Meaning(rest, end, start));
    BehindStart(st, b, start);
  }

  lemma BehindStart(st: State, b: Block, start: nat)
    ensures Behind(st, b, start).start == start && Behind(st, b, start).words == []
  {
  }

  function EndOf(words: seq<Token>, inner: Config, dropped: seq<Token>, at: nat): nat {
    at + |TokensText(words)| + 1 + |ConfigText(inner)| + |TokensText(dropped)| + 1
  }

  /** A configuration is read as what it means, whatever follows it. */
  lemma {:induction false} RunConfig(c: Config, r: string, at: nat, st: State)
    requires Shaped(c) && Fit(Tokens(c), r) && st.words == []
    ensures ReadIs(c, r, at, st)
    decreases c
  {
    hide Run, Fit, Tokens, TokensText, TokenText, WellFormed, Ends, With, Meaning, IsWords, AddDirective, RestOfMustache;
    hide ReadIs, Behind, Values, Begin;
    match c
    case End =>
      ReadNothing(r, at, st);
    case Gap(t, rest) =>
      GapApart(t, rest, r);
      RunConfig(rest, r, at + |TokenText(t)|, BehindGap(st, t, at));
      ReadGap(t, rest, r, at, st);
    case Statement(words, rest) =>
      StatementApart(words, rest, r);
      RunConfig(rest, r, at + |TokensText(words)| + 1, BehindStatement(st, words, at));
      ReadStatement(words, rest, r, at, st);
    case Braces(words, inner, dropped, rest) =>
      var tail := TokensText(dropped) + ("}" + (ConfigText(rest) + r));
      BracesApart(words, inner, dropped, rest, r);
      RunConfig(inner, tail, at + |TokensText(words)| + 1, Opened(st, words, at));
      BracesWords(st, words, inner, dropped, at);
      RunConfig(rest, r, EndOf(words, inner, dropped, at), BehindBraces(st, words, inner, dropped, at));
      ReadBraces(words, inner, dropped, rest, r, at, st);
  }

  lemma BracesWords(st: State, words: seq<Token>, inner: Config, dropped: seq<Token>, at: nat)
    ensures BehindBraces(st, words, inner, dropped, at).words == []
  {
  }

  lemma ReadNothing(r: string, at: nat, st: State)
    requires st.words == []
    ensures ReadIs(End, r, at, st)
  {
    hide Run, With;
    WithNothing(st);
    assert ConfigText(End) + r == r;
  }

  lemma AtTop(content: Content)
    ensures With(START, content) == State([], ServersAmong(content.blocks), [], content.start)
  {
    hide ServersAmong;
    assert [] + ServersAmong(content.blocks) == ServersAmong(content.blocks);
  }

  /** The parser reports the server blocks of what is written. */
  lemma WrittenIsRead(c: Config, s: string)
    requires Writes(c, s)
    ensures Servers(s) == Ok(ServersAmong(Meaning(c, 0, 0).blocks))
  {
    hide Run, Fit, Tokens, TokensText, Meaning, ServersAmong, With, Shaped;
    var content := Meaning(c, 0, 0);
    RunConfig(c, "", 0, START);
    assert s + "" == s;
    AtTop(content);
    RunNothing(|s|, With(START, content));
  }

  // ---- Whatever is read was written ----

  /** A mark stands here, or nothing. */
  ghost predicate AtMark(r: string) {
    r == "" || r[0] == '}' || r[0] == ';' || (r[0] == '{' && !RestOfMustache(r[1..]))
  }

  /** The next token of a text the parser reads to its end. */
  lemma NextToken(r: string, at: nat, st: State) returns (t: Token, rest: string)
    requires r != "" && Run(r, at, st).Ok?
    ensures WellFormed(t) && Ends(t, rest) && TokenText(t) != "" && r == TokenText(t) + rest
    ensures IsMark(t) ==> AtMark(r)
  {
    hide Run, TokenLength, TokenText, WellFormed, RestOfMustache, WordEnds;
    RunOnce(r, at, st);
    t := TokenWritten(r);
    rest := r[TokenLength(r).value..];
    assert r == r[..TokenLength(r).value] + rest;
    MarkText(t, rest);
  }

  lemma MarkText(t: Token, rest: string)
    requires WellFormed(t) && Ends(t, rest)
    ensures TokenText(t) != ""
    ensures IsMark(t) ==> AtMark(TokenText(t) + rest)
  {
    hide TokenLength, RestOfMustache, PartsText;
    TokenReads(t, rest);
    if t.Open? {
      assert ("{" + rest)[1..] == rest;
    }
  }

  lemma {:induction false} MoreWords(r: string, at: nat, st: State) returns (ts: seq<Token>, rest: string)
    requires st.words != [] && Run(r, at, st).Ok?
    ensures NoMark(ts) && r == TokensText(ts) + rest && Fit(ts, rest) && AtMark(rest)
    decreases |r|
  {
    hide Run, Step, TokenText, WellFormed, Ends, RestOfMustache, IsMark;
    ts, rest := [], r;
    if r != "" {
      var t, behind := NextToken(r, at, st);
      if !IsMark(t) {
        RunToken(t, behind, at, st);
        StepWord(t, at, st);
        WordedMore(t, [], at, st);
        var more;
        more, rest := MoreWords(behind, at + |TokenText(t)|, Worded(st, [t], at));
        ts := [t] + more;
        assert ts[1..] == more;
      }
    }
  }

  /** The words in front of a mark, or of the end. */
  lemma FirstWords(r: string, at: nat, st: State, t: Token, behind: string) returns (words: seq<Token>, rest: string)
    requires st.words == [] && Run(r, at, st).Ok?
    requires WellFormed(t) && Ends(t, behind) && r == TokenText(t) + behind && (IsMark(t) ==> AtMark(r))
    requires !t.Space? && !t.Comment? && !t.Mustache?
    ensures IsWords(words) && r == TokensText(words) + rest && Fit(words, rest) && AtMark(rest)
    ensures Run(rest, at + |TokensText(words)|, Named(st, words, at)) == Run(r, at, st)
  {
    hide Run, Step, TokenText, WellFormed, Ends, RestOfMustache, AtMark;
    if IsMark(t) {
      words, rest := [], r;
    } else {
      RunToken(t, behind, at, st);
      StepWord(t, at, st);
      WordedMore(t, [], at, st);
      var more;
      more, rest := MoreWords(behind, at + |TokenText(t)|, Worded(st, [t], at));
      words := [t] + more;
      assert words[1..] == more;
    }
    RunNamed(words, rest, at, st);
  }

  /** The parser comes to the end with no block open. */
  ghost predicate Closes(r: string, at: nat, st: State) {
    Run(r, at, st).Ok? && Run(r, at, st).value.stack == []
  }

  /** `r` is a configuration, words and a rest that is empty or closes a block. */
  ghost predicate Apart(r: string, c: Config, dropped: seq<Token>, rest: string) {
    && Shaped(c) && IsWords(dropped) && (rest == "" || rest[0] == '}')
    && r == ConfigText(c) + (TokensText(dropped) + rest)
    && Fit(Tokens(c), TokensText(dropped) + rest) && Fit(dropped, rest)
  }

  /** Where a configuration and words were read. */
  lemma RunApart(r: string, c: Config, dropped: seq<Token>, rest: string, at: nat, st: State)
    requires Apart(r, c, dropped, rest) && st.words == []
    ensures
      var last := at + |ConfigText(c)|;
      Run(r, at, st) == Run(rest, last + |TokensText(dropped)|, Named(With(st, Meaning(c, at, st.start)), dropped, last))
  {
    hide Run, Fit, Tokens, TokensText, IsWords, Shaped, Meaning, Named;
    RunConfig(c, TokensText(dropped) + rest, at, st);
    RunNamed(dropped, rest, at + |ConfigText(c)|, With(st, Meaning(c, at, st.start)));
  }

  /** A block that is open must be closed. */
  lemma MustClose(r: string, c: Config, dropped: seq<Token>, rest: string, at: nat, st: State)
    requires Apart(r, c, dropped, rest) && st.words == [] && st.stack != [] && Closes(r, at, st)
    ensures rest != "" && rest == "}" + rest[1..]
  {
    hide Fit, Tokens, TokensText, IsWords, Shaped, Meaning, Run;
    RunApart(r, c, dropped, rest, at, st);
    var last := at + |ConfigText(c)|;
    RunNothing(last + |TokensText(dropped)|, Named(With(st, Meaning(c, at, st.start)), dropped, last));
  }

  lemma ApartGap(t: Token, behind: string, c: Config, dropped: seq<Token>, rest: string)
    requires WellFormed(t) && Ends(t, behind) && (t.Space? || t.Comment? || t.Mustache?) && Apart(behind, c, dropped, rest)
    ensures Apart(TokenText(t) + behind, Gap(t, c), dropped, rest)
  {
    hide Fit, Tokens, TokensText, TokenText, IsWords, WellFormed, Ends;
    GapApart(t, c, TokensText(dropped) + rest);
  }

  lemma ApartStatement(words: seq<Token>, after: string, c: Config, dropped: seq<Token>, rest: string)
    requires IsWords(words) && Fit(words, ";" + after) && Apart(after, c, dropped, rest)
    ensures Apart(TokensText(words) + (";" + after), Statement(words, c), dropped, rest)
  {
    hide Fit, Tokens, TokensText, IsWords;
    StatementApart(words, c, TokensText(dropped) + rest);
  }

  lemma ApartBraces(words: seq<Token>, within: string, inner: Config, lost: seq<Token>, after: string,
                    c: Config, dropped: seq<Token>, rest: string)
    requires IsWords(words) && Fit(words, "{" + within) && !RestOfMustache(within)
    requires Apart(within, inner, lost, "}" + after) && Apart(after, c, dropped, rest)
    ensures Apart(TokensText(words) + ("{" + within), Braces(words, inner, lost, c), dropped, rest)
  {
    hide Fit, Tokens, TokensText, IsWords, RestOfMustache;
    BracesApart(words, inner, lost, c, TokensText(dropped) + rest);
  }

  /** The text is taken apart as the parser reads it, up to the brace that closes the block around it. */
  lemma {:induction false} TakeApart(r: string, at: nat, st: State) returns (c: Config, dropped: seq<Token>, rest: string)
    requires st.words == [] && Closes(r, at, st)
    ensures Apart(r, c, dropped, rest)
    decreases |r|, 1
  {
    hide Run, Step, Fit, Tokens, TokensText, TokenText, WellFormed, Ends, With, Meaning, IsWords, RestOfMustache, Apart;
    hide BehindBraces, AddDirective, Values, Begin;
    if r == "" {
      c, dropped, rest := End, [], "";
      NothingApart();
    } else {
      var t, behind := NextToken(r, at, st);
      if t.Space? || t.Comment? || t.Mustache? {
        RunToken(t, behind, at, st);
        StepGap(t, at, st);
        c, dropped, rest := TakeApart(behind, at + |TokenText(t)|, BehindGap(st, t, at));
        ApartGap(t, behind, c, dropped, rest);
        c := Gap(t, c);
      } else {
        var words, more := FirstWords(r, at, st, t, behind);
        c, dropped, rest := TakeStatement(r, at, st, words, more);
      }
    }
  }

  lemma NothingApart()
    ensures Apart("", End, [], "")
  {
  }

  lemma WordsApart(words: seq<Token>, rest: string)
    requires IsWords(words) && Fit(words, rest) && (rest == "" || rest[0] == '}')
    ensures Apart(TokensText(words) + rest, End, words, rest)
  {
    hide IsWords, Fit;
    assert Fit(Tokens(End), TokensText(words) + rest) by {
      NoTokens(TokensText(words) + rest);
    }
    assert ConfigText(End) + (TokensText(words) + rest) == TokensText(words) + rest;
  }

  lemma NoTokens(r: string)
    ensures Fit([], r)
  {
  }

  lemma TakeBlock(st: State, words: seq<Token>, at: nat, within: string, inner: Config, lost: seq<Token>, after: string)
    requires IsWords(words) && Fit(words, "{" + within) && !RestOfMustache(within) && st.words == []
    requires Apart(within, inner, lost, "}" + after)
    ensures Run(TokensText(words) + ("{" + within), at, st)
         == Run(after, EndOf(words, inner, lost, at), BehindBraces(st, words, inner, lost, at))
    ensures |after| < |within| && BehindBraces(st, words, inner, lost, at).words == []
  {
    hide Run, Fit, Tokens, TokensText, IsWords, RestOfMustache, ReadIs, BehindBraces, Opened;
    OpenedWords(st, words, at);
    RunConfig(inner, TokensText(lost) + ("}" + after), at + |TokensText(words)| + 1, Opened(st, words, at));
    ReadBlock(words, inner, lost, after, at, st);
    BracesWords(st, words, inner, lost, at);
  }

  lemma OpenedWords(st: State, words: seq<Token>, at: nat)
    ensures Opened(st, words, at).words == []
  {
  }

  lemma {:induction false} TakeStatement(r: string, at: nat, st: State, words: seq<Token>, more: string)
    returns (c: Config, dropped: seq<Token>, rest: string)
    requires st.words == [] && Closes(r, at, st)
    requires IsWords(words) && r == TokensText(words) + more && Fit(words, more) && AtMark(more)
    requires Run(more, at + |TokensText(words)|, Named(st, words, at)) == Run(r, at, st)
    ensures Apart(r, c, dropped, rest)
    decreases |more|, 0
  {
    hide Run, Step, Fit, Tokens, TokensText, With, Meaning, IsWords, RestOfMustache, Apart, Shaped;
    hide BehindBraces, AddDirective, Values, Begin;
    var end := at + |TokensText(words)|;
    if more == "" || more[0] == '}' {
      c, dropped, rest := End, words, more;
      WordsApart(words, more);
    } else if more[0] == ';' {
      var after := more[1..];
      assert more == ";" + after;
      RunSemi(after, end, Named(st, words, at));
      c, dropped, rest := TakeApart(after, end + 1, BehindStatement(st, words, at));
      ApartStatement(words, after, c, dropped, rest);
      c := Statement(words, c);
    } else {
      var within := more[1..];
      assert more == "{" + within;
      RunOpen(within, end, Named(st, words, at));
      var inner, lost, closing := TakeApart(within, end + 1, Opened(st, words, at));
      MustClose(within, inner, lost, closing, end + 1, Opened(st, words, at));
      var after := closing[1..];
      TakeBlock(st, words, at, within, inner, lost, after);
      c, dropped, rest := TakeApart(after, EndOf(words, inner, lost, at), BehindBraces(st, words, inner, lost, at));
      ApartBraces(words, within, inner, lost, after, c, dropped, rest);
      c := Braces(words, inner, lost, c);
    }
  }

  lemma NoText(s: string)
    ensures TokensText([]) + "" == "" && s + "" == s
  {
  }

  /** Every text the parser accepts is a configuration as it is written. */
  lemma ReadIsWritten(s: string) returns (c: Config)
    requires Servers(s).Ok?
    ensures Writes(c, s)
  {
    hide Run, Fit, Tokens, TokensText, Meaning, With, Shaped;
    var dropped, rest;
    c, dropped, rest := TakeApart(s, 0, START);
    RunApart(s, c, dropped, rest, 0, START);
    var content := Meaning(c, 0, 0);
    AtTop(content);
    var last := |ConfigText(c)|;
    var st := Named(With(START, content), dropped, last);
    if rest != "" {
      assert rest == "}" + rest[1..];
      RunClose(rest[1..], last + |TokensText(dropped)|, st);
    } else {
      RunNothing(last + |TokensText(dropped)|, st);
      NamedNothing(dropped);
      NoText(ConfigText(c));
    }
  }

  lemma NamedNothing(words: seq<Token>)
    requires IsWords(words) && Values(words) == []
    ensures words == []
  {
  }

  /** What the parser reports: it accepts exactly the configurations as they are written, and of each it reports the
    * server blocks, with their words, directives, nesting and offsets. */
  lemma ServersExactly(s: string, bs: seq<Block>)
    ensures Servers(s) == Ok(bs) <==> exists c :: Writes(c, s) && bs == ServersAmong(Meaning(c, 0, 0).blocks)
  {
    hide Servers, Writes, Meaning, ServersAmong;
    if Servers(s) == Ok(bs) {
      var c := ReadIsWritten(s);
      WrittenIsRead(c, s);
    }
    forall c | Writes(c, s)
      ensures Servers(s) == Ok(ServersAmong(Meaning(c, 0, 0).blocks))
    {
      WrittenIsRead(c, s);
    }
  }

  /** A brace that closes nothing. */
  lemma StrayBrace(c: Config, dropped: seq<Token>, r: string, s: string)
    requires Apart(s, c, dropped, "}" + r)
    ensures Servers(s) == Err(Unbalanced)
  {
    hide Run, Fit, Tokens, TokensText, Meaning, With, Shaped, IsWords, Values;
    RunApart(s, c, dropped, "}" + r, 0, START);
    AtTop(Meaning(c, 0, 0));
    var last := |ConfigText(c)|;
    RunClose(r, last + |TokensText(dropped)|, Named(With(START, Meaning(c, 0, 0)), dropped, last));
  }

  /** Words without an end. */
  lemma Unfinished(c: Config, words: seq<Token>, s: string)
    requires Apart(s, c, words, "") && words != []
    ensures Servers(s) == Err(Incomplete)
  {
    hide Run, Fit, Tokens, TokensText, Meaning, With, Shaped;
    RunApart(s, c, words, "", 0, START);
    AtTop(Meaning(c, 0, 0));
    var last := |ConfigText(c)|;
    RunNothing(last + |TokensText(words)|, Named(With(START, Meaning(c, 0, 0)), words, last));
    if Values(words) == [] {
      NamedNothing(words);
    }
  }

  /** A block without an end. */
  lemma Unclosed(c: Config, words: seq<Token>, within: string, inner: Config, dropped: seq<Token>, s: string)
    requires Shaped(c) && IsWords(words) && s == ConfigText(c) + (TokensText(words) + ("{" + within))
    requires Fit(Tokens(c), TokensText(words) + ("{" + within)) && Fit(words, "{" + within) && !RestOfMustache(within)
    requires Apart(within, inner, dropped, "")
    ensures Servers(s) == Err(Incomplete)
  {
    hide Run, Fit, Tokens, TokensText, Meaning, With, Shaped, IsWords, RestOfMustache, Values;
    RunConfig(c, TokensText(words) + ("{" + within), 0, START);
    var st := With(START, Meaning(c, 0, 0));
    AtTop(Meaning(c, 0, 0));
    var at := |ConfigText(c)|;
    RunNamed(words, "{" + within, at, st);
    var open := at + |TokensText(words)| + 1;
    RunOpen(within, open - 1, Named(st, words, at));
    RunApart(within, inner, dropped, "", open, Opened(st, words, at));
    var content := Meaning(inner, open, Opened(st, words, at).start);
    Filled(st, words, at, content);
    var last := open + |ConfigText(inner)|;
    RunNothing(last + |TokensText(dropped)|, Named(With(Opened(st, words, at), content), dropped, last));
  }
}
