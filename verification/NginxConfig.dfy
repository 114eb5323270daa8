/** The Nginx vhost parser of cli/nginx-config.ts: one sticky regular expression and a stack of open blocks. */
module NginxConfig {
  import opened Outcomes
  import opened Text

  datatype Directive = Directive(words: seq<string>, start: nat, end: nat)

  datatype Block = Block(words: seq<string>, open: nat, end: nat, directives: seq<Directive>, children: seq<Block>)

  /** A block whose closing brace has not been read yet. */
  datatype Frame = Frame(words: seq<string>, open: nat, directives: seq<Directive>, children: seq<Block>)

  datatype State = State(stack: seq<Frame>, result: seq<Block>, words: seq<string>, start: nat)

  datatype ParseError = CouldNotParse | Unbalanced | Incomplete

  // ---- The token expression, one scanner for each alternative ----

  function SpaceRun(r: string): (n: nat)
    ensures n <= |r|
  {
    if r != [] && IsSpace(r[0]) then 1 + SpaceRun(r[1..]) else 0
  }

  function LineRun(r: string): (n: nat)
    ensures n <= |r|
  {
    if r != [] && r[0] != LF then 1 + LineRun(r[1..]) else 0
  }

  /** How many characters precede the first closing brace, or all of them. */
  function BraceRun(r: string): (n: nat)
    ensures n <= |r|
    ensures n < |r| ==> r[n] == '}'
  {
    if r != [] && r[0] != '}' then 1 + BraceRun(r[1..]) else 0
  }

  /** The rest of a quoted string whose opening quote has been read. */
  function QuotedLength(r: string, quote: char): (n: Option<nat>)
    ensures n.Some? ==> 0 < n.value <= |r|
  {
    if r == [] then None
    else if r[0] == quote then Some(1)
    else if r[0] == '\\' then
      if |r| >= 2 && !IsLineTerminator(r[1]) then
        match QuotedLength(r[2..], quote)
        case None => None
        case Some(n) => Some(2 + n)
      else None
    else
      match QuotedLength(r[1..], quote)
      case None => None
      case Some(n) => Some(1 + n)
  }

  /** `{{…}}`: no closing brace in between. */
  function MustacheLength(r: string): (n: Option<nat>)
    ensures n.Some? ==> 4 <= n.value <= |r|
  {
    if !StartsWith(r, "{{") then None
    else
      var k := 2 + BraceRun(r[2..]);
      if k + 1 < |r| && r[k + 1] == '}' then Some(k + 2) else None
  }

  /** `${…}`, with at least one character inside. */
  function VariableLength(r: string): (n: Option<nat>)
    ensures n.Some? ==> 4 <= n.value <= |r|
  {
    if !StartsWith(r, "${") then None
    else
      var k := BraceRun(r[2..]);
      if 0 < k && 2 + k < |r| then Some(3 + k) else None
  }

  predicate IsPlain(c: char) {
    !IsSpace(c) && c !in "{};#\"'\\"
  }

  function WordRun(r: string): (n: nat)
    ensures n <= |r|
  {
    if r == [] then 0
    else match VariableLength(r)
      case Some(n) => n + WordRun(r[n..])
      case None =>
        if r[0] == '\\' then
          if |r| >= 2 && !IsLineTerminator(r[1]) then 2 + WordRun(r[2..]) else 0
        else if IsPlain(r[0]) then 1 + WordRun(r[1..])
        else 0
  }

  /** The length of the token at the head of `r`, trying the alternatives in order. */
  function TokenLength(r: string): (n: Option<nat>)
    requires r != []
    ensures n.Some? ==> 0 < n.value <= |r|
  {
    if IsSpace(r[0]) then Some(SpaceRun(r))
    else if r[0] == '#' then Some(LineRun(r))
    else if MustacheLength(r).Some? then MustacheLength(r)
    else if r[0] == '"' || r[0] == '\'' then
      match QuotedLength(r[1..], r[0])
      case None => None
      case Some(n) => Some(1 + n)
    else if WordRun(r) > 0 then Some(WordRun(r))
    else if r[0] in "{};" then Some(1)
    else None
  }

  // ---- The parser ----

  function Joined(words: seq<string>): string {
    if words == [] then "" else if |words| == 1 then words[0] else words[0] + " " + Joined(words[1..])
  }

  /** A word as it is kept: a quoted one without its quotes. */
  function Unquoted(value: string): string {
    if |value| >= 2 && (value[0] == '"' || value[0] == '\'') && value[|value| - 1] == value[0]
    then value[1..|value| - 1]
    else value
  }

  function AddDirective(stack: seq<Frame>, d: Directive): seq<Frame> {
    if stack == [] then stack
    else
      var top := stack[|stack| - 1];
      stack[..|stack| - 1] + [top.(directives := top.directives + [d])]
  }

  function AddChild(stack: seq<Frame>, b: Block): seq<Frame> {
    if stack == [] then stack
    else
      var top := stack[|stack| - 1];
      stack[..|stack| - 1] + [top.(children := top.children + [b])]
  }

  function Closed(f: Frame, end: nat): Block {
    Block(f.words, f.open, end, f.directives, f.children)
  }

  predicate IsServer(words: seq<string>) {
    Joined(words) == "server"
  }

  /** One token `value` that starts at offset `at`. */
  function Step(st: State, value: string, at: nat): Result<State, ParseError>
    requires value != []
  {
    var after := at + |value|;
    if IsSpace(value[0]) || value[0] == '#' then Ok(st)
    else if StartsWith(value, "{{") && st.words == [] then
      if value == "{{server_name}}"
      then Ok(st.(stack := AddDirective(st.stack, Directive(["server_name", value], at, after))))
      else Ok(st)
    else if value == "{" then
      Ok(st.(stack := st.stack + [Frame(st.words, at + 1, [], [])], words := []))
    else if value == "}" then
      if st.stack == [] then Err(Unbalanced)
      else
        var below := st.stack[..|st.stack| - 1];
        var block := Closed(st.stack[|st.stack| - 1], after);
        Ok(State(
          AddChild(below, block),
          if below == [] && IsServer(block.words) then st.result + [block] else st.result,
          [],
          st.start))
    else if value == ";" then
      Ok(st.(stack := AddDirective(st.stack, Directive(st.words, st.start, after)), words := []))
    else
      Ok(st.(words := st.words + [Unquoted(value)], start := if st.words == [] then at else st.start))
  }

  /** The parser over the rest `r` of the text, which starts at offset `at`. */
  function Run(r: string, at: nat, st: State): Result<State, ParseError>
    decreases |r|
  {
    if r == [] then Ok(st)
    else match TokenLength(r)
      case None => Err(CouldNotParse)
      case Some(n) =>
        match Step(st, r[..n], at)
        case Err(e) => Err(e)
        case Ok(next) => Run(r[n..], at + n, next)
  }

  const START: State := State([], [], [], 0)

  function Finish(st: State): Result<seq<Block>, ParseError> {
    if st.stack != [] || st.words != [] then Err(Incomplete) else Ok(st.result)
  }

  function Servers(content: string): Result<seq<Block>, ParseError> {
    match Run(content, 0, START)
    case Err(e) => Err(e)
    case Ok(st) => Finish(st)
  }

  lemma RunOnce(r: string, at: nat, st: State)
    requires r != []
    ensures Run(r, at, st) ==
      match TokenLength(r)
      case None => Err(CouldNotParse)
      case Some(n) =>
        match Step(st, r[..n], at)
        case Err(e) => Err(e)
        case Ok(next) => Run(r[n..], at + n, next)
  {
    hide Step, TokenLength;
  }

  /** The loop of the program: one token at a time, updating the open blocks in place. */
  method NginxServers(content: string) returns (r: Result<seq<Block>, ParseError>)
    ensures r == Servers(content)
  {
    hide Run, TokenLength, AddDirective, AddChild, Joined;
    var stack: seq<Frame>, result: seq<Block>, words: seq<string>, start: nat := [], [], [], 0;
    var lastIndex := 0;
    assert content[0..] == content;
    while lastIndex < |content|
      invariant lastIndex <= |content|
      invariant Run(content, 0, START) == Run(content[lastIndex..], lastIndex, State(stack, result, words, start))
    {
      ghost var before := State(stack, result, words, start);
      var rest := content[lastIndex..];
      RunOnce(rest, lastIndex, before);
      var length := TokenLength(rest);
      if length.None? {
        assert Run(content, 0, START) == Err(CouldNotParse);
        return Err(CouldNotParse);
      }
      var value := rest[..length.value];
      var index := lastIndex;
      lastIndex := lastIndex + length.value;
      assert content[lastIndex..] == rest[length.value..];
      if IsSpace(value[0]) || value[0] == '#' {
        continue;
      }
      if StartsWith(value, "{{") && words == [] {
        if value == "{{server_name}}" {
          stack := AddDirective(stack, Directive(["server_name", value], index, lastIndex));
        }
        assert Step(before, value, index) == Ok(State(stack, result, words, start));
        continue;
      }
      if value == "{" {
        stack := stack + [Frame(words, index + 1, [], [])];
        words := [];
      } else if value == "}" {
        if stack == [] {
          assert Step(before, value, index) == Err(Unbalanced);
          return Err(Unbalanced);
        }
        var block := Closed(stack[|stack| - 1], lastIndex);
        stack := stack[..|stack| - 1];
        if stack == [] && IsServer(block.words) {
          result := result + [block];
        }
        stack := AddChild(stack, block);
        words := [];
      } else if value == ";" {
        stack := AddDirective(stack, Directive(words, start, lastIndex));
        words := [];
      } else {
        if words == [] {
          start := index;
        }
        words := words + [Unquoted(value)];
      }
      assert Step(before, value, index) == Ok(State(stack, result, words, start));
    }
    RunNothing(|content|, State(stack, result, words, start));
    assert content[lastIndex..] == [];
    assert Run(content, 0, START) == Ok(State(stack, result, words, start));
    if stack != [] || words != [] {
      return Err(Incomplete);
    }
    return Ok(result);
  }

  lemma RunNothing(at: nat, st: State)
    ensures Run([], at, st) == Ok(st)
  {
  }
}
