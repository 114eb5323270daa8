/** The /addons/ proxy location in CloudPanel's own vhost: masking, server blocks, stripping and rendering (cli/inject.ts). */
module NginxProxy {
  import opened Outcomes
  import opened Text

  const START := "# clp-addons:proxy:start"
  const FINISH := "# clp-addons:proxy:end"
  const INDENT := "    "
  const LOCATION := "    location ^~ /addons/ "
  const PAD := "        "
  const LINE1 := PAD + "proxy_pass http://unix:/run/" + "clp-addons/manager.sock:/;"
  const LINE2 := PAD + "proxy_http_version " + "1.1;"
  const LINE3 := PAD + "proxy_set_header " + "Host $http_host;"
  const LINE4 := PAD + "proxy_set_header " + "X-Real-IP $remote_addr;"
  const LINE5 := PAD + "proxy_set_header X-Forwarded-For " + "$proxy_add_x_forwarded_for;"
  const LINE6 := PAD + "proxy_set_header " + "X-Forwarded-Proto $scheme;"
  const LINE7 := PAD + "proxy_set_header " + "X-Forwarded-Host $http_host;"
  const LINE8 := PAD + "proxy_buffering " + "off;"
  const LINE9 := PAD + "proxy_read_timeout " + "3600s;"

  function Lines(lines: seq<string>): string {
    if lines == [] then "" else lines[0] + "\n" + Lines(lines[1..])
  }

  const DIRECTIVES := Lines([LINE1, LINE2, LINE3, LINE4, LINE5, LINE6, LINE7, LINE8, LINE9])

  /** What is between the two markers. */
  const MIDDLE := "\n" + LOCATION + "{" + "\n" + DIRECTIVES + INDENT + "}" + "\n" + INDENT

  const BLOCK := INDENT + START + MIDDLE + FINISH

  // ---- Comments and strings, blanked ----

  function Spaces(n: nat): (s: string)
    ensures |s| == n
    ensures forall i :: 0 <= i < n ==> s[i] == ' '
  {
    if n == 0 then "" else " " + Spaces(n - 1)
  }

  /** How far it is to the end of the line. */
  function LineLength(s: string): (n: nat)
    ensures n <= |s|
  {
    if s == "" || s[0] == LF then 0 else 1 + LineLength(s[1..])
  }

  /** The characters and escaped characters of a string, up to its quote, the end of its line or a backslash that escapes nothing. */
  function QuoteBody(s: string, quote: char): (n: nat)
    ensures n <= |s|
  {
    if s == "" || s[0] == quote || s[0] == LF then 0
    else if s[0] == '\\' then
      if |s| > 1 && !IsLineTerminator(s[1]) then 2 + QuoteBody(s[2..], quote) else 0
    else 1 + QuoteBody(s[1..], quote)
  }

  /** The length of the comment or string the text begins with; none is of length 0. */
  function Noise(s: string): (n: nat)
    ensures n <= |s|
  {
    if s == "" then 0
    else if s[0] == '#' then 1 + LineLength(s[1..])
    else if s[0] == '"' || s[0] == '\'' then
      var n := 1 + QuoteBody(s[1..], s[0]);
      if n < |s| && (s[n] == s[0] || s[n] == '\\') then n + 1 else n
    else 0
  }

  function Mask(s: string): (m: string)
    ensures |m| == |s|
    decreases |s|
  {
    if s == "" then ""
    else
      var n := Noise(s);
      if n == 0 then [s[0]] + Mask(s[1..]) else Spaces(n) + Mask(s[n..])
  }

  // ---- Server blocks ----

  predicate IsWordChar(c: char) {
    'a' <= c <= 'z' || 'A' <= c <= 'Z' || '0' <= c <= '9' || c == '_'
  }

  function SpaceRun(s: string): (n: nat)
    ensures n <= |s|
    ensures forall i :: 0 <= i < n ==> IsSpace(s[i])
    ensures n < |s| ==> !IsSpace(s[n])
  {
    if s != "" && IsSpace(s[0]) then 1 + SpaceRun(s[1..]) else 0
  }

  /** The length of `server`, spaces and an opening brace, if that is what the text begins with. */
  function Head(s: string): (r: Option<nat>)
    ensures r.Some? ==> 0 < r.value <= |s|
  {
    if !StartsWith(s, "server") then None
    else
      var n := 6 + SpaceRun(s[6..]);
      if n < |s| && s[n] == '{' then Some(n + 1) else None
  }

  /** Where the brace is that closes what is `depth` braces deep. */
  function Closing(s: string, depth: int): (r: Option<nat>)
    ensures r.Some? ==> r.value < |s| && s[r.value] == '}'
  {
    if s == "" then None
    else if s[0] == '}' && depth == 1 then Some(0)
    else
      var next := if s[0] == '{' then depth + 1 else if s[0] == '}' then depth - 1 else depth;
      match Closing(s[1..], next)
      case Some(k) => Some(k + 1)
      case None => None
  }

  /** Where a block's `server` is, and the brace that closes it. */
  datatype Block = Block(start: nat, end: nat)

  /** The blocks of a masked text that begins at `at`, after a word character or not. */
  function Scan(s: string, afterWord: bool, at: nat): seq<Block>
    decreases |s|
  {
    if s == "" then []
    else if !afterWord && Head(s).Some? then
      var n := Head(s).value;
      match Closing(s[n - 1..], 0)
      case Some(k) => [Block(at, at + n - 1 + k)] + Scan(s[n + k..], false, at + n + k)
      case None => Scan(s[n..], false, at + n)
    else Scan(s[1..], IsWordChar(s[0]), at + 1)
  }

  /** The blocks lie in the text, each up to a closing brace. */
  ghost predicate AllIn(s: string, at: nat, blocks: seq<Block>) {
    forall i :: 0 <= i < |blocks| ==>
      at <= blocks[i].start < blocks[i].end < at + |s| && s[blocks[i].end - at] == '}'
  }

  function ServerBlocks(content: string): seq<Block> {
    Scan(Mask(content), false, 0)
  }

  // ---- The proxy block ----

  function BlankRun(s: string): (n: nat)
    ensures n <= |s|
    ensures forall i :: 0 <= i < n ==> IsBlank(s[i])
    ensures n < |s| ==> !IsBlank(s[n])
  {
    if s != "" && IsBlank(s[0]) then 1 + BlankRun(s[1..]) else 0
  }

  /** A line end, any part of which may be missing. */
  function LineEnd(s: string): (n: nat)
    ensures n <= |s|
  {
    var n := if s != "" && s[0] == CR then 1 else 0;
    if n < |s| && s[n] == LF then n + 1 else n
  }

  /** The length of the marked block the text begins with, with the line end and blanks before it and the line end after it. */
  function MarkedAt(s: string): (r: Option<nat>)
    ensures r.Some? ==> 0 < r.value <= |s|
  {
    hide START, FINISH;
    var from := LineEnd(s) + BlankRun(s[LineEnd(s)..]);
    if !StartsWith(s[from..], START) then None
    else
      match IndexOf(s[from + |START|..], FINISH)
      case None => None
      case Some(i) =>
        var to := from + |START| + i + |FINISH|;
        FinishIsNotEmpty();
        Some(to + LineEnd(s[to..]))
  }

  lemma FinishIsNotEmpty()
    ensures |FINISH| > 0
  {
  }

  function Stripped(s: string): (r: string)
    ensures |r| <= |s|
    decreases |s|
  {
    if s == "" then ""
    else
      match MarkedAt(s)
      case Some(n) => Stripped(s[n..])
      case None => [s[0]] + Stripped(s[1..])
  }

  predicate WordAt(s: string, word: string, i: nat) {
    OccursAt(s, word, i) && (i == 0 || !IsWordChar(s[i - 1]))
  }

  /** The text has a location for /addons/ of its own. */
  predicate Conflicts(s: string) {
    exists i :: 0 <= i < |s| && WordAt(s, "location", i) && AddonsAfter(s[i + 8..])
  }

  predicate AddonsAfter(s: string) {
    var n := SpaceRun(s);
    n > 0 &&
    (StartsWith(s[n..], "/addons/")
     || (StartsWith(s[n..], "=") && StartsWith(s[n + 1..][SpaceRun(s[n + 1..])..], "/addons/")))
  }

  /** The block listens on port 8443. */
  predicate Listens(body: string) {
    exists i :: 0 <= i < |body| && WordAt(body, "listen", i) && PortAfter(body, i + 6)
  }

  predicate PortAfter(body: string, from: nat) {
    exists j :: 0 <= j < |body| && PortAt(body, from, j)
  }

  predicate PortAt(body: string, from: nat, j: nat) {
    && from < j && OccursAt(body, "8443", j) && IsSpace(body[from]) && !IsWordChar(body[j - 1])
    && (j + 4 < |body| ==> !IsWordChar(body[j + 4]))
    && (forall k :: from < k < j ==> body[k] != ';')
  }

  function Listening(masked: string, blocks: seq<Block>): seq<Block>
    requires AllIn(masked, 0, blocks)
    ensures AllIn(masked, 0, Listening(masked, blocks))
  {
    if blocks == [] then []
    else
      var b := blocks[|blocks| - 1];
      Listening(masked, blocks[..|blocks| - 1]) + (if Listens(masked[b.start..b.end + 1]) then [b] else [])
  }

  datatype Refusal = Conflict | Ambiguous

  function Rendered(content: string, enabled: bool): Result<string, Refusal> {
    var upstream := Stripped(content);
    if !enabled then Ok(upstream)
    else if Conflicts(upstream) then Err(Conflict)
    else
      var searched := Stripped(upstream);
      ScanBounds(Mask(searched), false, 0);
      var blocks := Listening(Mask(searched), ServerBlocks(searched));
      if |blocks| != 1 then Err(Ambiguous)
      else Ok(upstream[..blocks[0].end] + "\n" + BLOCK + "\n" + upstream[blocks[0].end..])
  }

  lemma {:induction false} ScanBounds(s: string, afterWord: bool, at: nat)
    ensures AllIn(s, at, Scan(s, afterWord, at))
    decreases |s|
  {
    hide Head, Closing, AllIn, Scan, IsWordChar;
    if s == "" {
      NoScan(afterWord, at);
      NoneIn(s, at);
    } else {
      ScanStep(s, afterWord, at);
      if !afterWord && Head(s).Some? {
        var n := Head(s).value;
        HeadLong(s);
        match Closing(s[n - 1..], 0)
        case Some(k) =>
          OpenIsNotClosing(s, n, k);
          ScanBounds(s[n + k..], false, at + n + k);
          AllInSuffix(s, n + k, at, Scan(s[n + k..], false, at + n + k));
          AllInCons(s, at, Block(at, at + n - 1 + k), Scan(s[n + k..], false, at + n + k));
        case None =>
          ScanBounds(s[n..], false, at + n);
          AllInSuffix(s, n, at, Scan(s[n..], false, at + n));
      } else {
        ScanBounds(s[1..], IsWordChar(s[0]), at + 1);
        AllInSuffix(s, 1, at, Scan(s[1..], IsWordChar(s[0]), at + 1));
      }
    }
  }

  lemma NoneIn(s: string, at: nat)
    ensures AllIn(s, at, [])
  {
  }

  lemma AllInCons(s: string, at: nat, b: Block, blocks: seq<Block>)
    requires AllIn(s, at, blocks) && at <= b.start < b.end < at + |s| && s[b.end - at] == '}'
    ensures AllIn(s, at, [b] + blocks)
  {
  }

  lemma AllInSuffix(s: string, i: nat, at: nat, blocks: seq<Block>)
    requires i <= |s| && AllIn(s[i..], at + i, blocks)
    ensures AllIn(s, at, blocks)
  {
    forall k | 0 <= k < |blocks|
      ensures at <= blocks[k].start < blocks[k].end < at + |s| && s[blocks[k].end - at] == '}'
    {
      assert s[i..][blocks[k].end - (at + i)] == s[blocks[k].end - at];
    }
  }

  lemma HeadLong(s: string)
    requires Head(s).Some?
    ensures Head(s).value > 6 && s[Head(s).value - 1] == '{'
  {
  }

  lemma OpenIsNotClosing(s: string, n: nat, k: nat)
    requires 0 < n <= |s| && s[n - 1] == '{' && Closing(s[n - 1..], 0) == Some(k)
    ensures k > 0 && n - 1 + k < |s| && s[n - 1 + k] == '}'
  {
    hide Closing;
    assert s[n - 1..][k] == s[n - 1 + k];
  }

  // ---- The loops as they run ----

  /** One step of the scan. */
  lemma ScanStep(s: string, afterWord: bool, at: nat)
    requires s != ""
    ensures !(!afterWord && Head(s).Some?) ==> Scan(s, afterWord, at) == Scan(s[1..], IsWordChar(s[0]), at + 1)
    ensures !afterWord && Head(s).Some? ==>
      var n := Head(s).value;
      Scan(s, afterWord, at) == (
        match Closing(s[n - 1..], 0)
        case Some(k) => [Block(at, at + n - 1 + k)] + Scan(s[n + k..], false, at + n + k)
        case None => Scan(s[n..], false, at + n))
  {
    hide Head, Closing;
  }

  /** Where the search stands: what is sought, `i` on. */
  function ClosingFrom(masked: string, i: nat, depth: int): Option<nat>
    requires i <= |masked|
  {
    match Closing(masked[i..], depth)
    case Some(k) => Some(i + k)
    case None => None
  }

  lemma ClosingStep(masked: string, i: nat, depth: int)
    requires i < |masked|
    ensures ClosingFrom(masked, i, depth) ==
      if masked[i] == '}' && depth == 1 then Some(i)
      else ClosingFrom(masked, i + 1, if masked[i] == '{' then depth + 1 else if masked[i] == '}' then depth - 1 else depth)
  {
    assert masked[i..][0] == masked[i] && masked[i..][1..] == masked[i + 1..];
  }

  method MatchingBrace(masked: string, open: nat) returns (r: Option<nat>)
    requires open <= |masked|
    ensures r == match Closing(masked[open..], 0) case Some(k) => Some(open + k) case None => None
  {
    hide Closing, ClosingFrom;
    var depth := 0;
    for i := open to |masked|
      invariant ClosingFrom(masked, open, 0) == ClosingFrom(masked, i, depth)
    {
      ClosingStep(masked, i, depth);
      if masked[i] == '{' {
        depth := depth + 1;
      } else if masked[i] == '}' {
        depth := depth - 1;
        if depth == 0 {
          ClosingFromIs(masked, open);
          return Some(i);
        }
      }
    }
    ClosingFromIs(masked, open);
    NoClosing(masked, depth);
    r := None;
  }

  lemma ClosingFromIs(masked: string, open: nat)
    requires open <= |masked|
    ensures ClosingFrom(masked, open, 0) == match Closing(masked[open..], 0) case Some(k) => Some(open + k) case None => None
  {
  }

  lemma NoClosing(masked: string, depth: int)
    ensures ClosingFrom(masked, |masked|, depth) == None
  {
    assert masked[|masked|..] == "";
  }

  /** The blocks from `i` on. */
  function BlocksFrom(masked: string, i: nat): seq<Block>
    requires i <= |masked|
  {
    Scan(masked[i..], i > 0 && IsWordChar(masked[i - 1]), i)
  }

  lemma BlocksStep(masked: string, i: nat)
    requires i < |masked|
    ensures
      var head := Head(masked[i..]);
      if (i > 0 && IsWordChar(masked[i - 1])) || head.None? then BlocksFrom(masked, i) == BlocksFrom(masked, i + 1)
      else
        var open := i + head.value - 1;
        && open < |masked|
        && match Closing(masked[open..], 0)
           case None => BlocksFrom(masked, i) == BlocksFrom(masked, open + 1)
           case Some(k) =>
             open + k < |masked| && BlocksFrom(masked, i) == [Block(i, open + k)] + BlocksFrom(masked, open + k + 1)
  {
    hide Scan, Closing, Head, IsWordChar;
    var s := masked[i..];
    ScanStep(s, i > 0 && IsWordChar(masked[i - 1]), i);
    BracesAreNoWords();
    assert s[1..] == masked[i + 1..];
    if Head(s).Some? {
      var n := Head(s).value;
      HeadLong(s);
      assert s[n - 1..] == masked[i + n - 1..] && s[n..] == masked[i + n..];
      match Closing(s[n - 1..], 0)
      case None =>
      case Some(k) =>
        OpenIsNotClosing(s, n, k);
        assert s[n + k..] == masked[i + n + k..];
    }
  }

  method FindServerBlocks(content: string) returns (blocks: seq<Block>)
    ensures blocks == ServerBlocks(content)
  {
    hide Closing, Head, IsWordChar, Mask, BlocksFrom, Scan;
    var masked := Mask(content);
    blocks := [];
    var i := 0;
    BlocksAtEnds(masked);
    while i < |masked|
      invariant i <= |masked|
      invariant blocks + BlocksFrom(masked, i) == Scan(masked, false, 0)
    {
      BlocksStep(masked, i);
      var head := Head(masked[i..]);
      if (i > 0 && IsWordChar(masked[i - 1])) || head.None? {
        i := i + 1;
      } else {
        var open := i + head.value - 1;
        var end := MatchingBrace(masked, open);
        if end.None? {
          i := open + 1;
        } else {
          blocks := blocks + [Block(i, end.value)];
          i := end.value + 1;
        }
      }
    }
  }

  lemma BlocksAtEnds(masked: string)
    ensures BlocksFrom(masked, 0) == Scan(masked, false, 0) && BlocksFrom(masked, |masked|) == []
  {
    assert masked[0..] == masked && masked[|masked|..] == "";
  }

  lemma NoScan(afterWord: bool, at: nat)
    ensures Scan("", afterWord, at) == []
  {
  }

  lemma BracesAreNoWords()
    ensures !IsWordChar('{') && !IsWordChar('}')
  {
  }
}
