/** The proxy block comes out as it went in, and the server blocks around it are the same with it or without it. */
module NginxProxyProofs {
  import opened Outcomes
  import opened Text
  import opened NginxProxy

  // ---- Masking, line by line ----

  lemma {:induction false} LineLengthStops(x: string, b: string)
    ensures LineLength(x + "\n" + b) == LineLength(x)
  {
    var s := x + "\n" + b;
    if x != "" && x[0] != LF {
      assert s[1..] == x[1..] + "\n" + b;
      LineLengthStops(x[1..], b);
    }
  }

  lemma {:induction false} QuoteBodyStops(x: string, b: string, quote: char)
    requires quote != LF
    ensures QuoteBody(x + "\n" + b, quote) == QuoteBody(x, quote)
  {
    var s := x + "\n" + b;
    if x != "" && x[0] != quote && x[0] != LF {
      if x[0] == '\\' {
        if |x| > 1 {
          assert s[1] == x[1] && s[2..] == x[2..] + "\n" + b;
          QuoteBodyStops(x[2..], b, quote);
        }
      } else {
        assert s[1..] == x[1..] + "\n" + b;
        QuoteBodyStops(x[1..], b, quote);
      }
    }
  }

  /** A comment or a string never goes past the end of its line. */
  lemma NoiseStops(x: string, b: string)
    requires x != ""
    ensures Noise(x + "\n" + b) == Noise(x)
  {
    hide QuoteBody, LineLength;
    var s := x + "\n" + b;
    assert s[1..] == x[1..] + "\n" + b && s[0] == x[0];
    if x[0] == '#' {
      LineLengthStops(x[1..], b);
    } else if x[0] == '"' || x[0] == '\'' {
      QuoteBodyStops(x[1..], b, x[0]);
      assert forall i :: 0 <= i < |x| ==> s[i] == x[i];
      assert s[|x|] == LF;
    }
  }

  /** Masking goes line by line. */
  lemma {:induction false} MaskLine(a: string, b: string)
    ensures Mask(a + "\n" + b) == Mask(a) + "\n" + Mask(b)
    decreases |a|
  {
    hide Noise;
    var s := a + "\n" + b;
    if a == "" {
      assert s[1..] == b;
      NewlineIsNoNoise(s);
      assert Mask(s) == [s[0]] + Mask(b);
    } else {
      NoiseStops(a, b);
      var n := Noise(a);
      if n == 0 {
        assert s[1..] == a[1..] + "\n" + b;
        MaskLine(a[1..], b);
      } else {
        assert s[n..] == a[n..] + "\n" + b;
        MaskLine(a[n..], b);
      }
    }
  }

  lemma NewlineIsNoNoise(s: string)
    requires s != "" && s[0] == LF
    ensures Noise(s) == 0
  {
  }

  // ---- Masking, cut at a brace that counts ----

  lemma {:induction false} QuoteBodyCut(s: string, p: nat, quote: char)
    requires p <= |s| && QuoteBody(s, quote) < p
    ensures QuoteBody(s[..p], quote) == QuoteBody(s, quote)
  {
    if s != "" && s[0] != quote && s[0] != LF {
      if s[0] == '\\' {
        if |s| > 1 && !IsLineTerminator(s[1]) {
          assert s[..p][2..] == s[2..][..p - 2];
          QuoteBodyCut(s[2..], p - 2, quote);
        }
      } else {
        assert s[..p][1..] == s[1..][..p - 1];
        QuoteBodyCut(s[1..], p - 1, quote);
      }
    }
  }

  lemma {:induction false} LineLengthCut(s: string, p: nat)
    requires p <= |s| && LineLength(s) < p
    ensures LineLength(s[..p]) == LineLength(s)
  {
    if s != "" && s[0] != LF {
      assert s[..p][1..] == s[1..][..p - 1];
      LineLengthCut(s[1..], p - 1);
    }
  }

  lemma {:induction false} LineLengthEnds(s: string)
    requires LineLength(s) < |s|
    ensures s[LineLength(s)] == LF
  {
    if s[0] != LF {
      LineLengthEnds(s[1..]);
    }
  }

  lemma {:induction false} QuoteBodyEnds(s: string, quote: char)
    requires QuoteBody(s, quote) < |s|
    ensures
      var c := s[QuoteBody(s, quote)];
      c == quote || c == LF || c == '\\'
  {
    if s[0] != quote && s[0] != LF {
      if s[0] == '\\' {
        if |s| > 1 && !IsLineTerminator(s[1]) {
          QuoteBodyEnds(s[2..], quote);
        }
      } else {
        QuoteBodyEnds(s[1..], quote);
      }
    }
  }

  /** A comment or string that is over before a brace is the same without what comes from the brace on. */
  lemma NoiseCut(t: string, p: nat)
    requires p < |t| && t[p] == '}' && 0 < Noise(t) <= p
    ensures Noise(t[..p]) == Noise(t)
  {
    hide QuoteBody, LineLength;
    var rest := t[1..];
    assert t[..p][1..] == rest[..p - 1];
    if t[0] == '#' {
      LineLengthEnds(rest);
      LineLengthCut(rest, p - 1);
    } else {
      QuoteBodyEnds(rest, t[0]);
      QuoteBodyCut(rest, p - 1, t[0]);
    }
  }

  lemma MaskStep(t: string)
    requires t != ""
    ensures Noise(t) == 0 ==> Mask(t) == [t[0]] + Mask(t[1..])
    ensures Noise(t) > 0 ==> Mask(t) == Spaces(Noise(t)) + Mask(t[Noise(t)..])
  {
    hide Noise;
  }

  lemma Cuts(t: string, n: nat, p: nat)
    requires n <= p < |t|
    ensures t[..p][n..] == t[n..][..p - n] && t[n..][p - n..] == t[p..] && t[n..][p - n] == t[p]
  {
  }

  lemma JoinedAt(front: string, rest: string, m: string, p: nat)
    requires m == front + rest && p < |m| && p >= |front|
    ensures m[p] == rest[p - |front|]
  {
  }

  lemma InFront(front: string, rest: string, m: string, p: nat)
    requires m == front + rest
    ensures p < |front| ==> m[p] == front[p]
  {
  }

  lemma CutAt(a: string, b: string, m: string)
    requires m == a + b
    ensures m[..|a|] == a && m[|a|..] == b
    ensures b != "" ==> m[|a|] == b[0]
  {
  }

  lemma Regroup(a: string, b: string, c: string)
    ensures a + (b + c) == a + b + c
  {
  }

  /** The mask of a text, cut at a closing brace that is not in a comment or a string. */
  lemma {:induction false} MaskCut(t: string, p: nat)
    requires p < |t| && Mask(t)[p] == '}'
    ensures t[p] == '}' && Mask(t) == Mask(t[..p]) + Mask(t[p..])
    decreases |t|
  {
    hide Noise, Mask;
    var n := Noise(t);
    MaskStep(t);
    if p == 0 {
      FirstOfMask(t);
    } else {
      var from, front := if n == 0 then 1 else n, if n == 0 then [t[0]] else Spaces(n);
      InFront(front, Mask(t[from..]), Mask(t), p);
      JoinedAt(front, Mask(t[from..]), Mask(t), p);
      Cuts(t, from, p);
      MaskCut(t[from..], p - from);
      MaskPrefix(t, p);
      Regroup(front, Mask(t[from..][..p - from]), Mask(t[p..]));
    }
  }

  lemma FirstOfMask(t: string)
    requires t != "" && Mask(t)[0] == '}'
    ensures t[0] == '}' && Mask(t) == Mask(t[..0]) + Mask(t[0..])
  {
    hide Noise;
    MaskStep(t);
    assert t[..0] == "" && t[0..] == t;
  }

  lemma MaskPrefix(t: string, p: nat)
    requires 0 < p < |t| && t[p] == '}' && Noise(t) <= p
    ensures
      var from := if Noise(t) == 0 then 1 else Noise(t);
      Mask(t[..p]) == (if Noise(t) == 0 then [t[0]] else Spaces(Noise(t))) + Mask(t[from..][..p - from])
  {
    hide Noise, Mask, Spaces;
    var from := if Noise(t) == 0 then 1 else Noise(t);
    MaskStep(t[..p]);
    Cuts(t, from, p);
    if Noise(t) == 0 {
      NoNoiseCut(t, p);
    } else {
      NoiseCut(t, p);
    }
  }

  lemma NoNoiseCut(t: string, p: nat)
    requires 0 < p <= |t| && Noise(t) == 0
    ensures Noise(t[..p]) == 0
  {
  }

  lemma ThreeParts(a: string, c: string, b: string)
    ensures a + "\n" + c + "\n" + b == a + "\n" + (c + "\n" + b)
    ensures a + "\n" + (c + "\n" + b) == a + ("\n" + c + "\n") + b
  {
  }

  /** With lines put in before a brace that counts, each part is masked as it would be alone. */
  lemma MaskInserted(t: string, p: nat, lines: string)
    requires p < |t| && Mask(t)[p] == '}'
    ensures Mask(t) == Mask(t[..p]) + Mask(t[p..])
    ensures Mask(t[..p] + "\n" + lines + "\n" + t[p..]) == Mask(t[..p]) + ("\n" + Mask(lines) + "\n") + Mask(t[p..])
  {
    hide Mask;
    var a, b := t[..p], t[p..];
    MaskCut(t, p);
    MaskLine(a, lines + "\n" + b);
    MaskLine(lines, b);
    ThreeParts(a, lines, b);
    ThreeParts(Mask(a), Mask(lines), Mask(b));
  }

  // ---- Scanning past an insertion ----

  ghost predicate NoBraces(s: string) {
    forall i :: 0 <= i < |s| ==> s[i] != '{' && s[i] != '}'
  }

  lemma {:induction false} ClosingSkips(p: string, rest: string, depth: int)
    requires NoBraces(p)
    ensures Closing(p + rest, depth) == (match Closing(rest, depth) case Some(k) => Some(k + |p|) case None => None)
  {
    if p == "" {
      assert p + rest == rest;
    } else {
      assert (p + rest)[1..] == p[1..] + rest;
      ClosingSkips(p[1..], rest, depth);
    }
  }

  /** A text that opens one brace and closes it, with nothing that could be taken for the head of a server block. */
  ghost predicate Inert(w: string, p: string, q: string, r: string) {
    && w == p + "{" + q + "}" + r && NoBraces(p) && NoBraces(q) && NoBraces(r)
    && w[0] == LF && w[|w| - 1] == LF
    && (forall i :: 0 <= i < |w| - 1 ==> !(w[i] == 'r' && w[i + 1] == 'v'))
    && SpaceRun(w) < |p|
  }

  lemma ClosingOver(w: string, p: string, q: string, r: string, rest: string, depth: int)
    requires Inert(w, p, q, r) && depth >= 1
    ensures Closing(w + rest, depth) == (match Closing(rest, depth) case Some(k) => Some(k + |w|) case None => None)
  {
    hide Closing, NoBraces;
    var inner := r + rest;
    var middle := q + ("}" + inner);
    InertParts(p, q, r, rest);
    ClosingSkips(p, "{" + middle, depth);
    ClosingBrace('{', middle, depth);
    ClosingSkips(q, "}" + inner, depth + 1);
    ClosingBrace('}', inner, depth + 1);
    ClosingSkips(r, rest, depth);
  }

  lemma InertParts(p: string, q: string, r: string, rest: string)
    ensures p + "{" + q + "}" + r + rest == p + ("{" + (q + ("}" + (r + rest))))
  {
  }

  lemma ClosingBrace(c: char, s: string, depth: int)
    requires !(c == '}' && depth == 1)
    ensures
      var next := if c == '{' then depth + 1 else if c == '}' then depth - 1 else depth;
      Closing([c] + s, depth) == (match Closing(s, next) case Some(k) => Some(k + 1) case None => None)
  {
    assert ([c] + s)[1..] == s;
  }

  /** Where a brace ends up: further on if it was at the insertion or behind it. */
  function Pushed(k: Option<nat>, at: nat, by_: nat): Option<nat> {
    match k
    case Some(k) => if k < at then Some(k) else Some(k + by_)
    case None => None
  }

  lemma {:induction false} ClosingInserted(a: string, b: string, w: string, p: string, q: string, r: string, depth: int)
    requires Inert(w, p, q, r) && depth >= 1
    ensures Closing(a + (w + b), depth) == Pushed(Closing(a + b, depth), |a|, |w|)
    decreases |a|
  {
    hide Inert, Closing;
    if a == "" {
      assert "" + (w + b) == w + b && "" + b == b;
      ClosingOver(w, p, q, r, b, depth);
    } else {
      var c := a[0];
      FirstAndRest(a, w + b);
      FirstAndRest(a, b);
      if c == '}' && depth == 1 {
        ClosesAtOnce(a[1..] + b);
        ClosesAtOnce(a[1..] + (w + b));
      } else {
        var next := if c == '{' then depth + 1 else if c == '}' then depth - 1 else depth;
        ClosingBrace(c, a[1..] + b, depth);
        ClosingBrace(c, a[1..] + (w + b), depth);
        ClosingInserted(a[1..], b, w, p, q, r, next);
      }
    }
  }

  lemma FirstAndRest(a: string, b: string)
    requires a != ""
    ensures a + b == [a[0]] + (a[1..] + b)
  {
  }

  lemma ClosesAtOnce(s: string)
    ensures Closing("}" + s, 1) == Some(0)
  {
  }

  lemma {:induction false} SpaceRunOver(a: string, b: string)
    ensures SpaceRun(a) < |a| ==> SpaceRun(a + b) == SpaceRun(a)
    ensures SpaceRun(a) == |a| ==> SpaceRun(a + b) == |a| + SpaceRun(b)
  {
    hide IsSpace;
    if a == "" {
      assert a + b == b;
    } else {
      assert (a + b)[1..] == a[1..] + b;
      SpaceRunOver(a[1..], b);
    }
  }

  /** What follows a run of spaces at the start of the text is not an opening brace. */
  ghost predicate NoOpening(c: string) {
    SpaceRun(c) < |c| ==> c[SpaceRun(c)] != '{'
  }

  /** No head begins in `a` that ends behind it, when what follows does not open a block. */
  lemma HeadWithin(a: string, c: string)
    requires a != "" && NoOpening(c) && (c == "" || c[0] == LF || c[0] == '}')
    ensures Head(a + c) == Head(a)
  {
    hide SpaceRun, StartsWith, Head;
    if StartsWith(a, "server") {
      ServerBefore(a, c);
      SpaceRunOver(a[6..], c);
      HeadIs(a);
      HeadIs(a + c);
      AfterServer(a, c);
    } else {
      ServerWithin(a, c);
      HeadIs(a);
      HeadIs(a + c);
    }
  }

  lemma HeadIs(s: string)
    ensures !StartsWith(s, "server") ==> Head(s) == None
    ensures StartsWith(s, "server") ==>
      && |s| >= 6
      && Head(s) == (if 6 + SpaceRun(s[6..]) < |s| && s[6 + SpaceRun(s[6..])] == '{' then Some(7 + SpaceRun(s[6..])) else None)
  {
    hide SpaceRun;
  }

  lemma ServerBefore(a: string, c: string)
    requires StartsWith(a, "server")
    ensures |a| >= 6 && StartsWith(a + c, "server") && (a + c)[6..] == a[6..] + c
  {
    assert (a + c)[0..6] == a[0..6];
  }

  lemma AfterServer(a: string, c: string)
    requires |a| >= 6 && (a + c)[6..] == a[6..] + c && NoOpening(c)
    requires SpaceRun(a[6..]) < |a[6..]| ==> SpaceRun(a[6..] + c) == SpaceRun(a[6..])
    requires SpaceRun(a[6..]) == |a[6..]| ==> SpaceRun(a[6..] + c) == |a[6..]| + SpaceRun(c)
    ensures
      var n, k := 6 + SpaceRun(a[6..]), 6 + SpaceRun((a + c)[6..]);
      && (n < |a| && a[n] == '{' ==> k == n && (a + c)[k] == '{')
      && (!(n < |a| && a[n] == '{') ==> !(k < |a + c| && (a + c)[k] == '{'))
  {
    hide SpaceRun;
    var n := 6 + SpaceRun(a[6..]);
    SpaceRunBound(a[6..]);
    if n == |a| {
      assert SpaceRun(c) < |c| ==> (a + c)[|a| + SpaceRun(c)] == c[SpaceRun(c)];
    }
  }

  lemma SpaceRunBound(c: string)
    ensures SpaceRun(c) <= |c|
  {
  }

  lemma ServerWithin(a: string, c: string)
    requires a != "" && !StartsWith(a, "server") && (c == "" || c[0] == LF || c[0] == '}')
    ensures !StartsWith(a + c, "server")
  {
    var s := a + c;
    if |a| < 6 {
      assert c != "" ==> s[|a|] == c[0];
      assert |s| >= 6 ==> s[0..6][|a|] == s[|a|];
    } else {
      assert a[0..6] == s[0..6];
    }
  }

  // ---- The blocks of a text with an insertion ----

  function ShiftAll(blocks: seq<Block>, further: nat): seq<Block> {
    if blocks == [] then [] else [Block(blocks[0].start + further, blocks[0].end + further)] + ShiftAll(blocks[1..], further)
  }

  /** The blocks with what is at `p` or behind it `further` on. */
  function MovedBlock(b: Block, p: nat, further: nat): Block {
    Block(if b.start < p then b.start else b.start + further, if b.end < p then b.end else b.end + further)
  }

  function Moved(blocks: seq<Block>, p: nat, further: nat): seq<Block> {
    if blocks == [] then [] else [MovedBlock(blocks[0], p, further)] + Moved(blocks[1..], p, further)
  }

  lemma ShiftAllCons(b: Block, blocks: seq<Block>, further: nat)
    ensures ShiftAll([b] + blocks, further) == [Block(b.start + further, b.end + further)] + ShiftAll(blocks, further)
  {
    assert ([b] + blocks)[1..] == blocks;
  }

  lemma MovedCons(b: Block, blocks: seq<Block>, p: nat, further: nat)
    ensures Moved([b] + blocks, p, further) == [MovedBlock(b, p, further)] + Moved(blocks, p, further)
  {
    assert ([b] + blocks)[1..] == blocks;
  }

  lemma {:induction false} MovedBehind(s: string, at: nat, blocks: seq<Block>, p: nat, further: nat)
    requires AllIn(s, at, blocks) && p <= at
    ensures Moved(blocks, p, further) == ShiftAll(blocks, further)
  {
    if blocks != [] {
      assert MovedBlock(blocks[0], p, further) == Block(blocks[0].start + further, blocks[0].end + further);
      MovedBehind(s, at, blocks[1..], p, further);
    }
  }

  lemma ShiftFound(at: nat, length: nat, rest: seq<Block>, further: nat)
    ensures [Block(at + further, at + further + length)] + ShiftAll(rest, further)
         == ShiftAll([Block(at, at + length)] + rest, further)
  {
    hide ShiftAll;
    ShiftAllCons(Block(at, at + length), rest, further);
  }

  lemma {:induction false} ScanShift(s: string, afterWord: bool, at: nat, further: nat)
    ensures Scan(s, afterWord, at + further) == ShiftAll(Scan(s, afterWord, at), further)
    decreases |s|
  {
    hide Head, Closing, ShiftAll, Scan, IsWordChar;
    if s == "" {
      ShiftNone(further);
      NoScan(afterWord, at);
      NoScan(afterWord, at + further);
    } else {
      ScanStep(s, afterWord, at);
      ScanStep(s, afterWord, at + further);
      if !afterWord && Head(s).Some? {
        var n := Head(s).value;
        match Closing(s[n - 1..], 0)
        case Some(k) =>
          var next := at + n + k;
          ScanShift(s[n + k..], false, next, further);
          assert at + further + n + k == next + further;
          ShiftFound(at, n - 1 + k, Scan(s[n + k..], false, next), further);
        case None => ScanShift(s[n..], false, at + n, further);
      } else {
        ScanShift(s[1..], IsWordChar(s[0]), at + 1, further);
      }
    }
  }

  lemma ShiftNone(further: nat)
    ensures ShiftAll([], further) == []
  {
  }

  /** One step of the scan, inside `x` as long as no head that begins in it ends behind it. */
  lemma ScanWithin(x: string, c: string, afterWord: bool, at: nat)
    requires x != "" && Head(x + c) == Head(x)
    ensures !(!afterWord && Head(x).Some?) ==> Scan(x + c, afterWord, at) == Scan(x[1..] + c, IsWordChar(x[0]), at + 1)
    ensures !afterWord && Head(x).Some? ==>
      var n := Head(x).value;
      Scan(x + c, afterWord, at) == (
        match Closing(x[n..] + c, 1)
        case Some(k) => [Block(at, at + n + k)] + Scan((x[n..] + c)[k + 1..], false, at + n + k + 1)
        case None => Scan(x[n..] + c, false, at + n))
  {
    hide Head, Closing, Scan, IsWordChar;
    var s := x + c;
    ScanStep(s, afterWord, at);
    Behind(x, c, 1);
    if !afterWord && Head(x).Some? {
      var n := Head(x).value;
      HeadLong(x);
      Behind(x, c, n);
      OpenedAt(x, c, n);
      ClosingBrace('{', x[n..] + c, 0);
      match Closing(x[n..] + c, 1)
      case Some(k) => assert s[n..][k + 1..] == s[n + (k + 1)..];
      case None =>
    }
  }

  lemma Behind(x: string, c: string, n: nat)
    requires n <= |x|
    ensures (x + c)[n..] == x[n..] + c && (x != "" ==> (x + c)[0] == x[0])
  {
  }

  lemma OpenedAt(x: string, c: string, n: nat)
    requires 0 < n <= |x| && x[n - 1] == '{'
    ensures (x + c)[n - 1..] == ['{'] + (x[n..] + c)
  {
  }

  ghost predicate NoServer(u: string) {
    forall i :: 0 <= i < |u| - 1 ==> !(u[i] == 'r' && u[i + 1] == 'v')
  }

  lemma NoHead(u: string, b: string)
    requires u != "" && u[|u| - 1] == LF && NoServer(u)
    ensures Head(u + b) == None
  {
    hide SpaceRun;
    var s := u + b;
    if |u| >= 4 {
      assert s[2] == u[2] && s[3] == u[3];
      assert !(u[2] == 'r' && u[3] == 'v');
      assert |s| >= 6 ==> s[0..6][2] == s[2] && s[0..6][3] == s[3];
    } else {
      assert s[|u| - 1] == LF;
      assert |s| >= 6 ==> s[0..6][|u| - 1] == s[|u| - 1];
    }
  }

  lemma NoServerBehind(u: string)
    requires NoServer(u) && u != ""
    ensures NoServer(u[1..])
  {
    forall i | 0 <= i < |u[1..]| - 1
      ensures !(u[1..][i] == 'r' && u[1..][i + 1] == 'v')
    {
      assert u[1..][i] == u[i + 1] && u[1..][i + 1] == u[(i + 1) + 1];
    }
  }

  lemma {:induction false} ScanThrough(u: string, b: string, afterWord: bool, at: nat)
    requires u != "" && u[|u| - 1] == LF && NoServer(u)
    ensures Scan(u + b, afterWord, at) == Scan(b, false, at + |u|)
    decreases |u|
  {
    hide Head, Closing, Scan, NoServer;
    NoHead(u, b);
    ScanStep(u + b, afterWord, at);
    Behind(u, b, 1);
    if |u| == 1 {
      OneNewline(u, b);
    } else {
      LastBehind(u);
      NoServerBehind(u);
      ScanThrough(u[1..], b, IsWordChar(u[0]), at + 1);
    }
  }

  lemma OneNewline(u: string, b: string)
    requires |u| == 1 && u[0] == LF
    ensures u[1..] + b == b && !IsWordChar(u[0])
  {
  }

  lemma LastBehind(u: string)
    requires |u| > 1
    ensures u[1..] != "" && u[1..][|u[1..]| - 1] == u[|u| - 1]
  {
  }

  lemma InertInFront(w: string, p: string, q: string, r: string, b: string)
    requires Inert(w, p, q, r) && b != "" && b[0] == '}'
    ensures InFrontOf(w + b, w, b)
  {
    hide Inert, NoOpening, NoServer;
    InertScans(w, p, q, r, b);
  }

  lemma InertScans(w: string, p: string, q: string, r: string, b: string)
    requires Inert(w, p, q, r) && b != "" && b[0] == '}'
    ensures w != "" && w[|w| - 1] == LF && NoServer(w) && (w + b)[0] == LF
    ensures NoOpening(w + b) && NoOpening(b)
  {
    SpaceRunOver(w, b);
    var k := SpaceRun(w);
    assert (w + b)[k] == w[k] == p[k];
  }

  /** What may stand before a brace in place of the brace itself. */
  ghost predicate InFrontOf(more: string, w: string, b: string) {
    && more == w + b && b != "" && b[0] == '}' && more != "" && more[0] == LF
    && NoOpening(more) && NoOpening(b)
  }

  /**
   * Inserting such a text before a closing brace moves what is at the brace or behind it, and nothing else: the blocks are
   * the same, the one the brace closes longer by the insertion.
   */
  lemma {:induction false} ScanInserted(a: string, b: string, more: string, w: string, p: string, q: string, r: string, afterWord: bool, at: nat)
    requires Inert(w, p, q, r) && InFrontOf(more, w, b)
    ensures Scan(a + more, afterWord, at) == Moved(Scan(a + b, afterWord, at), at + |a|, |w|)
    decreases |a|, 2
  {
    hide Inert, Scan, Closing, Head, NoOpening, Moved, IsWordChar, InFrontOf, ScansHead;
    InFrontMeans(more, w, b);
    if a == "" {
      ScanAtBrace(b, more, w, p, q, r, afterWord, at);
      assert "" + more == more && "" + b == b;
    } else {
      HeadWithin(a, more);
      HeadWithin(a, b);
      if !afterWord && Head(a).Some? {
        ScansHeadWithin(a, more, at);
        ScansHeadWithin(a, b, at);
        HeadInserted(a, Head(a).value, b, more, w, p, q, r, at);
      } else {
        ScansOnWithin(a, more, afterWord, at);
        ScansOnWithin(a, b, afterWord, at);
        ScanInserted(a[1..], b, more, w, p, q, r, IsWordChar(a[0]), at + 1);
      }
    }
  }

  /** What the scan does at a head: the block up to its closing brace and the rest, or the rest when no brace closes it. */
  ghost predicate ScansHead(rest: string, scan: seq<Block>, at: nat, next: nat) {
    scan == match Closing(rest, 1)
      case Some(k) => [Block(at, next + k)] + Scan(rest[k + 1..], false, next + k + 1)
      case None => Scan(rest, false, next)
  }

  lemma ScansHeadWithin(x: string, c: string, at: nat)
    requires x != "" && Head(x + c) == Head(x) && Head(x).Some?
    ensures ScansHead(x[Head(x).value..] + c, Scan(x + c, false, at), at, at + Head(x).value)
  {
    hide Head, Closing, Scan;
    ScanWithin(x, c, false, at);
  }

  lemma ScansOnWithin(x: string, c: string, afterWord: bool, at: nat)
    requires x != "" && Head(x + c) == Head(x) && (afterWord || Head(x).None?)
    ensures Scan(x + c, afterWord, at) == Scan(x[1..] + c, IsWordChar(x[0]), at + 1)
  {
    hide Head, Closing, Scan, IsWordChar;
    ScanWithin(x, c, afterWord, at);
  }

  lemma {:induction false} HeadInserted(a: string, n: nat, b: string, more: string, w: string, p: string, q: string, r: string, at: nat)
    requires Inert(w, p, q, r) && InFrontOf(more, w, b) && 0 < n <= |a|
    requires ScansHead(a[n..] + more, Scan(a + more, false, at), at, at + n)
    requires ScansHead(a[n..] + b, Scan(a + b, false, at), at, at + n)
    ensures Scan(a + more, false, at) == Moved(Scan(a + b, false, at), at + |a|, |w|)
    decreases |a|, 1
  {
    hide Inert, Scan, Closing, NoOpening, Moved, InFrontOf, Pushed, ScansHead;
    var rest := a[n..];
    CloseInserted(rest, b, more, w, p, q, r);
    PushedIs(Closing(rest + b, 1), |rest|, |w|);
    if Closing(rest + b, 1).None? {
      ScansUnclosed(rest + more, Scan(a + more, false, at), at, at + n);
      ScansUnclosed(rest + b, Scan(a + b, false, at), at, at + n);
      ScanInserted(rest, b, more, w, p, q, r, false, at + n);
    } else {
      var k := Closing(rest + b, 1).value;
      ScansClosed(rest + more, Scan(a + more, false, at), at, at + n, if k < |rest| then k else k + |w|);
      ScansClosed(rest + b, Scan(a + b, false, at), at, at + n, k);
      BlockInserted(a, n, k, b, more, w, p, q, r, at);
    }
  }

  lemma ScansUnclosed(rest: string, scan: seq<Block>, at: nat, next: nat)
    requires ScansHead(rest, scan, at, next) && Closing(rest, 1) == None
    ensures scan == Scan(rest, false, next)
  {
    hide Scan, Closing;
  }

  lemma ScansClosed(rest: string, scan: seq<Block>, at: nat, next: nat, k: nat)
    requires ScansHead(rest, scan, at, next) && Closing(rest, 1) == Some(k)
    ensures k < |rest| && scan == [Block(at, next + k)] + Scan(rest[k + 1..], false, next + k + 1)
  {
    hide Scan, Closing;
  }

  lemma PushedIs(k: Option<nat>, at: nat, further: nat)
    ensures k.None? ==> Pushed(k, at, further) == None
    ensures k.Some? ==> Pushed(k, at, further) == Some(if k.value < at then k.value else k.value + further)
  {
  }

  lemma InFrontMeans(more: string, w: string, b: string)
    requires InFrontOf(more, w, b)
    ensures b != "" && b[0] == '}' && more != "" && more[0] == LF && NoOpening(more) && NoOpening(b)
  {
    hide NoOpening;
  }

  lemma CloseInserted(a: string, b: string, more: string, w: string, p: string, q: string, r: string)
    requires Inert(w, p, q, r) && InFrontOf(more, w, b)
    ensures Closing(a + more, 1) == Pushed(Closing(a + b, 1), |a|, |w|)
  {
    hide Inert, Closing, NoOpening;
    ClosingInserted(a, b, w, p, q, r, 1);
  }

  lemma ScanAtBrace(b: string, more: string, w: string, p: string, q: string, r: string, afterWord: bool, at: nat)
    requires Inert(w, p, q, r) && InFrontOf(more, w, b)
    ensures Scan(more, afterWord, at) == Moved(Scan(b, afterWord, at), at, |w|)
  {
    hide Inert, Scan, NoServer, NoOpening, Moved, AllIn;
    InertScans(w, p, q, r, b);
    ScanThrough(w, b, afterWord, at);
    ScanShift(b, false, at, |w|);
    BraceFirst(b, afterWord, at);
    ScanBounds(b, false, at);
    MovedBehind(b, at, Scan(b, false, at), at, |w|);
  }

  lemma BraceFirst(b: string, afterWord: bool, at: nat)
    requires b != "" && b[0] == '}'
    ensures Scan(b, afterWord, at) == Scan(b, false, at)
  {
    hide Scan, Closing, IsWordChar;
    HeadlessAt(b);
    ScanStep(b, afterWord, at);
    ScanStep(b, false, at);
  }

  lemma HeadlessAt(b: string)
    requires b != "" && b[0] != 's'
    ensures Head(b) == None
  {
    if StartsWith(b, "server") {
      OccursChar(b, "server", 0, 0);
    }
  }

  lemma BehindBoth(x: string, b: string, more: string, w: string, k: nat)
    requires more == w + b && |x| <= k < |x + b|
    ensures k + |w| < |x + more| && (x + more)[k + |w| + 1..] == (x + b)[k + 1..]
  {
  }

  lemma BehindInFront(a: string, n: nat, k: nat, c: string)
    requires n <= |a| && k < |a| - n
    ensures (a[n..] + c)[k + 1..] == a[n + k + 1..] + c
  {
  }

  lemma {:induction false} BlockInserted(a: string, n: nat, k: nat, b: string, more: string, w: string, p: string, q: string, r: string, at: nat)
    requires Inert(w, p, q, r) && InFrontOf(more, w, b)
    requires 0 < n <= |a| && k < |a[n..] + b|
    ensures
      var moved := if k < |a| - n then k else k + |w|;
      && moved < |a[n..] + more|
      && [Block(at, at + n + moved)] + Scan((a[n..] + more)[moved + 1..], false, at + n + moved + 1)
        == Moved([Block(at, at + n + k)] + Scan((a[n..] + b)[k + 1..], false, at + n + k + 1), at + |a|, |w|)
    decreases |a|, 0
  {
    hide Inert, Scan, Moved, AllIn, NoOpening;
    var rest := (a[n..] + b)[k + 1..];
    MovedCons(Block(at, at + n + k), Scan(rest, false, at + n + k + 1), at + |a|, |w|);
    if k < |a| - n {
      var inner := a[n + k + 1..];
      BehindInFront(a, n, k, b);
      BehindInFront(a, n, k, more);
      ScanInserted(inner, b, more, w, p, q, r, false, at + n + k + 1);
    } else {
      BehindBoth(a[n..], b, more, w, k);
      ScanShift(rest, false, at + n + k + 1, |w|);
      ScanBounds(rest, false, at + n + k + 1);
      MovedBehind(rest, at + n + k + 1, Scan(rest, false, at + n + k + 1), at + |a|, |w|);
    }
  }

  // ---- The proxy block is such a text ----

  /** A line without comments, strings or braces, or anything like `server`. */
  ghost predicate Tame(s: string) {
    NoServer(s) && NoBraces(s) && forall i :: 0 <= i < |s| ==> s[i] != '#' && s[i] != '"' && s[i] != '\''
  }

  lemma TameLine(x: string, y: string)
    requires Tame(x) && Tame(y) && x != "" && x[0] != 'v' && y != "" && y[0] != 'v'
    ensures Tame(PAD + x + y)
  {
    hide NoServer, NoBraces;
    PadIsTame();
    TameOver(PAD, x);
    TameOver(PAD + x, y);
  }

  lemma PadIsTame()
    ensures Tame(PAD)
  {
  }

  lemma PassIsTame()
    ensures Tame("proxy_pass http://unix:/run/")
  {
  }

  lemma SocketIsTame()
    ensures Tame("clp-addons/manager.sock:/;")
  {
  }

  lemma LinesAreTame1()
    ensures Tame(LINE1)
  {
    PassIsTame();
    SocketIsTame();
    TameLine("proxy_pass http://unix:/run/", "clp-addons/manager.sock:/;");
  }

  lemma LinesAreTame2()
    ensures Tame(LINE2)
  {
    TameLine("proxy_http_version ", "1.1;");
  }

  lemma LinesAreTame3()
    ensures Tame(LINE3)
  {
    TameLine("proxy_set_header ", "Host $http_host;");
  }

  lemma LinesAreTame4()
    ensures Tame(LINE4)
  {
    TameLine("proxy_set_header ", "X-Real-IP $remote_addr;");
  }

  lemma LinesAreTame5()
    ensures Tame(LINE5)
  {
    ForwardedIsTame();
    ClientsAreTame();
    TameLine("proxy_set_header X-Forwarded-For ", "$proxy_add_x_forwarded_for;");
  }

  lemma ForwardedIsTame()
    ensures Tame("proxy_set_header X-Forwarded-For ")
  {
    SetHeaderIsTame();
    ForIsTame();
    hide Tame;
    TameOver("proxy_set_header ", "X-Forwarded-For ");
    assert "proxy_set_header " + "X-Forwarded-For " == "proxy_set_header X-Forwarded-For ";
  }

  lemma SetHeaderIsTame()
    ensures Tame("proxy_set_header ")
  {
  }

  lemma ForIsTame()
    ensures Tame("X-Forwarded-For ")
  {
  }

  lemma ClientsAreTame()
    ensures Tame("$proxy_add_x_forwarded_for;")
  {
  }

  lemma LinesAreTame6()
    ensures Tame(LINE6)
  {
    TameLine("proxy_set_header ", "X-Forwarded-Proto $scheme;");
  }

  lemma LinesAreTame7()
    ensures Tame(LINE7)
  {
    SetHeaderIsTame();
    HostIsTame();
    TameLine("proxy_set_header ", "X-Forwarded-Host $http_host;");
  }

  lemma HostIsTame()
    ensures Tame("X-Forwarded-Host $http_host;")
  {
  }

  lemma LinesAreTame8()
    ensures Tame(LINE8) && Tame(LINE9)
  {
    BufferingIsTame();
    TimeoutIsTame();
  }

  lemma BufferingIsTame()
    ensures Tame(LINE8)
  {
    TameLine("proxy_buffering ", "off;");
  }

  lemma TimeoutIsTame()
    ensures Tame(LINE9)
  {
    TameLine("proxy_read_timeout ", "3600s;");
  }

  lemma LocationIsTame()
    ensures Tame(LOCATION) && Tame(INDENT)
  {
    AddonsIsTame();
    IndentIsTame();
    hide Tame;
    TameOver(INDENT, "location ^~ /addons/ ");
    assert INDENT + "location ^~ /addons/ " == LOCATION;
  }

  lemma AddonsIsTame()
    ensures Tame("location ^~ /addons/ ")
  {
  }

  lemma IndentIsTame()
    ensures Tame(INDENT)
  {
  }

  lemma {:induction false} SpaceRunBefore(s: string, k: nat)
    requires k < |s| && !IsSpace(s[k])
    ensures SpaceRun(s) <= k
  {
    if k > 0 {
      SpaceRunBefore(s[1..], k - 1);
    }
  }

  lemma {:induction false} MaskPlain(s: string, rest: string)
    requires Tame(s)
    ensures Mask(s + rest) == s + Mask(rest)
  {
    hide Tame, Mask, Noise;
    if s == "" {
      assert s + rest == rest;
    } else {
      FirstAndRest(s, rest);
      assert (s + rest)[1..] == s[1..] + rest && (s + rest)[0] == s[0];
      TameBehind(s);
      PlainIsNoNoise(s + rest);
      MaskStep(s + rest);
      MaskPlain(s[1..], rest);
      assert [s[0]] + (s[1..] + Mask(rest)) == s + Mask(rest);
    }
  }

  lemma PlainIsNoNoise(s: string)
    requires s != "" && s[0] != '#' && s[0] != '"' && s[0] != '\''
    ensures Noise(s) == 0
  {
  }

  lemma TameBehind(s: string)
    requires Tame(s) && s != ""
    ensures Tame(s[1..]) && s[0] !in "#\"'"
  {
    hide NoServer;
    NoServerBehind(s);
  }

  lemma NoServerOver(a: string, b: string)
    requires NoServer(a) && NoServer(b) && (b == "" || b[0] != 'v')
    ensures NoServer(a + b)
  {
    var s := a + b;
    forall i | 0 <= i < |s| - 1
      ensures !(s[i] == 'r' && s[i + 1] == 'v')
    {
      if i + 1 < |a| {
        assert s[i] == a[i] && s[i + 1] == a[i + 1];
      } else if i >= |a| {
        assert s[i] == b[i - |a|] && s[i + 1] == b[(i - |a|) + 1];
      }
    }
  }

  lemma TameOver(a: string, b: string)
    requires Tame(a) && Tame(b) && (b == "" || b[0] != 'v')
    ensures Tame(a + b)
  {
    hide NoServer;
    NoServerOver(a, b);
  }

  lemma NewlineIsTame()
    ensures Tame("\n")
  {
  }

  ghost predicate AllTame(lines: seq<string>) {
    forall i :: 0 <= i < |lines| ==> Tame(lines[i]) && (lines[i] == "" || lines[i][0] != 'v')
  }

  lemma {:induction false} LinesTame(lines: seq<string>)
    requires AllTame(lines)
    ensures Tame(Lines(lines)) && (Lines(lines) == "" || Lines(lines)[0] != 'v')
  {
    hide Tame;
    if lines == [] {
      assert Tame("") by { NothingIsTame(); }
    } else {
      NewlineIsTame();
      LinesTame(lines[1..]);
      TameOver(lines[0], "\n");
      TameOver(lines[0] + "\n", Lines(lines[1..]));
    }
  }

  lemma NothingIsTame()
    ensures Tame("")
  {
  }

  lemma DirectivesAreTame()
    ensures Tame(DIRECTIVES) && (DIRECTIVES == "" || DIRECTIVES[0] != 'v')
  {
    hide Tame, LINE1, LINE2, LINE3, LINE4, LINE5, LINE6, LINE7, LINE8, LINE9, Lines;
    LinesAreTame1();
    LinesAreTame2();
    LinesAreTame3();
    LinesAreTame4();
    LinesAreTame5();
    LinesAreTame6();
    LinesAreTame7();
    LinesAreTame8();
    LinesBegin();
    LinesTame([LINE1, LINE2, LINE3, LINE4, LINE5, LINE6, LINE7, LINE8, LINE9]);
  }

  lemma LinesBegin()
    ensures forall line :: line in [LINE1, LINE2, LINE3, LINE4, LINE5, LINE6, LINE7, LINE8, LINE9] ==> line != "" && line[0] == ' '
  {
  }

  /** A comment by itself on a line is masked away. */
  lemma {:induction false} MaskComment(c: string)
    requires c != "" && c[0] == '#' && LF !in c
    ensures Mask(INDENT + c) == Spaces(4 + |c|)
  {
    hide Noise, INDENT;
    var s := INDENT + c;
    IndentIs();
    MaskPlain(INDENT, c);
    CommentNoise(c);
    assert c[|c|..] == "";
    assert Mask(c) == Spaces(|c|) + Mask("");
    SpacesAre(INDENT + Spaces(|c|));
  }

  lemma IndentIs()
    ensures |INDENT| == 4 && Tame(INDENT) && forall i :: 0 <= i < 4 ==> INDENT[i] == ' '
  {
  }

  lemma {:induction false} SpacesAre(s: string)
    requires forall i :: 0 <= i < |s| ==> s[i] == ' '
    ensures s == Spaces(|s|)
  {
  }

  lemma CommentNoise(c: string)
    requires c != "" && c[0] == '#' && LF !in c
    ensures Noise(c) == |c|
  {
    assert forall i :: 0 <= i < |c| - 1 ==> c[1..][i] == c[i + 1];
    WholeLine(c[1..]);
  }

  lemma {:induction false} WholeLine(s: string)
    requires LF !in s
    ensures LineLength(s) == |s|
  {
    if s != "" {
      WholeLine(s[1..]);
    }
  }

  lemma MarkersAreComments()
    ensures START != "" && START[0] == '#' && LF !in START && CR !in START
    ensures FINISH != "" && FINISH[0] == '#' && LF !in FINISH && CR !in FINISH
  {
  }

  /** What the proxy block is once masked: the markers blank, the location as it is. */
  function Before(): string {
    "\n" + Spaces(4 + |START|) + "\n" + LOCATION
  }

  function Within(): string {
    "\n" + DIRECTIVES + INDENT
  }

  function After(): string {
    "\n" + Spaces(4 + |FINISH|) + "\n"
  }

  function Masked(): string {
    Before() + "{" + Within() + "}" + After()
  }

  lemma BraceMasked(c: char, rest: string)
    requires c == '{' || c == '}'
    ensures Mask([c] + rest) == [c] + Mask(rest)
  {
    PlainIsNoNoise([c] + rest);
    assert ([c] + rest)[1..] == rest;
  }

  lemma MaskBlock()
    ensures "\n" + Mask(BLOCK) + "\n" == Masked()
  {
    hide Mask, START, FINISH, LOCATION, DIRECTIVES, INDENT, Spaces, Tame;
    MarkersAreComments();
    LocationIsTame();
    DirectivesAreTame();
    NewlineIsTame();
    var tail := INDENT + FINISH;
    var close := "}" + ("\n" + tail);
    var inner := "\n" + (DIRECTIVES + (INDENT + close));
    var line := LOCATION + ("{" + inner);
    BlockParts(INDENT, START, LOCATION, DIRECTIVES, FINISH);
    assert BLOCK == (INDENT + START) + "\n" + line;
    MaskLine(INDENT + START, line);
    MaskComment(START);
    MaskComment(FINISH);
    MaskPlain(LOCATION, "{" + inner);
    BraceMasked('{', inner);
    MaskPlain("\n", DIRECTIVES + (INDENT + close));
    MaskPlain(DIRECTIVES, INDENT + close);
    MaskPlain(INDENT, close);
    BraceMasked('}', "\n" + tail);
    MaskPlain("\n", tail);
    MaskedParts(Spaces(4 + |START|), LOCATION, DIRECTIVES, INDENT, Spaces(4 + |FINISH|));
  }

  lemma BlockParts(indent: string, start: string, location: string, directives: string, finish: string)
    ensures indent + start + ("\n" + location + "{" + "\n" + directives + indent + "}" + "\n" + indent) + finish
         == (indent + start) + "\n" + (location + ("{" + ("\n" + (directives + (indent + ("}" + ("\n" + (indent + finish))))))))
  {
  }

  lemma MaskedParts(first: string, location: string, directives: string, indent: string, last: string)
    ensures "\n" + (first + "\n" + (location + ("{" + ("\n" + (directives + (indent + ("}" + ("\n" + last)))))))) + "\n"
         == ("\n" + first + "\n" + location) + "{" + ("\n" + directives + indent) + "}" + ("\n" + last + "\n")
  {
  }

  lemma SpacesAreTame(n: nat)
    ensures Tame(Spaces(n)) && (n > 0 ==> Spaces(n) != "" && Spaces(n)[0] == ' ')
  {
  }

  lemma MaskedIsInert()
    ensures Inert(Masked(), Before(), Within(), After())
  {
    hide Tame, START, FINISH, LOCATION, DIRECTIVES, INDENT, Spaces, SpaceRun;
    NewlineIsTame();
    LocationIsTame();
    LocationBegins();
    DirectivesAreTame();
    IndentIs();
    SpacesAreTame(4 + |START|);
    SpacesAreTame(4 + |FINISH|);
    TameOver("\n", Spaces(4 + |START|));
    TameOver("\n" + Spaces(4 + |START|), "\n");
    TameOver("\n" + Spaces(4 + |START|) + "\n", LOCATION);
    TameOver("\n", DIRECTIVES);
    TameOver("\n" + DIRECTIVES, INDENT);
    TameOver("\n", Spaces(4 + |FINISH|));
    TameOver("\n" + Spaces(4 + |FINISH|), "\n");
    TameMeans(Before());
    TameMeans(Within());
    TameMeans(After());
    NoServerAround(Before(), Within(), After());
    LocationFollows();
  }

  lemma LocationBegins()
    ensures LOCATION[0] == ' '
  {
  }

  lemma TameMeans(s: string)
    requires Tame(s)
    ensures NoServer(s) && NoBraces(s)
  {
  }

  lemma NoServerAround(p: string, q: string, r: string)
    requires NoServer(p) && NoServer(q) && NoServer(r) && q != "" && q[0] == LF && r != "" && r[0] == LF
    ensures NoServer(p + "{" + q + "}" + r)
  {
    hide NoServer;
    BracesNoServer();
    NoServerOver(p, "{");
    NoServerOver(p + "{", q);
    NoServerOver(p + "{" + q, "}");
    NoServerOver(p + "{" + q + "}", r);
  }

  lemma BracesNoServer()
    ensures NoServer("{") && NoServer("}")
  {
  }

  /** The spaces at the start of the masked block lead up to its location. */
  lemma LocationFollows()
    ensures SpaceRun(Masked()) < |Before()|
  {
    hide START, FINISH, DIRECTIVES, INDENT, Spaces;
    var k := 2 + 4 + |START| + 4;
    assert LOCATION[4] == 'l';
    assert Before()[k] == LOCATION[4];
    assert Masked()[k] == Before()[k];
    SpaceRunBefore(Masked(), k);
  }

  // ---- Stripping ----

  lemma NoMarkerWithin(a: string, c: string, from: nat)
    requires !Occurs(a, START) && from < |a| && c != "" && (c[0] == LF || c[0] == CR)
    ensures !StartsWith((a + c)[from..], START)
  {
    hide START;
    MarkersAreComments();
    var s := a + c;
    if StartsWith(s[from..], START) {
      assert s[from..][0..|START|] == s[from..from + |START|];
      StartElsewhere(a, c, from);
    }
  }

  lemma StartElsewhere(a: string, c: string, from: nat)
    requires from < |a| && OccursAt(a + c, START, from) && c != "" && (c[0] == LF || c[0] == CR)
    ensures Occurs(a, START)
  {
    hide START;
    MarkersAreComments();
    if from + |START| <= |a| {
      OccursInFront(a, c, START, from);
    } else {
      CharBehind(a, c, START, from);
    }
  }

  lemma OccursInFront(a: string, c: string, p: string, from: nat)
    requires OccursAt(a + c, p, from) && from + |p| <= |a|
    ensures OccursAt(a, p, from)
  {
    assert a[from..from + |p|] == (a + c)[from..from + |p|];
  }

  lemma CharBehind(a: string, c: string, p: string, from: nat)
    requires from < |a| < from + |p| && OccursAt(a + c, p, from) && c != ""
    ensures c[0] in p
  {
    OccursChar(a + c, p, from, |a| - from);
    assert (a + c)[|a|] == c[0];
  }

  /** No marked block begins in a text without the marker, unless at a carriage return at its very end. */
  lemma NoneMarked(a: string, c: string)
    requires a != "" && !Occurs(a, START) && c != "" && (c[0] == CR || (c[0] == LF && a[|a| - 1] != CR))
    ensures MarkedAt(a + c) == None
  {
    hide START, FINISH, LineEnd, BlankRun, StartsWith;
    var s := a + c;
    var line := LineEnd(s);
    LineEndWithin(a, c);
    assert s[|a|] == c[0];
    assert s[line..][|a| - line] == s[|a|];
    BlankRunBefore(s[line..], |a| - line);
    var from := line + BlankRun(s[line..]);
    if from < |a| {
      NoMarkerWithin(a, c, from);
    } else {
      NotAtLineEnd(a, c);
    }
  }

  lemma {:induction false} BlankRunBefore(s: string, k: nat)
    requires k < |s| && !IsBlank(s[k])
    ensures BlankRun(s) <= k
  {
    if k > 0 {
      BlankRunBefore(s[1..], k - 1);
    }
  }

  lemma NotAtLineEnd(a: string, c: string)
    requires c != "" && (c[0] == LF || c[0] == CR)
    ensures !StartsWith((a + c)[|a|..], START)
  {
    hide START;
    MarkersAreComments();
    assert (a + c)[|a|..] == c;
    assert |c| >= |START| ==> c[0..|START|][0] == c[0];
  }

  lemma LineEndWithin(a: string, c: string)
    requires a != "" && c != "" && (c[0] == CR || (c[0] == LF && a[|a| - 1] != CR))
    ensures LineEnd(a + c) <= |a|
  {
    assert (a + c)[|a|] == c[0] && (a + c)[|a| - 1] == a[|a| - 1];
  }

  lemma {:induction false} StripsBefore(a: string, c: string)
    requires !Occurs(a, START) && c != "" && (c[0] == CR || (c[0] == LF && (a == "" || a[|a| - 1] != CR)))
    ensures Stripped(a + c) == a + Stripped(c)
  {
    hide MarkedAt, START;
    if a == "" {
      assert a + c == c;
    } else {
      NoneMarked(a, c);
      FirstAndRest(a, c);
      assert (a + c)[1..] == a[1..] + c;
      NotBehind(a, 1);
      StripsBefore(a[1..], c);
      FirstAndRest(a, Stripped(c));
    }
  }

  lemma OccursBehind(s: string, i: nat, p: string, j: int)
    requires i <= |s| && OccursAt(s[i..], p, j)
    ensures OccursAt(s, p, i + j)
  {
    assert s[i + j..i + j + |p|] == s[i..][j..j + |p|];
  }

  lemma NotBehind(s: string, i: nat)
    requires i <= |s| && !Occurs(s, START)
    ensures !Occurs(s[i..], START)
  {
    hide START, OccursAt;
    if Occurs(s[i..], START) {
      var j :| OccursAt(s[i..], START, j);
      OccursBehind(s, i, START, j);
    }
  }

  lemma OccursBefore(s: string, i: nat, p: string, j: int)
    requires i <= |s| && OccursAt(s[..i], p, j)
    ensures OccursAt(s, p, j)
  {
    assert s[j..j + |p|] == s[..i][j..j + |p|];
  }

  lemma NotBefore(s: string, i: nat)
    requires i <= |s| && !Occurs(s, START)
    ensures !Occurs(s[..i], START)
  {
    hide START, OccursAt;
    if Occurs(s[..i], START) {
      var j :| OccursAt(s[..i], START, j);
      OccursBefore(s, i, START, j);
    }
  }

  lemma {:induction false} NothingToStrip(s: string)
    requires !Occurs(s, START)
    ensures Stripped(s) == s
  {
    hide START, FINISH, LineEnd, BlankRun;
    if s != "" {
      var from := LineEnd(s) + BlankRun(s[LineEnd(s)..]);
      NotBehind(s, from);
      assert !StartsWith(s[from..], START);
      NotBehind(s, 1);
      NothingToStrip(s[1..]);
    }
  }

  lemma MiddleHasNoMarker()
    ensures forall i :: 0 <= i < |MIDDLE| ==> MIDDLE[i] != '#'
  {
    hide LOCATION, DIRECTIVES, INDENT, NoServer, NoBraces;
    LocationIsTame();
    DirectivesAreTame();
  }

  lemma Suffix(p: string, q: string)
    ensures (p + q)[|p|..] == q
  {
  }

  lemma SuffixOf(s: string, i: nat, p: string, q: string)
    requires i <= |s| && s[i..] == p + q
    ensures i + |p| <= |s| && s[i + |p|..] == q
  {
    assert s[i + |p|..] == s[i..][|p|..];
  }

  lemma MarkedIs(s: string, lead: nat, indent: nat, i: nat, n: nat)
    requires LineEnd(s) == lead && BlankRun(s[lead..]) == indent && StartsWith(s[lead + indent..], START)
    requires lead + indent + |START| <= |s| && IndexOf(s[lead + indent + |START|..], FINISH) == Some(i)
    requires
      var to := lead + indent + |START| + i + |FINISH|;
      to <= |s| && LineEnd(s[to..]) == n
    ensures MarkedAt(s) == Some(lead + indent + |START| + i + |FINISH| + n)
  {
    hide START, FINISH, LineEnd, BlankRun, StartsWith, IndexOf;
  }

  /** The block with a line end before it and one after it is matched exactly. */
  lemma BlockMarked(lead: string, b: string)
    requires lead == "\n" || lead == "\r\n"
    requires b != "" && b[0] == '}'
    ensures MarkedAt(lead + (BLOCK + ("\n" + b))) == Some(|lead| + |BLOCK| + 1)
  {
    hide START, FINISH, MIDDLE, INDENT, BLOCK, LineEnd, BlankRun, StartsWith, MarkedAt, IndexOf;
    var behind := "\n" + b;
    var rest := MIDDLE + (FINISH + behind);
    BlockSplit(lead, behind);
    BlockLead(lead, rest);
    StartsItself(START, rest);
    FinishFirst(behind);
    OneLineEnd(b);
    MarkedByParts(lead + (INDENT + (START + rest)), lead, INDENT, MIDDLE, behind);
  }

  lemma MarkedByParts(s: string, lead: string, indent: string, middle: string, behind: string)
    requires s == lead + (indent + (START + (middle + (FINISH + behind))))
    requires LineEnd(s) == |lead| && BlankRun(s[|lead|..]) == |indent|
    requires StartsWith(START + (middle + (FINISH + behind)), START)
    requires IndexOf(middle + (FINISH + behind), FINISH) == Some(|middle|) && LineEnd(behind) == 1
    ensures MarkedAt(s) == Some(|lead| + |indent| + |START| + |middle| + |FINISH| + 1)
  {
    hide START, FINISH, LineEnd, BlankRun, StartsWith, MarkedAt, IndexOf;
    FiveSuffixes(s, lead, indent, START, middle, FINISH, behind);
    MarkedIs(s, |lead|, |indent|, |middle|, 1);
  }

  lemma FiveSuffixes(s: string, a: string, b: string, c: string, d: string, e: string, f: string)
    requires s == a + (b + (c + (d + (e + f))))
    ensures |s| == |a| + |b| + |c| + |d| + |e| + |f| && s[|a|..] == b + (c + (d + (e + f)))
    ensures s[|a| + |b|..] == c + (d + (e + f)) && s[|a| + |b| + |c|..] == d + (e + f)
    ensures s[|a| + |b| + |c| + |d| + |e|..] == f
  {
    Suffix(a, b + (c + (d + (e + f))));
    SuffixOf(s, |a|, b, c + (d + (e + f)));
    SuffixOf(s, |a| + |b|, c, d + (e + f));
    SuffixOf(s, |a| + |b| + |c|, d, e + f);
    SuffixOf(s, |a| + |b| + |c| + |d|, e, f);
  }

  lemma StartsItself(p: string, rest: string)
    ensures StartsWith(p + rest, p)
  {
  }

  lemma BlockSplit(lead: string, behind: string)
    ensures lead + (BLOCK + behind) == lead + (INDENT + (START + (MIDDLE + (FINISH + behind))))
    ensures |BLOCK| == |INDENT| + |START| + |MIDDLE| + |FINISH|
  {
    hide START, FINISH, MIDDLE, INDENT;
    FourParts(lead, INDENT, START, MIDDLE, FINISH, behind);
  }

  lemma FourParts(lead: string, a: string, b: string, c: string, d: string, behind: string)
    ensures lead + (a + b + c + d + behind) == lead + (a + (b + (c + (d + behind))))
  {
  }

  lemma BlockLead(lead: string, rest: string)
    requires lead == "\n" || lead == "\r\n"
    ensures
      var s := lead + (INDENT + (START + rest));
      LineEnd(s) == |lead| && BlankRun(s[|lead|..]) == |INDENT|
  {
    hide START;
    MarkersAreComments();
    var s := lead + (INDENT + (START + rest));
    assert s[|lead|..] == INDENT + (START + rest);
    FourBlanks(START + rest);
    assert s[0] == lead[0] && s[|lead| - 1] == LF;
  }

  lemma FourBlanks(c: string)
    requires c != "" && c[0] == '#'
    ensures BlankRun(INDENT + c) == |INDENT|
  {
    var s := INDENT + c;
    assert s[1..][1..][1..][1..] == c;
    assert BlankRun(c) == 0;
    assert s[0] == ' ' && s[1..][0] == ' ' && s[1..][1..][0] == ' ' && s[1..][1..][1..][0] == ' ';
    assert BlankRun(s[1..][1..][1..]) == 1;
    assert BlankRun(s[1..][1..]) == 2;
    assert BlankRun(s[1..]) == 3;
  }

  lemma FinishFirst(behind: string)
    ensures IndexOf(MIDDLE + (FINISH + behind), FINISH) == Some(|MIDDLE|)
  {
    hide FINISH, MIDDLE;
    MarkersAreComments();
    MiddleHasNoMarker();
    var s := MIDDLE + (FINISH + behind);
    assert s[|MIDDLE|..|MIDDLE| + |FINISH|] == FINISH;
    assert OccursAt(s, FINISH, |MIDDLE|);
    forall j | 0 <= j < |MIDDLE|
      ensures !OccursAt(s, FINISH, j)
    {
      assert s[j] == MIDDLE[j];
      assert j + |FINISH| <= |s| ==> s[j..j + |FINISH|][0] == s[j];
    }
  }

  lemma OneLineEnd(b: string)
    requires b != "" && b[0] == '}'
    ensures LineEnd("\n" + b) == 1
  {
  }

  /** Stripping takes the block out again, and with it a carriage return right before it. */
  lemma StripsInserted(a: string, b: string)
    requires !Occurs(a, START) && !Occurs(b, START) && b != "" && b[0] == '}'
    ensures Stripped(a + "\n" + BLOCK + "\n" + b) == (if a != "" && a[|a| - 1] == CR then a[..|a| - 1] else a) + b
  {
    hide START, BLOCK, Stripped, Occurs;
    if a != "" && a[|a| - 1] == CR {
      StripsAfterReturn(a, b);
    } else {
      StripsPlain(a, b);
    }
  }

  lemma StripsAfterReturn(a: string, b: string)
    requires !Occurs(a, START) && !Occurs(b, START) && b != "" && b[0] == '}'
    requires a != "" && a[|a| - 1] == CR
    ensures Stripped(a + "\n" + BLOCK + "\n" + b) == a[..|a| - 1] + b
  {
    hide START, BLOCK, Stripped, Occurs;
    NotBefore(a, |a| - 1);
    InsertedAfterReturn(a, BLOCK, b);
    StripsWithLead(a[..|a| - 1], "\r\n", b);
  }

  lemma StripsPlain(a: string, b: string)
    requires !Occurs(a, START) && !Occurs(b, START) && b != "" && b[0] == '}'
    requires a == "" || a[|a| - 1] != CR
    ensures Stripped(a + "\n" + BLOCK + "\n" + b) == a + b
  {
    hide START, BLOCK, Stripped, Occurs;
    InsertedParts(a, BLOCK, b);
    StripsWithLead(a, "\n", b);
  }

  lemma InsertedParts(a: string, block: string, b: string)
    ensures a + "\n" + block + "\n" + b == a + ("\n" + (block + ("\n" + b)))
  {
  }

  lemma InsertedAfterReturn(a: string, block: string, b: string)
    requires a != "" && a[|a| - 1] == CR
    ensures a + "\n" + block + "\n" + b == a[..|a| - 1] + ("\r\n" + (block + ("\n" + b)))
  {
    var front := a[..|a| - 1];
    assert a == front + "\r";
    InsertedParts(a, block, b);
    assert "\r\n" == "\r" + "\n";
    Regroup("\r", "\n", block + ("\n" + b));
    Regroup(front, "\r", "\n" + (block + ("\n" + b)));
  }

  lemma StripsWithLead(front: string, lead: string, b: string)
    requires !Occurs(front, START) && !Occurs(b, START) && b != "" && b[0] == '}'
    requires lead == "\r\n" || (lead == "\n" && (front == "" || front[|front| - 1] != CR))
    ensures Stripped(front + (lead + (BLOCK + ("\n" + b)))) == front + b
  {
    hide START, BLOCK, Stripped, Occurs;
    var behind := BLOCK + ("\n" + b);
    LeadBegins(lead, behind);
    StripsBefore(front, lead + behind);
    StripsToRest(lead, b);
    NothingToStrip(b);
  }

  lemma StripsToRest(lead: string, b: string)
    requires (lead == "\r\n" || lead == "\n") && b != "" && b[0] == '}'
    ensures Stripped(lead + (BLOCK + ("\n" + b))) == Stripped(b)
  {
    hide MarkedAt, BLOCK, Stripped;
    BlockMarked(lead, b);
    StripsMarked(lead + (BLOCK + ("\n" + b)), |lead| + |BLOCK| + 1);
    BehindThree(lead, BLOCK, b);
  }

  lemma BehindThree(lead: string, block: string, b: string)
    ensures (lead + (block + ("\n" + b)))[|lead| + |block| + 1..] == b
  {
    var whole := lead + (block + ("\n" + b));
    Suffix(lead, block + ("\n" + b));
    SuffixOf(whole, |lead|, block, "\n" + b);
    SuffixOf(whole, |lead| + |block|, "\n", b);
  }

  lemma LeadBegins(lead: string, rest: string)
    requires lead != ""
    ensures lead + rest != "" && (lead + rest)[0] == lead[0]
  {
  }

  lemma StripsMarked(s: string, n: nat)
    requires MarkedAt(s) == Some(n)
    ensures Stripped(s) == Stripped(s[n..])
  {
    hide MarkedAt;
  }

  // ---- What rendering does ----

  /** The block of a marker-free text that listens on 8443, if it is the one that does. */
  function Target(t: string): Option<Block> {
    ScanBounds(Mask(t), false, 0);
    var blocks := Listening(Mask(t), ServerBlocks(t));
    if |blocks| == 1 then Some(blocks[0]) else None
  }

  predicate ListensAt(masked: string, b: Block) {
    0 <= b.start <= b.end < |masked| && Listens(masked[b.start..b.end + 1])
  }

  lemma {:induction false} ListeningMeans(masked: string, blocks: seq<Block>)
    requires AllIn(masked, 0, blocks)
    ensures forall b :: b in Listening(masked, blocks) <==> b in blocks && ListensAt(masked, b)
  {
    hide Listens;
    if blocks != [] {
      var front, last := blocks[..|blocks| - 1], blocks[|blocks| - 1];
      assert blocks == front + [last];
      ListeningMeans(masked, front);
    }
  }

  /** The block the proxy goes into listens on 8443, and no other server block does. */
  lemma TargetListens(t: string, b: Block)
    requires Target(t).Some? && b in ServerBlocks(t)
    ensures b.end < |t| && (ListensAt(Mask(t), b) <==> b == Target(t).value)
  {
    hide Listens, Mask, Scan;
    ScanBounds(Mask(t), false, 0);
    ListeningMeans(Mask(t), ServerBlocks(t));
    var blocks := Listening(Mask(t), ServerBlocks(t));
    assert blocks == [Target(t).value];
    assert b in blocks <==> b == Target(t).value;
  }

  /** What stands before the brace that the block goes in front of, and what from the brace on. */
  lemma TargetBrace(t: string)
    requires Target(t).Some?
    ensures
      var b := Target(t).value;
      && b.start < b.end < |t| && Mask(t)[b.end] == '}' && t[b.end] == '}'
  {
    hide Scan, Listens, Mask, Listening, AllIn;
    ScanBounds(Mask(t), false, 0);
    var blocks := Listening(Mask(t), ServerBlocks(t));
    InText(Mask(t), blocks, 0);
    MaskCut(t, Target(t).value.end);
  }

  lemma InText(masked: string, blocks: seq<Block>, i: nat)
    requires AllIn(masked, 0, blocks) && i < |blocks|
    ensures blocks[i].start < blocks[i].end < |masked| && masked[blocks[i].end] == '}'
  {
  }

  lemma RenderedIs(t: string)
    requires !Occurs(t, START) && Rendered(t, true).Ok?
    ensures Target(t).Some? && Target(t).value.end < |t|
    ensures Rendered(t, true).value == t[..Target(t).value.end] + "\n" + BLOCK + "\n" + t[Target(t).value.end..]
  {
    hide START, BLOCK, Stripped, Conflicts, ServerBlocks, Listening;
    NothingToStrip(t);
    TargetBrace(t);
  }

  /**
   * Turning the proxy on and off again gives back the text exactly when there is no carriage return right before the brace
   * that closes the 8443 block; and then turning it on a second time changes nothing.
   */
  lemma ProxyRoundTrip(t: string)
    requires !Occurs(t, START) && Rendered(t, true).Ok?
    ensures Target(t).Some? && Target(t).value.end < |t|
    ensures
      var out, p := Rendered(t, true).value, Target(t).value.end;
      && (Rendered(out, false) == Ok(t) <==> !(p > 0 && t[p - 1] == CR))
      && (!(p > 0 && t[p - 1] == CR) ==> Rendered(out, true) == Ok(out))
  {
    hide START, BLOCK, Stripped, Rendered, Target, Occurs;
    RenderedIs(t);
    TargetBrace(t);
    var p := Target(t).value.end;
    NotBefore(t, p);
    NotBehind(t, p);
    StripsInserted(t[..p], t[p..]);
    CutBack(t, p);
    SameUpstream(t, Rendered(t, true).value);
  }

  /** Without the character before the cut the text is a shorter one. */
  lemma CutBack(t: string, p: nat)
    requires p < |t|
    ensures t[..p] + t[p..] == t
    ensures p > 0 ==> t[..p] != "" && t[..p][|t[..p]| - 1] == t[p - 1] && t[..p][..|t[..p]| - 1] + t[p..] != t
    ensures t[p..] != "" && t[p..][0] == t[p]
  {
    assert p > 0 ==> |t[..p][..|t[..p]| - 1] + t[p..]| == |t| - 1;
  }

  lemma SameUpstream(t: string, out: string)
    requires !Occurs(t, START)
    ensures Stripped(out) == t ==> Rendered(out, true) == Rendered(t, true)
    ensures Rendered(out, false) == Ok(Stripped(out))
  {
    hide START, BLOCK, Stripped, Conflicts, ServerBlocks, Listening;
    NothingToStrip(t);
  }

  /**
   * With the proxy on, the masked text is the masked text from before with the location at the end of the 8443 block, and
   * the server blocks are those from before, that one longer by it and those behind it further on.
   */
  lemma ProxyKeepsBlocks(t: string)
    requires !Occurs(t, START) && Rendered(t, true).Ok?
    ensures Target(t).Some? && Target(t).value.end < |t|
    ensures
      var out, p := Rendered(t, true).value, Target(t).value.end;
      && Mask(out) == Mask(t)[..p] + Masked() + Mask(t)[p..]
      && ServerBlocks(out) == Moved(ServerBlocks(t), p, |Masked()|)
  {
    hide START, BLOCK, Stripped, Rendered, Listening, Mask, ServerBlocks, Masked, Moved, Target, Occurs;
    RenderedIs(t);
    TargetBrace(t);
    MaskWithBlock(t, Target(t).value.end);
    BlocksWithBlock(t, Target(t).value.end);
  }

  lemma MaskWithBlock(t: string, p: nat)
    requires p < |t| && Mask(t)[p] == '}'
    ensures Mask(t[..p] + "\n" + BLOCK + "\n" + t[p..]) == Mask(t)[..p] + Masked() + Mask(t)[p..]
    ensures Mask(t)[..p] == Mask(t[..p]) && Mask(t)[p..] == Mask(t[p..])
  {
    hide BLOCK, Mask, Masked;
    MaskInserted(t, p, BLOCK);
    MaskBlock();
    MaskCut(t, p);
    CutAt(Mask(t[..p]), Mask(t[p..]), Mask(t));
  }

  lemma BlocksWithBlock(t: string, p: nat)
    requires p < |t| && Mask(t)[p] == '}'
    ensures ServerBlocks(t[..p] + "\n" + BLOCK + "\n" + t[p..]) == Moved(ServerBlocks(t), p, |Masked()|)
  {
    hide BLOCK, Mask, Scan, Masked, Inert, Moved, InFrontOf, Before, Within, After;
    var a, b, w := Mask(t)[..p], Mask(t)[p..], Masked();
    MaskWithBlock(t, p);
    MaskedIsInert();
    Regroup(a, w, b);
    assert b[0] == '}' && a + b == Mask(t);
    InertInFront(w, Before(), Within(), After(), b);
    ScanInserted(a, b, w + b, w, Before(), Within(), After(), false, 0);
  }
}
