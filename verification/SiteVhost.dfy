/** The placeholder map of cli/site-vhost.ts: learned from a stored template and its rendered vhost, and rendered again. */
module SiteVhost {
  import opened Outcomes
  import opened Text

  /** A template cut at its placeholders: one literal more than keys. */
  datatype Parts = Parts(literals: seq<string>, keys: seq<string>)
  {
    ghost predicate Valid() {
      |literals| == |keys| + 1
    }
  }

  datatype Reason =
    | Unclosed
    | InvalidKey(key: string)
    | UnknownKey(key: string)
    | Adjacent(first: string, second: string)
    | NoTextBefore(key: string)
    | NoTextAfter(key: string)
    | NoEnd(key: string)
    | Ambiguous(key: string)
    | NotConsumed

  type Mapping = map<string, string>

  const CF_INCLUDE := "include /etc/nginx/cloudflare/ips;"
  const ACCESS_LOG := "nginx_access_log"

  predicate IsKeyChar(c: char) {
    'a' <= c <= 'z' || 'A' <= c <= 'Z' || '0' <= c <= '9' || c == '_'
  }

  predicate ValidKey(key: string) {
    key != [] && forall i :: 0 <= i < |key| ==> IsKeyChar(key[i])
  }

  // ---- Cutting a template ----

  /** The first placeholder: the text before it, its key, and the text behind it. */
  datatype Placeholder = Placeholder(before: string, key: string, behind: string)

  function NextPlaceholder(rest: string): (r: Option<Result<Placeholder, Reason>>)
    ensures r.Some? && r.value.Ok? ==> |r.value.value.behind| < |rest|
  {
    match IndexOf(rest, "{{")
    case None => None
    case Some(start) =>
      var after := rest[start + 2..];
      match IndexOf(after, "}}")
      case None => Some(Err(Unclosed))
      case Some(end) =>
        if ValidKey(after[..end]) then Some(Ok(Placeholder(rest[..start], after[..end], after[end + 2..])))
        else Some(Err(InvalidKey(after[..end])))
  }

  /** A placeholder and what is around it are the text. */
  lemma PlaceholderParts(rest: string)
    requires NextPlaceholder(rest).Some? && NextPlaceholder(rest).value.Ok?
    ensures
      var p := NextPlaceholder(rest).value.value;
      rest == p.before + ("{{" + (p.key + ("}}" + p.behind))) && ValidKey(p.key)
  {
    hide IndexOf, ValidKey;
    var start := IndexOf(rest, "{{").value;
    var after := rest[start + 2..];
    CutAround(rest, "{{", start);
    CutAround(after, "}}", IndexOf(after, "}}").value);
  }

  lemma CutAround(s: string, p: string, i: nat)
    requires OccursAt(s, p, i)
    ensures i + |p| <= |s| && s == s[..i] + (p + s[i + |p|..])
  {
  }

  function Split(rest: string): (r: Result<Parts, Reason>)
    ensures r.Ok? ==> r.value.Valid()
    decreases |rest|
  {
    match NextPlaceholder(rest)
    case None => Ok(Parts([rest], []))
    case Some(Err(e)) => Err(e)
    case Some(Ok(p)) =>
      match Split(p.behind)
      case Err(e) => Err(e)
      case Ok(parts) => Ok(Parts([p.before] + parts.literals, [p.key] + parts.keys))
  }

  // ---- Matching forward, leftmost first ----

  predicate TakesCloudflare(p: Parts, i: nat, rest: string, position: nat)
    requires p.Valid() && i + 1 < |p.keys| && position + |p.literals[i + 1]| <= |rest|
  {
    p.keys[i] == ACCESS_LOG
    && StartsWith(rest[position + |p.literals[i + 1]|..], CF_INCLUDE + p.literals[i + 1])
  }

  /** The length of the value of key `i`, where `rest` follows the literal before it. */
  function ValueLength(p: Parts, i: nat, rest: string): (r: Result<nat, Reason>)
    requires p.Valid() && i < |p.keys|
    ensures r.Ok? ==> r.value <= |rest|
  {
    var next := p.literals[i + 1];
    if i + 1 < |p.keys| then
      match IndexOf(rest, next)
      case None => Err(NoTextAfter(p.keys[i]))
      case Some(position) =>
        if TakesCloudflare(p, i, rest, position) then Ok(position + |next| + |CF_INCLUDE|) else Ok(position)
    else if EndsWith(rest, next) then Ok(|rest| - |next|)
    else Err(NoEnd(p.keys[i]))
  }

  function Forward(p: Parts, i: nat, remaining: string, seen: Mapping): Result<Mapping, Reason>
    requires p.Valid() && i <= |p.keys|
    decreases |p.keys| - i
  {
    if i == |p.keys| then
      if remaining != p.literals[i] then Err(NotConsumed) else Ok(seen)
    else if !StartsWith(remaining, p.literals[i]) then Err(NoTextBefore(p.keys[i]))
    else
      var rest := remaining[|p.literals[i]|..];
      match ValueLength(p, i, rest)
      case Err(e) => Err(e)
      case Ok(n) =>
        if p.keys[i] in seen && seen[p.keys[i]] != rest[..n] then Err(Ambiguous(p.keys[i]))
        else Forward(p, i + 1, rest[n..], seen[p.keys[i] := rest[..n]])
  }

  // ---- Matching backward, rightmost first ----

  /** Where the literal before the last of `i` keys starts and ends in `before`. */
  function LiteralBefore(p: Parts, i: nat, before: string): (r: Option<(nat, nat)>)
    requires p.Valid() && 0 < i <= |p.keys|
    ensures r.Some? ==> r.value.0 <= r.value.1 <= |before|
  {
    var literal := p.literals[i - 1];
    if literal == "" then Some((0, 0))
    else
      match LastIndexOf(before, literal)
      case None => None
      case Some(position) => Some((position, position + |literal|))
  }

  /** The values of the first `i` keys, where `before` is what precedes the literal behind the last of them. */
  function Backward(p: Parts, i: nat, before: string, seen: Mapping): Result<Mapping, Reason>
    requires p.Valid() && i <= |p.keys|
  {
    if i == 0 then
      if before != "" then Err(NotConsumed) else Ok(seen)
    else
      var key := p.keys[i - 1];
      match LiteralBefore(p, i, before)
      case None => Err(NoTextBefore(key))
      case Some((from, to)) =>
        if key in seen && seen[key] != before[to..] then Err(Ambiguous(key))
        else Backward(p, i - 1, before[..from], seen[key := before[to..]])
  }

  // ---- Learning ----

  function FirstAdjacent(p: Parts, i: nat): (r: Option<nat>)
    requires p.Valid() && 0 < i
    ensures r.Some? ==> i <= r.value < |p.keys| && p.literals[r.value] == ""
    ensures r.None? ==> forall k :: i <= k < |p.keys| ==> p.literals[k] != ""
    decreases |p.keys| - i
  {
    if i >= |p.keys| then None else if p.literals[i] == "" then Some(i) else FirstAdjacent(p, i + 1)
  }

  predicate Differ(keys: seq<string>, forward: Mapping, backward: Mapping, i: int) {
    0 <= i < |keys| && keys[i] in forward && (keys[i] !in backward || backward[keys[i]] != forward[keys[i]])
  }

  /** Accepts two maps that agree, or reports the first key on which they do not. */
  function Agreed(keys: seq<string>, forward: Mapping, backward: Mapping): (r: Result<Mapping, Reason>)
    ensures r.Ok? ==> r.value == forward && forall i :: 0 <= i < |keys| && keys[i] in forward ==>
      keys[i] in backward && backward[keys[i]] == forward[keys[i]]
    ensures r.Err? ==> exists i :: Differ(keys, forward, backward, i)
  {
    if keys == [] then Ok(forward)
    else if Differ(keys, forward, backward, 0) then Err(Ambiguous(keys[0]))
    else
      var r := Agreed(keys[1..], forward, backward);
      assert r.Err? ==> exists i :: Differ(keys, forward, backward, i) by {
        if r.Err? {
          var i :| Differ(keys[1..], forward, backward, i);
          assert Differ(keys, forward, backward, i + 1);
        }
      }
      assert r.Err? || Differ(keys, forward, backward, 0) ==> exists i :: Differ(keys, forward, backward, i);
      r
  }

  function WithoutNewline(rendered: string): string {
    if EndsWith(rendered, "\n") then rendered[..|rendered| - 1] else rendered
  }

  function LearnParts(p: Parts, rendered: string): Result<Mapping, Reason>
    requires p.Valid()
  {
    if |p.keys| == 0 then Ok(map[])
    else match FirstAdjacent(p, 1)
      case Some(i) => Err(Adjacent(p.keys[i - 1], p.keys[i]))
      case None =>
        match Forward(p, 0, rendered, map[])
        case Err(e) => Err(e)
        case Ok(forward) =>
          var last := p.literals[|p.keys|];
          if !EndsWith(rendered, last) then Err(NoEnd(p.keys[|p.keys| - 1]))
          else
            match Backward(p, |p.keys|, rendered[..|rendered| - |last|], map[])
            case Err(e) => Err(e)
            case Ok(backward) => Agreed(p.keys, forward, backward)
  }

  function Learn(template: string, rendered: string): Result<Mapping, Reason> {
    match Split(template)
    case Err(e) => Err(e)
    case Ok(p) => LearnParts(p, WithoutNewline(rendered))
  }

  // ---- Rendering ----

  function Render(body: string, mapping: Mapping): Result<string, Reason>
    decreases |body|
  {
    match NextPlaceholder(body)
    case None => Ok(body)
    case Some(Err(e)) => Err(e)
    case Some(Ok(p)) =>
      if p.key !in mapping then Err(UnknownKey(p.key))
      else match Render(p.behind, mapping)
        case Err(e) => Err(e)
        case Ok(rest) => Ok(p.before + mapping[p.key] + rest)
  }

  // ---- The loops of the program ----

  function Prepended(literals: seq<string>, keys: seq<string>, r: Result<Parts, Reason>): Result<Parts, Reason> {
    match r
    case Err(e) => Err(e)
    case Ok(p) => Ok(Parts(literals + p.literals, keys + p.keys))
  }

  method SplitTemplate(template: string) returns (r: Result<Parts, Reason>)
    ensures r == Split(template)
  {
    hide NextPlaceholder;
    var literals: seq<string>, keys: seq<string> := [], [];
    var rest := template;
    PrependNothing(Split(template));
    while true
      invariant Split(template) == Prepended(literals, keys, Split(rest))
      decreases |rest|
    {
      match NextPlaceholder(rest) {
        case None =>
          assert keys + [] == keys;
          return Ok(Parts(literals + [rest], keys));
        case Some(Err(e)) =>
          return Err(e);
        case Some(Ok(p)) =>
          PrependOne(literals, keys, p, Split(p.behind));
          literals := literals + [p.before];
          keys := keys + [p.key];
          rest := p.behind;
      }
    }
  }

  lemma PrependNothing(r: Result<Parts, Reason>)
    ensures Prepended([], [], r) == r
  {
    if r.Ok? {
      assert [] + r.value.literals == r.value.literals && [] + r.value.keys == r.value.keys;
    }
  }

  lemma PrependOne(literals: seq<string>, keys: seq<string>, p: Placeholder, r: Result<Parts, Reason>)
    ensures r.Ok? ==>
      Prepended(literals, keys, Ok(Parts([p.before] + r.value.literals, [p.key] + r.value.keys)))
        == Prepended(literals + [p.before], keys + [p.key], r)
  {
    if r.Ok? {
      assert literals + ([p.before] + r.value.literals) == literals + [p.before] + r.value.literals;
      assert keys + ([p.key] + r.value.keys) == keys + [p.key] + r.value.keys;
    }
  }

  /** One key of the forward match. */
  lemma ForwardStep(p: Parts, i: nat, remaining: string, seen: Mapping)
    requires p.Valid() && i < |p.keys|
    ensures !StartsWith(remaining, p.literals[i]) ==> Forward(p, i, remaining, seen) == Err(NoTextBefore(p.keys[i]))
    ensures StartsWith(remaining, p.literals[i]) ==> |p.literals[i]| <= |remaining|
    ensures StartsWith(remaining, p.literals[i]) ==>
      var rest := remaining[|p.literals[i]|..];
      Forward(p, i, remaining, seen) ==
        match ValueLength(p, i, rest)
        case Err(e) => Err(e)
        case Ok(n) =>
          if p.keys[i] in seen && seen[p.keys[i]] != rest[..n] then Err(Ambiguous(p.keys[i]))
          else Forward(p, i + 1, rest[n..], seen[p.keys[i] := rest[..n]])
  {
    hide ValueLength;
  }

  lemma ForwardEnd(p: Parts, remaining: string, seen: Mapping)
    requires p.Valid()
    ensures Forward(p, |p.keys|, remaining, seen) == if remaining != p.literals[|p.keys|] then Err(NotConsumed) else Ok(seen)
  {
  }

  method MatchForward(p: Parts, rendered: string) returns (r: Result<Mapping, Reason>)
    requires p.Valid()
    ensures r == Forward(p, 0, rendered, map[])
  {
    hide Forward, ValueLength, StartsWith;
    var forward: Mapping := map[];
    var remaining := rendered;
    var index := 0;
    while index < |p.keys|
      invariant index <= |p.keys|
      invariant Forward(p, 0, rendered, map[]) == Forward(p, index, remaining, forward)
    {
      ForwardStep(p, index, remaining, forward);
      var key, literal := p.keys[index], p.literals[index];
      if !StartsWith(remaining, literal) {
        return Err(NoTextBefore(key));
      }
      remaining := remaining[|literal|..];
      var length := ValueLength(p, index, remaining);
      if length.Err? {
        return Err(length.error);
      }
      var value := remaining[..length.value];
      remaining := remaining[length.value..];
      if key in forward && forward[key] != value {
        return Err(Ambiguous(key));
      }
      forward := forward[key := value];
      index := index + 1;
    }
    ForwardEnd(p, remaining, forward);
    return if remaining != p.literals[index] then Err(NotConsumed) else Ok(forward);
  }

  method MatchBackward(p: Parts, body: string) returns (r: Result<Mapping, Reason>)
    requires p.Valid()
    ensures r == Backward(p, |p.keys|, body, map[])
  {
    var backward: Mapping := map[];
    var before := body;
    var index: nat := |p.keys|;
    while index > 0
      invariant index <= |p.keys|
      invariant Backward(p, |p.keys|, body, map[]) == Backward(p, index, before, backward)
    {
      hide LiteralBefore;
      var key := p.keys[index - 1];
      var literal := LiteralBefore(p, index, before);
      if literal.None? {
        return Err(NoTextBefore(key));
      }
      var (from, to) := literal.value;
      var value := before[to..];
      before := before[..from];
      if key in backward && backward[key] != value {
        return Err(Ambiguous(key));
      }
      backward := backward[key := value];
      index := index - 1;
    }
    return if before != "" then Err(NotConsumed) else Ok(backward);
  }

  method LearnVhostMapContent(template: string, rendered: string) returns (r: Result<Mapping, Reason>)
    ensures r == Learn(template, rendered)
  {
    hide Split, Forward, Backward, EndsWith;
    var split := SplitTemplate(template);
    if split.Err? {
      return Err(split.error);
    }
    var p := split.value;
    if |p.keys| == 0 {
      return Ok(map[]);
    }
    var index := 1;
    while index < |p.keys|
      invariant 1 <= index <= |p.keys|
      invariant FirstAdjacent(p, 1) == FirstAdjacent(p, index)
    {
      if p.literals[index] == "" {
        return Err(Adjacent(p.keys[index - 1], p.keys[index]));
      }
      index := index + 1;
    }
    var content := WithoutNewline(rendered);
    var forward := MatchForward(p, content);
    if forward.Err? {
      return Err(forward.error);
    }
    var last := p.literals[|p.keys|];
    if !EndsWith(content, last) {
      return Err(NoEnd(p.keys[|p.keys| - 1]));
    }
    EndIsShort(content, last);
    var backward := MatchBackward(p, content[..|content| - |last|]);
    if backward.Err? {
      return Err(backward.error);
    }
    return Agreed(p.keys, forward.value, backward.value);
  }

  lemma EndIsShort(s: string, p: string)
    requires EndsWith(s, p)
    ensures |p| <= |s|
  {
  }

  method RenderVhostBody(body: string, mapping: Mapping) returns (r: Result<string, Reason>)
    ensures r == Render(body, mapping)
  {
    hide NextPlaceholder;
    var output := "";
    var rest := body;
    AppendNothing(Render(body, mapping));
    while true
      invariant Render(body, mapping) == match Render(rest, mapping) case Err(e) => Err(e) case Ok(text) => Ok(output + text)
      decreases |rest|
    {
      match NextPlaceholder(rest) {
        case None =>
          return Ok(output + rest);
        case Some(Err(e)) =>
          return Err(e);
        case Some(Ok(p)) =>
          if p.key !in mapping {
            return Err(UnknownKey(p.key));
          }
          AppendOne(output, p, mapping[p.key], Render(p.behind, mapping));
          output := output + p.before + mapping[p.key];
          rest := p.behind;
      }
    }
  }

  lemma AppendNothing(r: Result<string, Reason>)
    ensures r == match r case Err(e) => Err(e) case Ok(text) => Ok("" + text)
  {
    if r.Ok? {
      assert "" + r.value == r.value;
    }
  }

  lemma AppendOne(output: string, p: Placeholder, value: string, r: Result<string, Reason>)
    ensures r.Ok? ==> output + (p.before + value + r.value) == output + p.before + value + r.value
  {
  }
}
