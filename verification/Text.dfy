/** Outcomes: an optional value, and a value or the reason there is none. */
module Outcomes {
  datatype Option<+T> = None | Some(value: T)

  datatype Result<+T, +E> = Ok(value: T) | Err(error: E) {
    predicate IsFailure() {
      Err?
    }

    function PropagateFailure<U>(): Result<U, E>
      requires Err?
    {
      Err(error)
    }

    function Extract(): T
      requires Ok?
    {
      value
    }
  }
}

/** Bytes, of a file, a socket or a session. */
module Octets {
  type Byte = b: int | 0 <= b < 256

  type Bytes = seq<Byte>
}

/** Strings as the program searches them: occurrences, first and last index, replacement of ends. */
module Text {
  import opened Outcomes

  const LF: char := '\n'
  const CR: char := '\r'

  predicate OccursAt(s: string, p: string, i: int) {
    0 <= i && i + |p| <= |s| && s[i..i + |p|] == p
  }

  ghost predicate Occurs(s: string, p: string) {
    exists i :: OccursAt(s, p, i)
  }

  predicate StartsWith(s: string, p: string) {
    OccursAt(s, p, 0)
  }

  predicate EndsWith(s: string, p: string) {
    OccursAt(s, p, |s| - |p|)
  }

  /** The first occurrence of `p` at or after `from`. */
  function IndexFrom(s: string, p: string, from: nat): (r: Option<nat>)
    ensures r.Some? ==> from <= r.value && OccursAt(s, p, r.value)
    ensures r.Some? ==> forall j :: from <= j < r.value ==> !OccursAt(s, p, j)
    ensures r.None? ==> forall j :: from <= j ==> !OccursAt(s, p, j)
    decreases |s| - from
  {
    if from + |p| > |s| then None
    else if OccursAt(s, p, from) then Some(from)
    else IndexFrom(s, p, from + 1)
  }

  function IndexOf(s: string, p: string): (r: Option<nat>)
    ensures r.Some? <==> Occurs(s, p)
    ensures r.Some? ==> OccursAt(s, p, r.value) && forall j :: 0 <= j < r.value ==> !OccursAt(s, p, j)
  {
    IndexFrom(s, p, 0)
  }

  /** The last occurrence of `p` that starts at or before `upTo`. */
  function LastIndexFrom(s: string, p: string, upTo: int): (r: Option<nat>)
    ensures r.Some? ==> r.value <= upTo && OccursAt(s, p, r.value)
    ensures r.Some? ==> forall j :: r.value < j <= upTo ==> !OccursAt(s, p, j)
    ensures r.None? ==> forall j :: j <= upTo ==> !OccursAt(s, p, j)
    decreases upTo + 1
  {
    if upTo < 0 then None
    else if OccursAt(s, p, upTo) then Some(upTo)
    else LastIndexFrom(s, p, upTo - 1)
  }

  function LastIndexOf(s: string, p: string): (r: Option<nat>)
    ensures r.Some? <==> Occurs(s, p)
    ensures r.Some? ==> OccursAt(s, p, r.value) && forall j :: r.value < j ==> !OccursAt(s, p, j)
  {
    LastIndexFrom(s, p, |s| - |p|)
  }

  predicate Contains(s: string, p: string)
    ensures Contains(s, p) <==> Occurs(s, p)
  {
    IndexOf(s, p).Some?
  }

  /** JavaScript's `\s`. */
  predicate IsSpace(c: char) {
    c == ' ' || '\t' <= c <= '\r' || c == '\U{00A0}' || c == '\U{1680}' || '\U{2000}' <= c <= '\U{200A}'
    || c == '\U{2028}' || c == '\U{2029}' || c == '\U{202F}' || c == '\U{205F}' || c == '\U{3000}' || c == '\U{FEFF}'
  }

  /** What JavaScript's `.` does not match. */
  predicate IsLineTerminator(c: char) {
    c == LF || c == CR || c == '\U{2028}' || c == '\U{2029}'
  }

  predicate IsBlank(c: char) {
    c == ' ' || c == '\t'
  }

  /** From `i` on, the text is `rest`. */
  ghost predicate RestIs(s: string, i: nat, rest: string) {
    i <= |s| && s[i..] == rest
  }

  lemma OccursChar(s: string, p: string, m: int, k: nat)
    requires OccursAt(s, p, m) && k < |p|
    ensures s[m + k] == p[k]
  {
    assert s[m + k] == s[m..m + |p|][k];
  }

  lemma Drop(s: string, i: nat, a: string, b: string)
    requires RestIs(s, i, a + b)
    ensures RestIs(s, i + |a|, b) && OccursAt(s, a, i)
  {
    assert s[i + |a|..] == s[i..][|a|..];
    assert s[i..i + |a|] == s[i..][..|a|];
  }
}
