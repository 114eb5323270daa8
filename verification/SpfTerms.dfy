/** The terms of an SPF record as they are written (RFC 7208, sections 4.6.1, 5 and 6): what is read as a modifier, as a
  * mechanism of which kind and sender, and what a record may hold. */
module SpfTerms {
  import opened Outcomes
  import opened Text
  import opened Spf
  import opened SpfProofs

  // ---- Characters, by their ASCII codes ----

  lemma CharactersAre(c: char)
    ensures IsLetter(c) <==> 0x41 <= c as int <= 0x5A || 0x61 <= c as int <= 0x7A
    ensures IsDecimal(c) <==> 0x30 <= c as int <= 0x39
    ensures IsNameChar(c) <==> IsLetter(c) || IsDecimal(c) || c == '_' || c == '.' || c == '-'
    ensures Lower(c) as int == c as int + (if 0x41 <= c as int <= 0x5A then 0x20 else 0)
  {
  }

  lemma {:induction false} LoweredAppend(a: string, b: string)
    ensures Lowered(a + b) == Lowered(a) + Lowered(b)
  {
    hide Lower;
    if a == "" {
      assert a + b == b;
    } else {
      assert (a + b)[1..] == a[1..] + b;
      LoweredAppend(a[1..], b);
    }
  }

  // ---- Modifiers ----

  /** A name, an equals sign and a value. */
  predicate ModifierText(text: string, name: string, value: string, written: string) {
    && text == written + "=" + value && written != "" && IsLetter(written[0])
    && (forall i :: 0 <= i < |written| ==> IsNameChar(written[i])) && name == Lowered(written)
  }

  ghost predicate IsModifier(text: string) {
    exists name, value, written :: ModifierText(text, name, value, written)
  }

  lemma {:induction false} NameEndIs(s: string, i: nat, j: nat)
    requires i <= j <= |s| && (forall k :: i <= k < j ==> IsNameChar(s[k])) && (j < |s| ==> !IsNameChar(s[j]))
    ensures NameEnd(s, i) == j
    decreases j - i
  {
    hide IsNameChar;
    if i < j {
      NameEndIs(s, i + 1, j);
    }
  }

  lemma {:induction false} NameEndAll(s: string, i: nat)
    requires i <= |s|
    ensures forall k :: i <= k < NameEnd(s, i) ==> IsNameChar(s[k])
    decreases |s| - i
  {
    hide IsNameChar;
    if i < |s| && IsNameChar(s[i]) {
      NameEndAll(s, i + 1);
    }
  }

  /** A text is read as a modifier exactly when it is one, with its name in lower case. */
  lemma ModifierExactly(text: string, name: string, value: string)
    ensures ShapeOf(text) == ModifierShape(name, value) <==> exists written :: ModifierText(text, name, value, written)
  {
    hide KindAt, Lowered, NameEnd, IsLetter;
    if ShapeOf(text) == ModifierShape(name, value) {
      var end := NameEnd(text, 0);
      NameEndAll(text, 0);
      assert text == text[..end] + "=" + text[end + 1..];
      NameBegins(text);
      assert ModifierText(text, name, value, text[..end]);
    }
    if exists written :: ModifierText(text, name, value, written) {
      var written :| ModifierText(text, name, value, written);
      ModifierRead(text, name, value, written);
    }
  }

  lemma NameBegins(text: string)
    requires text != "" && IsLetter(text[0])
    ensures NameEnd(text, 0) > 0
  {
  }

  lemma ModifierRead(text: string, name: string, value: string, written: string)
    requires ModifierText(text, name, value, written)
    ensures ShapeOf(text) == ModifierShape(name, value)
  {
    hide KindAt, Lowered;
    assert forall k :: 0 <= k < |written| ==> text[k] == written[k];
    assert text[|written|] == '=' && !IsNameChar('=');
    NameEndIs(text, 0, |written|);
    assert text[..|written|] == written && text[|written| + 1..] == value;
  }

  lemma ShapeUnlessModifier(text: string)
    ensures ShapeOf(text).ModifierShape? <==> IsModifier(text)
  {
    hide ShapeOf, ModifierText;
    if ShapeOf(text).ModifierShape? {
      ModifierExactly(text, ShapeOf(text).name, ShapeOf(text).value);
    }
    if IsModifier(text) {
      var name, value, written :| ModifierText(text, name, value, written);
      ModifierExactly(text, name, value);
    }
  }

  // ---- Mechanisms ----

  /** A kind in any case, and what follows it; what begins with `all` is not an `a`. */
  predicate KindText(s: string, kind: Kind, rest: string, word: string) {
    s == word + rest && Lowered(word) == Spelling(kind) && (kind == A ==> !Begins(rest, "ll"))
  }

  lemma SpellingLength(kind: Kind, word: string)
    requires Lowered(word) == Spelling(kind)
    ensures |word| == |Spelling(kind)|
  {
  }

  /** No two kinds begin alike, but `all` and `a`. */
  lemma KindsDiffer(s: string, kind: Kind, other: Kind)
    requires Begins(s, Spelling(kind)) && Begins(s, Spelling(other)) && kind != other
    ensures (kind == A && other == All) || (kind == All && other == A)
  {
    hide Begins, Lower, Spelling;
    forall i: nat | i < |Spelling(kind)| && i < |Spelling(other)|
      ensures Spelling(kind)[i] == Spelling(other)[i]
    {
      BeginsAt(s, Spelling(kind), i);
      BeginsAt(s, Spelling(other), i);
    }
    if !((kind == A && other == All) || (kind == All && other == A)) {
      SpellingsDiffer(kind, other);
    }
  }

  lemma BeginsAt(s: string, word: string, i: nat)
    requires Begins(s, word) && i < |word|
    ensures i < |s| && Lower(s[i]) == word[i]
  {
    LoweredAt(s[..|word|], i);
  }

  lemma SpellingsDiffer(kind: Kind, other: Kind)
    requires kind != other && !(kind == A && other == All) && !(kind == All && other == A)
    ensures exists i: nat :: i < |Spelling(kind)| && i < |Spelling(other)| && Spelling(kind)[i] != Spelling(other)[i]
  {
    var a, b := Spelling(kind), Spelling(other);
    if a[0] == b[0] {
      assert kind == Ip4 || kind == Ip6 || kind == Include;
      if (kind == Ip4 && other == Ip6) || (kind == Ip6 && other == Ip4) {
        assert a[2] != b[2];
      } else {
        assert a[1] != b[1];
      }
    }
  }

  /** Which kind is read is the one whose word the text begins with. */
  lemma KindAtBegins(s: string, kind: Kind)
    ensures KindAt(s).Some? && KindAt(s).value.0 == kind <==>
      Begins(s, Spelling(kind)) && (kind == A ==> !Begins(s, Spelling(All)))
    ensures KindAt(s).Some? ==> |Spelling(KindAt(s).value.0)| <= |s| && KindAt(s).value.1 == s[|Spelling(KindAt(s).value.0)|..]
  {
    hide Begins;
    SpellingsAre();
    BeginsLength(s, kind);
    if KindAt(s).Some? {
      var read := KindAt(s).value.0;
      BeginsLength(s, read);
      if Begins(s, Spelling(kind)) && read != kind {
        KindsDiffer(s, kind, read);
      }
    }
  }

  lemma SpellingsAre()
    ensures Spelling(All) == "all" && Spelling(Include) == "include" && Spelling(A) == "a" && Spelling(Mx) == "mx"
    ensures Spelling(Ptr) == "ptr" && Spelling(Ip4) == "ip4" && Spelling(Ip6) == "ip6" && Spelling(Exists) == "exists"
    ensures |"all"| == 3 && |"include"| == 7 && |"a"| == 1 && |"mx"| == 2 && |"ptr"| == 3 && |"ip4"| == 3 && |"ip6"| == 3
    ensures |"exists"| == 6
  {
  }

  lemma BeginsLength(s: string, kind: Kind)
    ensures Begins(s, Spelling(kind)) ==> |Spelling(kind)| <= |s|
  {
  }

  lemma BeginsWritten(s: string, word: string, kind: Kind, rest: string)
    requires s == word + rest && Lowered(word) == Spelling(kind)
    ensures Begins(s, Spelling(kind)) && rest == s[|Spelling(kind)|..]
  {
    assert s[..|word|] == word;
  }

  lemma AllBegins(s: string, word: string, rest: string)
    requires s == word + rest && Lowered(word) == Spelling(A)
    ensures Begins(s, Spelling(All)) <==> Begins(rest, "ll")
  {
    SpellingsAre();
    assert "all" == "a" + "ll" && |word| == 1;
    if |s| >= 3 {
      assert s[..3] == word + rest[..2];
      LoweredAppend(word, rest[..2]);
      SameTail("a", Lowered(rest[..2]), "ll");
    }
  }

  lemma SameTail(a: string, b: string, c: string)
    ensures a + b == a + c <==> b == c
  {
    assert (a + b)[|a|..] == b && (a + c)[|a|..] == c;
  }

  lemma KindExactly(s: string, kind: Kind, rest: string)
    ensures KindAt(s) == Some((kind, rest)) <==> exists word :: KindText(s, kind, rest, word)
  {
    hide Begins, Lowered, KindAt, Spelling;
    KindAtBegins(s, kind);
    if KindAt(s) == Some((kind, rest)) {
      var word := s[..|Spelling(kind)|];
      assert s == word + rest;
      FrontLowered(s, kind);
      if kind == A {
        AllBegins(s, word, rest);
      }
      assert KindText(s, kind, rest, word);
    }
    if exists word :: KindText(s, kind, rest, word) {
      var word :| KindText(s, kind, rest, word);
      BeginsWritten(s, word, kind, rest);
      if kind == A {
        AllBegins(s, word, rest);
      }
    }
  }

  lemma FrontLowered(s: string, kind: Kind)
    requires Begins(s, Spelling(kind)) && |Spelling(kind)| <= |s|
    ensures Lowered(s[..|Spelling(kind)|]) == Spelling(kind)
  {
  }

  /** Perhaps a qualifier, a kind, and the rest. */
  predicate MechanismText(text: string, qualifier: char, kind: Kind, rest: string, sign: string, word: string) {
    && text == sign + (word + rest) && KindText(word + rest, kind, rest, word)
    && ((sign == "" && qualifier == '+') || (sign == [qualifier] && qualifier in "+?~-"))
  }

  lemma KindIsLetter(kind: Kind, word: string)
    requires Lowered(word) == Spelling(kind)
    ensures word != "" && word[0] !in "+?~-"
  {
    assert |Spelling(kind)| > 0 && Spelling(kind)[0] !in "+?~-";
    LoweredAt(word, 0);
  }

  /** A text is read as a mechanism exactly when it is one and no modifier. */
  lemma MechanismExactly(text: string, qualifier: char, kind: Kind, rest: string)
    ensures ShapeOf(text) == MechanismShape(qualifier, kind, rest) <==>
      !IsModifier(text) && exists sign, word :: MechanismText(text, qualifier, kind, rest, sign, word)
  {
    hide KindAt, Lowered, Spelling, IsModifier, KindText, NameEnd;
    ShapeUnlessModifier(text);
    var signed := text != "" && text[0] in "+?~-";
    var body := if signed then text[1..] else text;
    KindExactly(body, kind, rest);
    if ShapeOf(text) == MechanismShape(qualifier, kind, rest) {
      var word :| KindText(body, kind, rest, word);
      KindTextIs(body, kind, rest, word);
      var sign := if signed then [text[0]] else "";
      assert text == sign + body;
      assert MechanismText(text, qualifier, kind, rest, sign, word);
    }
    if exists sign, word :: MechanismText(text, qualifier, kind, rest, sign, word) {
      var sign, word :| MechanismText(text, qualifier, kind, rest, sign, word);
      KindTextIs(word + rest, kind, rest, word);
      KindIsLetter(kind, word);
      SignRead(text, sign, word + rest, qualifier);
    }
  }

  lemma KindTextIs(s: string, kind: Kind, rest: string, word: string)
    requires KindText(s, kind, rest, word)
    ensures s == word + rest && Lowered(word) == Spelling(kind)
  {
  }

  lemma SignRead(text: string, sign: string, body: string, qualifier: char)
    requires text == sign + body && body != "" && body[0] !in "+?~-"
    requires (sign == "" && qualifier == '+') || (sign == [qualifier] && qualifier in "+?~-")
    ensures
      var signed := text != "" && text[0] in "+?~-";
      (if signed then text[1..] else text) == body && (if signed then text[0] else '+') == qualifier
  {
    if sign == "" {
      assert text == body;
    } else {
      assert text[1..] == body && text[0] == qualifier;
    }
  }

  // ---- Senders ----

  /** A name of a host, or none, and prefix lengths, or none. */
  datatype HostWriting = HostWriting(name: Option<string>, four: Option<string>, six: Option<string>)

  function HostText(w: HostWriting): string {
    (if w.name.Some? then ":" + w.name.value else "")
    + ((if w.four.Some? then "/" + w.four.value else "")
       + (if w.six.Some? then "//" + w.six.value else ""))
  }

  predicate Digits(s: string, most: nat) {
    1 <= |s| <= most && AllDecimal(s)
  }

  /** What a host's writing stands for; the prefix lengths left out are 32 and 128. */
  predicate HostMeans(names: Names, kind: Kind, w: HostWriting, key: Key) {
    && (w.name.Some? ==> w.name.value != "" && '/' !in w.name.value)
    && (w.four.Some? ==> Digits(w.four.value, 2)) && (w.six.Some? ==> Digits(w.six.value, 3))
    && (w.name.Some? ==> names.domain(w.name.value).Some?)
    && key == Hosts(kind, if w.name.Some? then names.domain(w.name.value).value else "",
                    if w.four.Some? then w.four.value else "32", if w.six.Some? then w.six.value else "128")
  }

  /** The prefix lengths of a host. */
  predicate PrefixText(tail: string, w: HostWriting) {
    && tail == (if w.four.Some? then "/" + w.four.value else "") + (if w.six.Some? then "//" + w.six.value else "")
    && (w.four.Some? ==> Digits(w.four.value, 2)) && (w.six.Some? ==> Digits(w.six.value, 3))
  }

  lemma DecimalNoSlash(s: string)
    requires AllDecimal(s)
    ensures '/' !in s
  {
    forall i | 0 <= i < |s|
      ensures s[i] != '/'
    {
      assert IsDecimal(s[i]);
    }
  }

  /** Prefix lengths are read as written. */
  lemma PrefixRead(tail: string, w: HostWriting)
    requires PrefixText(tail, w)
    ensures Prefixes(tail) == Some((if w.four.Some? then w.four.value else "32", if w.six.Some? then w.six.value else "128"))
  {
    hide Prefixes, AllDecimal;
    if w.four.Some? {
      DecimalNoSlash(w.four.value);
      var more := if w.six.Some? then "//" + w.six.value else "";
      assert tail == "/" + (w.four.value + more);
      if w.six.Some? {
        SixAfterFour(w.six.value);
      }
      FourPrefix(w.four.value, more);
    } else if w.six.Some? {
      assert tail == "//" + w.six.value;
      SixPrefix(w.six.value);
    } else {
      assert tail == "";
      NoPrefix();
    }
  }

  /** What is read as prefix lengths was written as them. */
  lemma PrefixWritten(tail: string) returns (w: HostWriting)
    requires Prefixes(tail).Some?
    ensures PrefixText(tail, w) && w.name == None
    ensures Prefixes(tail).value == (if w.four.Some? then w.four.value else "32", if w.six.Some? then w.six.value else "128")
  {
    hide AllDecimal, BeforeSlash, OccursAt;
    if tail == "" {
      w := HostWriting(None, None, None);
    } else if StartsWith(tail, "//") {
      StartsApart(tail, "//");
      w := HostWriting(None, None, Some(tail[2..]));
    } else {
      var (four, more) := BeforeSlash(tail[1..]);
      BeforeSlashIs(tail[1..]);
      assert tail == "/" + tail[1..];
      if more == "" {
        w := HostWriting(None, Some(four), None);
      } else {
        StartsApart(more, "//");
        w := HostWriting(None, Some(four), Some(more[2..]));
        assert "/" + four + more == "/" + (four + more);
      }
    }
  }

  lemma StartsApart(s: string, p: string)
    requires StartsWith(s, p)
    ensures s == p + s[|p|..]
  {
    assert s[0..|p|] == p;
  }

  lemma TailBegins(tail: string, w: HostWriting)
    requires PrefixText(tail, w)
    ensures tail == "" || tail[0] == '/'
  {
  }

  /** Exactly which texts a host key comes from. */
  lemma HostExactly(names: Names, kind: Kind, rest: string, key: Key)
    requires kind == A || kind == Mx
    ensures KeyOf(names, kind, rest) == Ok(key) <==> exists w :: HostMeans(names, kind, w, key) && rest == HostText(w)
  {
    hide Prefixes, BeforeSlash, Digits, HostText, HostMeans;
    if KeyOf(names, kind, rest) == Ok(key) {
      var w := HostWritten(names, kind, rest, key);
    }
    if exists w :: HostMeans(names, kind, w, key) && rest == HostText(w) {
      var w :| HostMeans(names, kind, w, key) && rest == HostText(w);
      HostRead(names, kind, rest, key, w);
    }
  }

  lemma HostWritten(names: Names, kind: Kind, rest: string, key: Key) returns (w: HostWriting)
    requires (kind == A || kind == Mx) && KeyOf(names, kind, rest) == Ok(key)
    ensures HostMeans(names, kind, w, key) && rest == HostText(w)
  {
    hide Prefixes, BeforeSlash, Digits;
    if rest != "" && rest[0] == ':' {
      var (name, tail) := BeforeSlash(rest[1..]);
      BeforeSlashIs(rest[1..]);
      w := PrefixWritten(tail);
      w := w.(name := Some(name));
      assert rest == ":" + rest[1..] && ":" + (name + tail) == ":" + name + tail;
    } else {
      w := PrefixWritten(rest);
      assert "" + rest == rest;
    }
  }

  lemma HostRead(names: Names, kind: Kind, rest: string, key: Key, w: HostWriting)
    requires (kind == A || kind == Mx) && HostMeans(names, kind, w, key) && rest == HostText(w)
    ensures KeyOf(names, kind, rest) == Ok(key)
  {
    hide Prefixes, BeforeSlash, Digits;
    var tail := (if w.four.Some? then "/" + w.four.value else "") + (if w.six.Some? then "//" + w.six.value else "");
    assert PrefixText(tail, w);
    TailBegins(tail, w);
    PrefixRead(tail, w);
    if w.name.Some? {
      NamedTail(w.name.value, tail);
      assert rest == ":" + w.name.value + tail;
    } else {
      assert rest == tail;
    }
  }

  /** Exactly which texts the other keys come from: a domain behind a colon, and nothing at all for `ptr`. */
  lemma NamedExactly(names: Names, kind: Kind, rest: string, key: Key)
    requires kind == Include || kind == Exists || kind == Ptr
    ensures KeyOf(names, kind, rest) == Ok(key) <==>
      || (kind == Ptr && rest == "" && key == Bare(Ptr))
      || (exists value: string :: rest == ":" + value && names.domain(value).Some? && key == Named(kind, names.domain(value).value))
  {
    if rest != "" && rest[0] == ':' {
      assert rest == ":" + rest[1..];
    }
    forall value: string | rest == ":" + value
      ensures value == rest[1..] && rest[0] == ':'
    {
    }
  }

  // ---- Records ----

  /** One more term of a record: a modifier it does not have yet, its `all`, or a sender in front of that. */
  predicate OneMoreTerm(names: Names, r: Record, text: string, next: Record) {
    match ShapeOf(text)
    case NoShape => false
    case ModifierShape(name, value) =>
      && (forall i :: 0 <= i < |r.modifiers| ==> r.modifiers[i].name != name)
      && (name in ["redirect", "exp"] ==> names.domain(value).Some?)
      && next == Record(r.mechanisms, r.all, r.modifiers
           + [Modifier(text, name, if name in ["redirect", "exp"] then names.domain(value).value else value)])
    case MechanismShape(qualifier, kind, rest) =>
      && r.all == None
      && if kind == All then rest == "" && next == Record(r.mechanisms, Some(AllTerm(text, qualifier)), r.modifiers)
         else
           && qualifier == '+' && KeyOf(names, kind, rest).Ok?
           && next == Record(r.mechanisms + [Mechanism(text, KeyOf(names, kind, rest).value)], None, r.modifiers)
  }

  lemma StepExactly(names: Names, r: Record, text: string, next: Record)
    ensures Step(names, r, text) == Ok(next) <==> OneMoreTerm(names, r, text, next)
  {
    hide ShapeOf, KeyOf;
  }

  /** The records on the way, term by term. */
  ghost predicate Chain(names: Names, first: Record, terms: seq<string>, records: seq<Record>, last: Record) {
    && |records| == |terms| + 1 && records[0] == first && records[|terms|] == last
    && forall i :: 0 <= i < |terms| ==> OneMoreTerm(names, records[i], terms[i], records[i + 1])
  }

  lemma {:induction false} StepsExactly(names: Names, first: Record, terms: seq<string>, last: Record)
    ensures Steps(names, first, terms) == Ok(last) <==>
      exists records: seq<Record> :: Chain(names, first, terms, records, last)
    decreases |terms|
  {
    hide Step, OneMoreTerm;
    if terms == [] {
      if first == last {
        assert Chain(names, first, terms, [first], last);
      }
    } else {
      if Steps(names, first, terms) == Ok(last) {
        var next := Step(names, first, terms[0]).value;
        StepExactly(names, first, terms[0], next);
        StepsExactly(names, next, terms[1..], last);
        var records :| Chain(names, next, terms[1..], records, last);
        ChainFirst(names, first, terms, next, records, last);
      }
      if exists records: seq<Record> :: Chain(names, first, terms, records, last) {
        var records :| Chain(names, first, terms, records, last);
        ChainRest(names, first, terms, records, last);
        StepExactly(names, first, terms[0], records[1]);
        StepsExactly(names, records[1], terms[1..], last);
      }
    }
  }

  lemma ChainFirst(names: Names, first: Record, terms: seq<string>, next: Record, records: seq<Record>, last: Record)
    requires terms != [] && OneMoreTerm(names, first, terms[0], next) && Chain(names, next, terms[1..], records, last)
    ensures Chain(names, first, terms, [first] + records, last)
  {
    hide OneMoreTerm;
    var all := [first] + records;
    forall i | 0 <= i < |terms|
      ensures OneMoreTerm(names, all[i], terms[i], all[i + 1])
    {
      if i > 0 {
        assert all[i] == records[i - 1] && all[i + 1] == records[i] && terms[i] == terms[1..][i - 1];
      }
    }
  }

  lemma ChainRest(names: Names, first: Record, terms: seq<string>, records: seq<Record>, last: Record)
    requires terms != [] && Chain(names, first, terms, records, last)
    ensures OneMoreTerm(names, first, terms[0], records[1]) && Chain(names, records[1], terms[1..], records[1..], last)
  {
    hide OneMoreTerm;
    forall i | 0 <= i < |terms| - 1
      ensures OneMoreTerm(names, records[1..][i], terms[1..][i], records[1..][i + 1])
    {
      assert records[1..][i] == records[i + 1] && records[1..][i + 1] == records[i + 2] && terms[1..][i] == terms[i + 1];
    }
  }

  /** A record parses exactly when it has no macro and each term behind its first word is one more that it may hold. */
  lemma RecordExactly(names: Names, record: string, r: Record)
    ensures ParseRecord(names, record) == Ok(r) <==>
      '%' !in record && exists records: seq<Record> :: Chain(names, Record([], None, []), Terms(record), records, r)
  {
    hide Step, Terms, Chain;
    StepsExactly(names, EMPTY, Terms(record), r);
  }
}
