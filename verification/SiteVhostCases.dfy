/** The special case of learning at two inputs: one where the learned map is not the only one, and one where it is. */
module SiteVhostCases {
  import opened Outcomes
  import opened Text
  import opened SiteVhost
  import opened SiteVhostProofs

  // ---- Searching in text known in part ----

  lemma FirstIndex(s: string, p: string, i: nat)
    requires OccursAt(s, p, i) && forall j :: 0 <= j < i ==> !OccursAt(s, p, j)
    ensures IndexOf(s, p) == Some(i)
  {
  }

  /** The first occurrence of `p` is behind text without its first character. */
  lemma IndexBehind(x: string, p: string, rest: string)
    requires p != "" && p[0] !in x
    ensures IndexOf(x + (p + rest), p) == Some(|x|)
  {
    var s := x + (p + rest);
    OccursBehind(x, p + rest, p);
    forall j | 0 <= j < |x|
      ensures !OccursAt(s, p, j)
    {
      assert s[j] == x[j];
      if OccursAt(s, p, j) {
        OccursChar(s, p, j, 0);
      }
    }
    FirstIndex(s, p, |x|);
  }

  /** The last occurrence of a character is ahead of text without it. */
  lemma LastIndexAhead(front: string, c: char, x: string)
    requires c !in x
    ensures LastIndexOf(front + [c] + x, [c]) == Some(|front|)
  {
    var s := front + [c] + x;
    OccursBehind(front, [c] + x, [c]);
    assert s == front + ([c] + x);
    forall j | |front| < j
      ensures !OccursAt(s, [c], j)
    {
      if j < |s| {
        assert s[j] == x[j - |front| - 1];
      }
      if OccursAt(s, [c], j) {
        OccursChar(s, [c], j, 0);
      }
    }
  }

  lemma SplitOne(before: string, key: string, behind: string, q: Parts)
    requires '{' !in before && ValidKey(key) && Split(behind) == Ok(q)
    ensures Split(before + ("{{" + (key + ("}}" + behind)))) == Ok(Parts([before] + q.literals, [key] + q.keys))
  {
    hide IndexOf;
    var body := before + ("{{" + (key + ("}}" + behind)));
    IndexBehind(before, "{{", key + ("}}" + behind));
    assert body[|before| + 2..] == key + ("}}" + behind);
    IndexBehind(key, "}}", behind);
    assert body[..|before|] == before;
    assert (key + ("}}" + behind))[..|key|] == key && (key + ("}}" + behind))[|key| + 2..] == behind;
    assert NextPlaceholder(body) == Some(Ok(Placeholder(before, key, behind)));
  }

  lemma SplitNone(rest: string)
    requires '{' !in rest
    ensures Split(rest) == Ok(Parts([rest], []))
  {
    hide Contains;
    if Occurs(rest, "{{") {
      var i :| OccursAt(rest, "{{", i);
      OccursChar(rest, "{{", i, 0);
    }
  }

  // ---- One step of learning ----

  lemma ForwardOne(p: Parts, i: nat, value: string, behind: string, seen: Mapping)
    requires p.Valid() && i < |p.keys| && ValueLength(p, i, value + behind) == Ok(|value|)
    requires p.keys[i] in seen ==> seen[p.keys[i]] == value
    ensures Forward(p, i, p.literals[i] + (value + behind), seen) == Forward(p, i + 1, behind, seen[p.keys[i] := value])
    ensures CloudflareTaken(p, i + 1, behind) ==> CloudflareTaken(p, i, p.literals[i] + (value + behind))
  {
    hide ValueLength, TakesCloudflare;
    var literal, remaining := p.literals[i], p.literals[i] + (value + behind);
    assert remaining[0..|literal|] == literal && remaining[|literal|..] == value + behind;
    assert (value + behind)[..|value|] == value && (value + behind)[|value|..] == behind;
  }

  lemma BackwardOne(p: Parts, i: nat, ahead: string, value: string, seen: Mapping)
    requires p.Valid() && 0 < i <= |p.keys|
    requires LiteralBefore(p, i, ahead + p.literals[i - 1] + value) == Some((|ahead|, |ahead| + |p.literals[i - 1]|))
    requires p.keys[i - 1] in seen ==> seen[p.keys[i - 1]] == value
    ensures Backward(p, i, ahead + p.literals[i - 1] + value, seen) == Backward(p, i - 1, ahead, seen[p.keys[i - 1] := value])
  {
    hide LiteralBefore;
    var before := ahead + p.literals[i - 1] + value;
    assert before[..|ahead|] == ahead && before[|ahead| + |p.literals[i - 1]|..] == value;
  }

  lemma PlainLength(p: Parts, i: nat, x: string, rest: string)
    requires p.Valid() && i + 1 < |p.keys| && p.keys[i] != ACCESS_LOG
    requires p.literals[i + 1] != "" && p.literals[i + 1][0] !in x
    ensures ValueLength(p, i, x + (p.literals[i + 1] + rest)) == Ok(|x|)
  {
    hide IndexOf, ACCESS_LOG;
    IndexBehind(x, p.literals[i + 1], rest);
  }

  lemma LastLength(p: Parts, i: nat, x: string)
    requires p.Valid() && i + 1 == |p.keys| && p.literals[i + 1] == ""
    ensures ValueLength(p, i, x) == Ok(|x|)
  {
  }

  lemma TakesAtOnce(p: Parts, i: nat, rest: string)
    requires p.Valid() && i + 1 < |p.keys| && p.keys[i] == ACCESS_LOG
    ensures TakesCloudflare(p, i, p.literals[i + 1] + (CF_INCLUDE + (p.literals[i + 1] + rest)), 0)
  {
    hide CF_INCLUDE, ACCESS_LOG, StartsWith, OccursAt;
    var next := p.literals[i + 1];
    var text := next + (CF_INCLUDE + (next + rest));
    assert text[0 + |next|..] == (CF_INCLUDE + next) + rest;
    BeginsWith(CF_INCLUDE + next, rest);
  }

  /** An access log that begins with the literal behind it takes the include. */
  lemma TakenAtOnce(p: Parts, i: nat, rest: string)
    requires p.Valid() && i + 1 < |p.keys| && p.keys[i] == ACCESS_LOG && p.literals[i + 1] != ""
    ensures
      var next := p.literals[i + 1];
      var text := next + (CF_INCLUDE + (next + rest));
      && ValueLength(p, i, text) == Ok(|next| + |CF_INCLUDE|)
      && CloudflareTaken(p, i, p.literals[i] + text)
  {
    hide IndexOf, CF_INCLUDE, ACCESS_LOG, StartsWith, OccursAt, TakesCloudflare;
    var next := p.literals[i + 1];
    var text := next + (CF_INCLUDE + (next + rest));
    IndexBehind("", next, CF_INCLUDE + (next + rest));
    assert "" + text == text;
    TakesAtOnce(p, i, rest);
    BeginsWith(p.literals[i], text);
  }

  lemma BeginsWith(a: string, b: string)
    ensures StartsWith(a + b, a) && (a + b)[|a|..] == b
  {
    assert (a + b)[0..|a|] == a;
  }

  lemma LiteralAhead(p: Parts, i: nat, ahead: string, value: string)
    requires p.Valid() && 0 < i <= |p.keys|
    requires p.literals[i - 1] == "" ==> ahead == ""
    requires p.literals[i - 1] != "" ==> |p.literals[i - 1]| == 1 && p.literals[i - 1][0] !in value
    ensures LiteralBefore(p, i, ahead + p.literals[i - 1] + value) == Some((|ahead|, |ahead| + |p.literals[i - 1]|))
  {
    hide LastIndexOf;
    if p.literals[i - 1] != "" {
      assert p.literals[i - 1] == [p.literals[i - 1][0]];
      LastIndexAhead(ahead, p.literals[i - 1][0], value);
    }
  }

  // ---- The special case leaves a choice ----

  const TEMPLATE := "{{nginx_access_log}}\n{{b}}"
  const LOG := "\n" + CF_INCLUDE
  const TEXT := LOG + "\nB"
  const PARTS := Parts(["", "\n", ""], [ACCESS_LOG, "b"])
  const LEARNED := map[ACCESS_LOG := LOG, "b" := "B"]

  lemma LogIsKey()
    ensures ValidKey(ACCESS_LOG) && ValidKey("b") && ACCESS_LOG != "b"
  {
  }

  lemma PartsOfTemplate()
    ensures Split(TEMPLATE) == Ok(PARTS)
  {
    hide Split, ValidKey, ACCESS_LOG;
    LogIsKey();
    var end := Parts([""], []);
    SplitNone("");
    SplitOne("\n", "b", "", end);
    var behind := "\n" + ("{{" + ("b" + ("}}" + "")));
    var rest := Parts(["\n", ""], ["b"]);
    assert ["\n"] + end.literals == rest.literals && ["b"] + end.keys == rest.keys;
    SplitOne("", ACCESS_LOG, behind, rest);
    assert [""] + rest.literals == PARTS.literals && [ACCESS_LOG] + rest.keys == PARTS.keys;
    TemplateText();
  }

  lemma TemplateText()
    ensures TEMPLATE == "" + ("{{" + (ACCESS_LOG + ("}}" + ("\n" + ("{{" + ("b" + ("}}" + "")))))))
  {
  }

  lemma TextForward()
    ensures Forward(PARTS, 0, TEXT, map[]) == Ok(LEARNED) && CloudflareTaken(PARTS, 0, TEXT)
  {
    hide Forward, ValueLength, CloudflareTaken, CF_INCLUDE, ACCESS_LOG;
    var p := PARTS;
    var rest := "\n" + (CF_INCLUDE + ("\n" + "B"));
    TakenAtOnce(p, 0, "B");
    assert rest == LOG + "\nB" == "" + rest == TEXT;
    ForwardOne(p, 0, LOG, "\nB", map[]);
    LastLength(p, 1, "B");
    LogIsKey();
    assert "B" + "" == "B" && "\n" + "B" == "\nB";
    ForwardOne(p, 1, "B", "", map[ACCESS_LOG := LOG]);
    ForwardEnds(p, "", LEARNED);
  }

  lemma ForwardEnds(p: Parts, remaining: string, seen: Mapping)
    requires p.Valid() && remaining == p.literals[|p.keys|]
    ensures Forward(p, |p.keys|, remaining, seen) == Ok(seen)
  {
  }

  lemma BackwardEnds(p: Parts, seen: Mapping)
    requires p.Valid()
    ensures Backward(p, 0, "", seen) == Ok(seen)
  {
  }

  lemma TextBackward()
    ensures Backward(PARTS, 2, TEXT, map[]) == Ok(LEARNED)
  {
    hide Backward, LiteralBefore, CF_INCLUDE, ACCESS_LOG;
    var p := PARTS;
    LogIsKey();
    LiteralAhead(p, 2, LOG, "B");
    assert LOG + "\n" + "B" == TEXT;
    BackwardOne(p, 2, LOG, "B", map[]);
    LiteralAhead(p, 1, "", LOG);
    assert "" + "" + LOG == LOG;
    BackwardOne(p, 1, "", LOG, map["b" := "B"]);
    BackwardEnds(p, LEARNED);
    assert map["b" := "B"][ACCESS_LOG := LOG] == LEARNED;
  }

  lemma AgreedWithItself(keys: seq<string>, m: Mapping)
    ensures Agreed(keys, m, m) == Ok(m)
  {
    assert forall i :: !Differ(keys, m, m, i);
  }

  /** Both directions come to the same map, and nothing stands behind the last placeholder. */
  lemma BothAgree(p: Parts, text: string, m: Mapping)
    requires p.Valid() && p.keys != [] && p.literals[|p.keys|] == "" && FirstAdjacent(p, 1).None?
    requires Forward(p, 0, text, map[]) == Ok(m) && Backward(p, |p.keys|, text, map[]) == Ok(m)
    ensures LearnParts(p, text) == Ok(m)
  {
    hide Forward, Backward, Agreed;
    AgreedWithItself(p.keys, m);
    assert text[|text|..|text|] == "" && text[..|text|] == text;
  }

  lemma NoNewline(text: string)
    requires text != "" && text[|text| - 1] != LF
    ensures WithoutNewline(text) == text
  {
    if EndsWith(text, "\n") {
      OccursChar(text, "\n", |text| - 1, 0);
    }
  }

  lemma TextLearned()
    ensures Learn(TEMPLATE, TEXT) == Ok(LEARNED) && SpecialCase(TEMPLATE, TEXT) && WithoutNewline(TEXT) == TEXT
  {
    hide Split, Forward, Backward, CloudflareTaken, CF_INCLUDE, ACCESS_LOG, LearnParts;
    PartsOfTemplate();
    TextForward();
    TextBackward();
    BothAgree(PARTS, TEXT, LEARNED);
    NoNewline(TEXT);
  }

  lemma OtherRenders()
    ensures Render(TEMPLATE, map[ACCESS_LOG := "", "b" := CF_INCLUDE + "\nB"]) == Ok(TEXT)
  {
    hide Split, CF_INCLUDE, ACCESS_LOG, Render, Compose;
    PartsOfTemplate();
    LogIsKey();
    var other := map[ACCESS_LOG := "", "b" := CF_INCLUDE + "\nB"];
    RenderMeans(TEMPLATE, other, PARTS);
    assert ValuesOf(PARTS.keys, other) == ["", CF_INCLUDE + "\nB"];
    TwoValues("", CF_INCLUDE + "\nB");
    assert TEXT == "" + "" + "\n" + (CF_INCLUDE + "\nB") + "";
  }

  /** A template and a vhost on which the special case is taken: a second map renders the template to the same vhost. */
  lemma SpecialCaseMet()
    ensures Learn(TEMPLATE, TEXT) == Ok(LEARNED) && SpecialCase(TEMPLATE, TEXT)
    ensures Render(TEMPLATE, LEARNED) == Ok(TEXT) == Render(TEMPLATE, map[ACCESS_LOG := "", "b" := CF_INCLUDE + "\nB"])
    ensures !OnlyMap(TEMPLATE, TEXT, [ACCESS_LOG, "b"], LEARNED)
  {
    hide Split, Learn, WithoutNewline, SpecialCase, CF_INCLUDE, ACCESS_LOG, Render, OnlyMap, LEARNED, TEXT, TEMPLATE;
    PartsOfTemplate();
    TextLearned();
    OtherRenders();
    LearnThenRender(TEMPLATE, TEXT, LEARNED);
    LogIsKey();
    assert LogOnce(PARTS.keys);
    SpecialCaseIsNotOnly(TEMPLATE, TEXT, LEARNED);
  }

  lemma TwoValues(log: string, b: string)
    ensures Compose(PARTS.literals, 0, [log, b]) == "" + log + "\n" + b + ""
  {
    ComposeTwo(PARTS.literals, 0, [log, b]);
    assert [log, b][2..] == [];
  }

  // ---- An access log that stands twice can leave none ----

  const REPEATED := TEMPLATE + "|{{nginx_access_log}}"
  const TWICE := LOG + "\nB|" + LOG
  const REPEATED_PARTS := Parts(["", "\n", "|", ""], [ACCESS_LOG, "b", ACCESS_LOG])

  lemma PartsOfRepeated()
    ensures Split(REPEATED) == Ok(REPEATED_PARTS)
  {
    hide Split, ValidKey, ACCESS_LOG;
    LogIsKey();
    var end := Parts([""], []);
    SplitNone("");
    SplitOne("|", ACCESS_LOG, "", end);
    var last := "|" + ("{{" + (ACCESS_LOG + ("}}" + "")));
    var one := Parts(["|", ""], [ACCESS_LOG]);
    assert ["|"] + end.literals == one.literals && [ACCESS_LOG] + end.keys == one.keys;
    SplitOne("\n", "b", last, one);
    var behind := "\n" + ("{{" + ("b" + ("}}" + last)));
    var rest := Parts(["\n", "|", ""], ["b", ACCESS_LOG]);
    assert ["\n"] + one.literals == rest.literals && ["b"] + one.keys == rest.keys;
    SplitOne("", ACCESS_LOG, behind, rest);
    assert [""] + rest.literals == REPEATED_PARTS.literals && [ACCESS_LOG] + rest.keys == REPEATED_PARTS.keys;
    RepeatedText();
  }

  lemma RepeatedText()
    ensures
      var last := "|" + ("{{" + (ACCESS_LOG + ("}}" + "")));
      REPEATED == "" + ("{{" + (ACCESS_LOG + ("}}" + ("\n" + ("{{" + ("b" + ("}}" + last)))))))
  {
    var last := "|" + ("{{" + (ACCESS_LOG + ("}}" + "")));
    LastText();
    hide ACCESS_LOG;
    TemplateText();
    assert TEMPLATE + last == "" + ("{{" + (ACCESS_LOG + ("}}" + ("\n" + ("{{" + ("b" + ("}}" + last)))))));
  }

  lemma LastText()
    ensures "|{{nginx_access_log}}" == "|" + ("{{" + (ACCESS_LOG + ("}}" + "")))
  {
  }

  lemma TwiceForward()
    ensures Forward(REPEATED_PARTS, 0, TWICE, map[]) == Ok(LEARNED) && CloudflareTaken(REPEATED_PARTS, 0, TWICE)
  {
    hide Forward, ValueLength, CloudflareTaken, CF_INCLUDE, ACCESS_LOG;
    var p := REPEATED_PARTS;
    LogIsKey();
    TakenAtOnce(p, 0, "B|" + LOG);
    var rest := "\n" + (CF_INCLUDE + ("\n" + ("B|" + LOG)));
    assert rest == LOG + ("\n" + ("B" + ("|" + LOG))) == "" + rest == TWICE;
    ForwardOne(p, 0, LOG, "\n" + ("B" + ("|" + LOG)), map[]);
    PlainLength(p, 1, "B", LOG);
    ForwardOne(p, 1, "B", "|" + LOG, map[ACCESS_LOG := LOG]);
    LastLength(p, 2, LOG);
    assert map[ACCESS_LOG := LOG]["b" := "B"] == LEARNED && LOG + "" == LOG;
    ForwardOne(p, 2, LOG, "", LEARNED);
    assert LEARNED[ACCESS_LOG := LOG] == LEARNED;
    ForwardEnds(p, "", LEARNED);
  }

  lemma TwiceEnds()
    ensures TWICE != "" && TWICE[|TWICE| - 1] == ';'
  {
  }

  lemma NoBarInLog()
    ensures '|' !in LOG
  {
  }

  lemma TwiceBackward()
    ensures Backward(REPEATED_PARTS, 3, TWICE, map[]) == Ok(LEARNED)
  {
    hide Backward, LiteralBefore, CF_INCLUDE, ACCESS_LOG;
    var p := REPEATED_PARTS;
    LogIsKey();
    NoBarInLog();
    LiteralAhead(p, 3, LOG + "\n" + "B", LOG);
    assert LOG + "\n" + "B" + "|" + LOG == TWICE;
    BackwardOne(p, 3, LOG + "\n" + "B", LOG, map[]);
    LiteralAhead(p, 2, LOG, "B");
    BackwardOne(p, 2, LOG, "B", map[ACCESS_LOG := LOG]);
    LiteralAhead(p, 1, "", LOG);
    assert "" + "" + LOG == LOG;
    BackwardOne(p, 1, "", LOG, LEARNED);
    assert map[ACCESS_LOG := LOG]["b" := "B"] == LEARNED && LEARNED[ACCESS_LOG := LOG] == LEARNED;
    BackwardEnds(p, LEARNED);
  }

  lemma ThreeValues(log: string, b: string)
    ensures Compose(REPEATED_PARTS.literals, 0, [log, b, log]) == log + "\n" + b + "|" + log
  {
    ComposeTwo(REPEATED_PARTS.literals, 0, [log, b, log]);
    assert [log, b, log][2..] == [log] && [log][1..] == [];
    ComposeStep(REPEATED_PARTS.literals, 2, [log]);
    var front := "" + log + "\n" + b;
    assert front + ("|" + log + "") == log + "\n" + b + "|" + log;
  }

  /** The only bar shows where the second access log begins. */
  lemma OneBar(log: string, b: string)
    requires log + "\n" + b + "|" + log == TWICE
    ensures log == LOG && b == "B"
  {
    hide CF_INCLUDE;
    NoBarInLog();
    var text := TWICE;
    var bar := |log| + 1 + |b|;
    assert text[bar] == '|';
    assert forall j :: 0 <= j < |LOG| ==> text[j] == LOG[j] && text[|LOG| + 3 + j] == LOG[j];
    assert text[|LOG|] == '\n' && text[|LOG| + 1] == 'B';
    assert bar == |LOG| + 2;
    assert text[bar + 1..] == log && text[bar + 1..] == LOG;
    assert text[|log| + 1..bar] == b && text[|LOG| + 1..bar] == "B";
  }

  /** A template that repeats the access log: the special case is taken, and still no other map renders the vhost. */
  lemma RepeatedLogIsOnly()
    ensures Learn(REPEATED, TWICE) == Ok(LEARNED) && SpecialCase(REPEATED, TWICE)
    ensures !LogOnce([ACCESS_LOG, "b", ACCESS_LOG]) && OnlyMap(REPEATED, TWICE, [ACCESS_LOG, "b", ACCESS_LOG], LEARNED)
  {
    hide Split, Forward, Backward, CloudflareTaken, CF_INCLUDE, ACCESS_LOG, Render, Compose;
    PartsOfRepeated();
    TwiceForward();
    TwiceBackward();
    BothAgree(REPEATED_PARTS, TWICE, LEARNED);
    TwiceEnds();
    NoNewline(TWICE);
    LogIsKey();
    forall m | Render(REPEATED, m) == Ok(TWICE)
      ensures SameOn(LEARNED, m, REPEATED_PARTS.keys)
    {
      RenderMeans(REPEATED, m, REPEATED_PARTS);
      assert REPEATED_PARTS.keys[0] == ACCESS_LOG && REPEATED_PARTS.keys[1] == "b";
      var log, b := m[ACCESS_LOG], m["b"];
      assert ValuesOf(REPEATED_PARTS.keys, m) == [log, b, log];
      ThreeValues(log, b);
      OneBar(log, b);
    }
    var keys := [ACCESS_LOG, "b", ACCESS_LOG];
    assert keys[2] == keys[0];
    assert !Once(keys, 0);
  }
}
