/** The proxy turned on and off again on one vhost with a carriage return before the closing brace: the return is lost. */
module NginxProxyCases {
  import opened Outcomes
  import opened Text
  import opened NginxProxy
  import opened NginxProxyProofs

  const INNER := "listen 8443;\r"
  const VHOST := "server" + "{" + INNER + "}"

  predicate Quiet(s: string) {
    '#' !in s && '"' !in s && '\'' !in s
  }

  lemma VhostIsQuiet()
    ensures Quiet(VHOST) && 'a' !in VHOST
  {
  }

  lemma {:induction false} QuietMask(s: string)
    requires Quiet(s)
    ensures Mask(s) == s
  {
    hide Mask, Noise;
    if s != "" {
      PlainIsNoNoise(s);
      MaskStep(s);
      QuietMask(s[1..]);
    } else {
      NothingToMask();
    }
  }

  lemma NothingToMask()
    ensures Mask("") == ""
  {
  }

  /** A search for text with a character the searched text does not have. */
  lemma NotThere(s: string, p: string, k: nat, i: int)
    requires k < |p| && p[k] !in s
    ensures !OccursAt(s, p, i)
  {
    if OccursAt(s, p, i) {
      OccursChar(s, p, i, k);
    }
  }

  lemma NoStart()
    ensures !Occurs(VHOST, START)
  {
    hide VHOST;
    VhostIsQuiet();
    MarkersAreComments();
    forall i
      ensures !OccursAt(VHOST, START, i)
    {
      NotThere(VHOST, START, 0, i);
    }
  }

  lemma NoLocation()
    ensures !Conflicts(VHOST)
  {
    hide VHOST, AddonsAfter;
    VhostIsQuiet();
    forall i | 0 <= i < |VHOST|
      ensures !WordAt(VHOST, "location", i)
    {
      NotThere(VHOST, "location", 3, i);
    }
  }

  lemma VhostListens()
    ensures |VHOST| == 21 && Listens(VHOST)
  {
    var s := VHOST;
    assert s == "server{" + "listen" + " 8443;\r}" == "server{listen " + "8443" + ";\r}";
    assert s[6] == '{' && s[13] == ' ' && s[18] == ';' && |s| == 21;
    Inside("server{", "listen", " 8443;\r}");
    Inside("server{listen ", "8443", ";\r}");
    assert WordAt(s, "listen", 7);
    assert PortAt(s, 13, 14);
    assert PortAfter(s, 13);
  }

  lemma Inside(a: string, b: string, c: string)
    ensures OccursAt(a + b + c, b, |a|)
  {
  }

  lemma InnerHasNoBraces()
    ensures NoBraces(INNER) && |INNER| == 13
  {
  }

  lemma VhostCloses()
    ensures Closing("{" + INNER + "}", 0) == Some(14)
  {
    hide Closing, INNER;
    InnerHasNoBraces();
    assert "{" + INNER + "}" == "{" + (INNER + "}");
    ClosingBrace('{', INNER + "}", 0);
    ClosingSkips(INNER, "}", 1);
    ClosedHere();
  }

  lemma ClosedHere()
    ensures Closing("}", 1) == Some(0)
  {
  }

  lemma VhostHead()
    ensures Head(VHOST) == Some(7) && VHOST[6..] == "{" + INNER + "}"
  {
    hide INNER;
    var s := VHOST;
    assert s[0..6] == "server" && s[6] == '{';
    assert s[6..] == "{" + INNER + "}";
    assert !IsSpace('{');
    assert SpaceRun(s[6..]) == 0;
  }

  lemma VhostBlocks()
    ensures ServerBlocks(VHOST) == [Block(0, 20)] && Mask(VHOST) == VHOST && |VHOST| == 21
  {
    hide Scan, Head, Closing, Mask, VHOST, Listens;
    VhostIsQuiet();
    QuietMask(VHOST);
    VhostListens();
    VhostHead();
    VhostCloses();
    ScanStep(VHOST, false, 0);
    assert VHOST[21..] == "";
    NoScan(false, 21);
  }

  lemma OneListens(masked: string, b: Block)
    requires AllIn(masked, 0, [b]) && 0 <= b.start <= b.end < |masked| && Listens(masked[b.start..b.end + 1])
    ensures Listening(masked, [b]) == [b]
  {
    hide Listens;
    assert [b][..0] == [];
    assert Listening(masked, [b][..0]) == [];
  }

  lemma ReturnBeforeBrace()
    ensures |VHOST| == 21 && VHOST[19] == CR
  {
  }

  lemma VhostListening()
    ensures Mask(VHOST) == VHOST && AllIn(VHOST, 0, ServerBlocks(VHOST))
    ensures ServerBlocks(VHOST) == [Block(0, 20)] == Listening(VHOST, ServerBlocks(VHOST))
  {
    hide Scan, Mask, VHOST, Listens, Listening;
    VhostBlocks();
    VhostListens();
    ScanBounds(VHOST, false, 0);
    assert VHOST[0..21] == VHOST;
    OneListens(VHOST, Block(0, 20));
  }

  lemma VhostTarget()
    ensures Target(VHOST) == Some(Block(0, 20)) && Rendered(VHOST, true).Ok?
  {
    hide ServerBlocks, Mask, VHOST, Listening, Conflicts, Stripped, Occurs, START, BLOCK, AllIn;
    NoStart();
    NoLocation();
    NothingToStrip(VHOST);
    VhostListening();
  }

  /** Turning the proxy on and off again does not give this vhost back. */
  lemma ReturnLost()
    ensures !Occurs(VHOST, START) && Rendered(VHOST, true).Ok?
    ensures Rendered(Rendered(VHOST, true).value, false) != Ok(VHOST)
  {
    hide VHOST, Rendered, Target, Occurs, START;
    NoStart();
    VhostTarget();
    ReturnBeforeBrace();
    ProxyRoundTrip(VHOST);
  }
}
