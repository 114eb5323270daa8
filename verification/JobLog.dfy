/** The tail of a job's log, read backwards in chunks (cli/job-store.ts). */
module JobLog {
  import opened Octets
  import opened Outcomes

  const NEWLINE: Byte := 10
  const CHUNK: nat := 64 * 1024
  const MOST: nat := 1024 * 1024

  function Newlines(s: Bytes): (n: nat)
    ensures n <= |s|
  {
    if s == [] then 0 else (if s[0] == NEWLINE then 1 else 0) + Newlines(s[1..])
  }

  /** The text split at every newline. */
  function Split(s: Bytes): (lines: seq<Bytes>)
    ensures |lines| == Newlines(s) + 1
  {
    if s == [] then [[]]
    else
      var rest := Split(s[1..]);
      if s[0] == NEWLINE then [[]] + rest else [[s[0]] + rest[0]] + rest[1..]
  }

  function Joined(lines: seq<Bytes>): Bytes {
    if lines == [] then []
    else if |lines| == 1 then lines[0]
    else lines[0] + [NEWLINE] + Joined(lines[1..])
  }

  function Stripped(s: Bytes): Bytes {
    if s != [] && s[|s| - 1] == NEWLINE then Stripped(s[..|s| - 1]) else s
  }

  predicate EndsLine(s: Bytes) {
    s != [] && s[|s| - 1] == NEWLINE
  }

  function Ending(s: Bytes): nat {
    if EndsLine(s) then 1 else 0
  }

  /** The lines of a text, the empty one after a last newline left out, and the first too when the text was cut. */
  function Entries(s: Bytes, cut: bool): seq<Bytes> {
    var all := Split(s);
    var ended := if EndsLine(s) then all[..|all| - 1] else all;
    if cut && ended != [] then ended[1..] else ended
  }

  function LastOf(lines: seq<Bytes>, n: nat): seq<Bytes> {
    if |lines| <= n then lines else lines[|lines| - n..]
  }

  function Shown(lines: seq<Bytes>, n: nat): Bytes {
    Stripped(Joined(LastOf(lines, n)))
  }

  /** What is asked for: the last `n` lines of the whole file, without the blank ones at its end. */
  function LastLines(file: Bytes, n: nat): Bytes {
    Shown(Entries(file, false), n)
  }

  /** The bytes the reader may look at. */
  function Reach(file: Bytes): Bytes {
    if |file| <= MOST then file else file[|file| - MOST..]
  }

  /** The file is small enough, or the lines asked for end within reach, each with the newline before it. */
  predicate Reaches(file: Bytes, n: nat) {
    |file| <= MOST || Newlines(Reach(file)) >= n + Ending(file)
  }

  function Flat(chunks: seq<Bytes>): Bytes {
    if chunks == [] then [] else chunks[0] + Flat(chunks[1..])
  }

  // ---- A text and its end ----

  lemma {:induction false} NewlinesOver(a: Bytes, b: Bytes)
    ensures Newlines(a + b) == Newlines(a) + Newlines(b)
  {
    if a == [] {
      assert a + b == b;
    } else {
      assert (a + b)[1..] == a[1..] + b;
      NewlinesOver(a[1..], b);
    }
  }

  /** Two runs of lines, the last of the one continuing into the first of the other. */
  function Meet(front: seq<Bytes>, back: seq<Bytes>): (r: seq<Bytes>)
    requires front != [] && back != []
    ensures |r| == |front| + |back| - 1
  {
    front[..|front| - 1] + [front[|front| - 1] + back[0]] + back[1..]
  }

  lemma MeetCons(line: Bytes, front: seq<Bytes>, back: seq<Bytes>)
    requires front != [] && back != []
    ensures Meet([line] + front, back) == [line] + Meet(front, back)
  {
    assert ([line] + front)[..|front|] == [line] + front[..|front| - 1];
  }

  lemma MeetInto(c: Byte, front: seq<Bytes>, back: seq<Bytes>)
    requires front != [] && back != []
    ensures Meet([[c] + front[0]] + front[1..], back) == [[c] + Meet(front, back)[0]] + Meet(front, back)[1..]
  {
    if |front| == 1 {
      assert [c] + front[0] + back[0] == [c] + (front[0] + back[0]);
    } else {
      assert front == [front[0]] + front[1..];
      MeetCons(front[0], front[1..], back);
      MeetCons([c] + front[0], front[1..], back);
    }
  }

  lemma {:induction false} SplitOver(a: Bytes, b: Bytes)
    ensures Split(a + b) == Meet(Split(a), Split(b))
  {
    hide Meet;
    if a == [] {
      assert a + b == b;
      MeetNothing(Split(b));
    } else {
      assert (a + b)[1..] == a[1..] + b && (a + b)[0] == a[0];
      SplitOver(a[1..], b);
      MeetCons([], Split(a[1..]), Split(b));
      MeetInto(a[0], Split(a[1..]), Split(b));
    }
  }

  lemma MeetNothing(back: seq<Bytes>)
    requires back != []
    ensures Meet([[]], back) == back
  {
    assert [] + back[0] == back[0];
  }

  /** The lines of what was cut off a file are the file's last lines, and before them is the line that was cut, or one before it. */
  lemma CutEntries(file: Bytes, i: nat)
    requires 0 < i < |file|
    ensures
      var whole, part := Entries(file, false), Entries(file[i..], true);
      && |part| == Newlines(file[i..]) - Ending(file)
      && |part| < |whole| && whole[|whole| - |part|..] == part
      && |Split(file[i..])[0]| <= |whole[|whole| - |part| - 1]|
  {
    hide Split, Newlines, Meet;
    var a, b := file[..i], file[i..];
    assert a + b == file;
    SplitOver(a, b);
    assert b[|b| - 1] == file[|file| - 1];
    NewlineCounts(b);
    MeetEnds(Split(a), Split(b), Ending(file));
    assert Ending(b) == Ending(file);
    assert Entries(file, false) == Split(file)[..|Split(file)| - Ending(file)];
    assert Entries(b, true) == Split(b)[1..|Split(b)| - Ending(b)];
  }

  lemma MeetEnds(front: seq<Bytes>, back: seq<Bytes>, drop: nat)
    requires front != [] && drop <= 1 && |back| > drop
    ensures
      var all := Meet(front, back);
      var whole, part := all[..|all| - drop], back[1..|back| - drop];
      |part| < |whole| && whole[|whole| - |part|..] == part && |back[0]| <= |whole[|whole| - |part| - 1]|
  {
    var all := Meet(front, back);
    assert all[|front|..] == back[1..];
  }

  lemma NewlineCounts(s: Bytes)
    requires s != []
    ensures EndsLine(s) ==> Newlines(s) > 0
  {
    assert s == s[..|s| - 1] + [s[|s| - 1]];
    NewlinesOver(s[..|s| - 1], [s[|s| - 1]]);
  }

  lemma LastOfEnd(whole: seq<Bytes>, part: seq<Bytes>, n: nat)
    requires n <= |part| <= |whole| && whole[|whole| - |part|..] == part
    ensures LastOf(whole, n) == LastOf(part, n)
  {
    assert whole[|whole| - n..] == whole[|whole| - |part|..][|part| - n..];
  }

  /** Enough newlines within what was read give the same lines as the whole file. */
  lemma EnoughRead(file: Bytes, i: nat, n: nat)
    requires 0 < i < |file| && Newlines(file[i..]) >= n + Ending(file)
    ensures Shown(Entries(file[i..], true), n) == LastLines(file, n)
  {
    CutEntries(file, i);
    LastOfEnd(Entries(file, false), Entries(file[i..], true), n);
  }

  // ---- The reader ----

  method CountNewlines(chunk: Bytes) returns (n: nat)
    ensures n == Newlines(chunk)
  {
    n := 0;
    for k := 0 to |chunk|
      invariant n == Newlines(chunk[..k])
    {
      assert chunk[..k + 1] == chunk[..k] + [chunk[k]];
      NewlinesOver(chunk[..k], [chunk[k]]);
      if chunk[k] == NEWLINE {
        n := n + 1;
      }
    }
    assert chunk[..|chunk|] == chunk;
  }

  lemma {:induction false} FlatCons(chunk: Bytes, chunks: seq<Bytes>)
    ensures Flat([chunk] + chunks) == chunk + Flat(chunks)
  {
    assert ([chunk] + chunks)[1..] == chunks;
  }

  function Smallest(a: nat, b: nat, c: nat): nat {
    var least := if a < b then a else b;
    if least < c then least else c
  }

  /**
   * The tail of the log, or nothing when there is no log: the last lines of the file when they are within reach, and
   * otherwise the complete lines that are.
   */
  method ReadJobLog(log: Option<Bytes>, lines: int) returns (r: Bytes)
    ensures lines <= 0 || log.None? ==> r == []
    ensures lines > 0 && log.Some? && Reaches(log.value, lines) ==> r == LastLines(log.value, lines)
    ensures lines > 0 && log.Some? && !Reaches(log.value, lines) ==> r == Shown(Entries(Reach(log.value), true), lines)
  {
    hide Newlines, Entries, Shown, LastLines;
    if lines <= 0 || log.None? {
      return [];
    }
    var file := log.value;
    var size := |file|;
    var chunks: seq<Bytes> := [];
    var position, consumed, newlines := size, 0, 0;
    assert file[size..] == [];
    NoNewlines();
    while position > 0 && consumed < MOST && newlines < lines + 1
      invariant position == size - consumed && 0 <= consumed <= size && consumed <= MOST
      invariant Flat(chunks) == file[position..]
      invariant newlines == Newlines(file[position..])
      decreases position
    {
      var length := Smallest(CHUNK, position, MOST - consumed);
      var start := size - consumed - length;
      var chunk := file[start..start + length];
      FlatCons(chunk, chunks);
      assert file[start..] == chunk + file[position..];
      NewlinesOver(chunk, file[position..]);
      chunks := [chunk] + chunks;
      consumed := consumed + length;
      position := start;
      var more := CountNewlines(chunk);
      newlines := newlines + more;
    }
    var text := Flat(chunks);
    r := Shown(Entries(text, position > 0), lines);
    if position == 0 {
      assert file[0..] == file;
      WholeRead(file, lines);
    } else {
      EarlyStop(file, position, lines);
    }
  }

  lemma NoNewlines()
    ensures Newlines([]) == 0
  {
  }

  lemma WholeRead(file: Bytes, n: nat)
    ensures Shown(Entries(file, false), n) == LastLines(file, n)
  {
  }

  lemma WithinReach(file: Bytes, position: nat)
    requires position <= |file| && |file| - position <= MOST
    ensures Newlines(file[position..]) <= Newlines(Reach(file))
  {
    hide Newlines;
    var from := |file| - |Reach(file)|;
    assert Reach(file) == file[from..position] + file[position..];
    NewlinesOver(file[from..position], file[position..]);
  }

  /** Stopping before the start of the file, for newlines or for size, showed what it should. */
  lemma EarlyStop(file: Bytes, position: nat, n: nat)
    requires 0 < position <= |file| && |file| - position <= MOST
    requires |file| - position == MOST || Newlines(file[position..]) >= n + 1
    ensures Reaches(file, n) ==> Shown(Entries(file[position..], true), n) == LastLines(file, n)
    ensures !Reaches(file, n) ==> file[position..] == Reach(file)
  {
    hide Newlines, Entries, Shown, LastLines;
    if |file| <= MOST || |file| - position < MOST {
      NoNewlines();
      assert file[|file|..] == [];
      EnoughRead(file, position, n);
      WithinReach(file, position);
    } else {
      assert file[position..] == Reach(file);
      if Reaches(file, n) {
        EnoughRead(file, position, n);
      }
    }
  }

  // ---- Out of reach ----

  predicate AllNewlines(s: Bytes) {
    forall i :: 0 <= i < |s| ==> s[i] == NEWLINE
  }

  lemma {:induction false} StrippedOver(a: Bytes, b: Bytes)
    ensures AllNewlines(b) ==> Stripped(a + b) == Stripped(a)
    ensures !AllNewlines(b) ==> Stripped(a + b) == a + Stripped(b)
    decreases |b|
  {
    if b == [] {
      assert a + b == a;
    } else {
      var front, last := b[..|b| - 1], b[|b| - 1];
      assert (a + b)[|a + b| - 1] == last && (a + b)[..|a + b| - 1] == a + front;
      assert b == front + [last];
      StrippedOver(a, front);
    }
  }

  lemma {:induction false} StrippedLength(s: Bytes)
    ensures |Stripped(s)| <= |s|
    ensures AllNewlines(s) <==> Stripped(s) == []
  {
    if s != [] && s[|s| - 1] == NEWLINE {
      StrippedLength(s[..|s| - 1]);
      assert s == s[..|s| - 1] + [s[|s| - 1]];
    }
  }

  lemma {:induction false} JoinedOver(a: seq<Bytes>, b: seq<Bytes>)
    requires a != [] && b != []
    ensures Joined(a + b) == Joined(a) + [NEWLINE] + Joined(b)
  {
    if |a| == 1 {
      assert (a + b)[1..] == b;
    } else {
      assert (a + b)[1..] == a[1..] + b;
      JoinedOver(a[1..], b);
      assert (a + b)[0] == a[0];
    }
  }

  ghost predicate NoneHasNewline(lines: seq<Bytes>) {
    forall i :: 0 <= i < |lines| ==> NEWLINE !in lines[i]
  }

  lemma {:induction false} SplitLines(s: Bytes)
    ensures NoneHasNewline(Split(s))
    ensures Split(s) != [] && |s| == Size(Split(s)) + Newlines(s)
  {
    if s != [] {
      SplitLines(s[1..]);
    }
  }

  function Size(lines: seq<Bytes>): nat {
    if lines == [] then 0 else |lines[0]| + Size(lines[1..])
  }

  lemma {:induction false} BlankSize(lines: seq<Bytes>)
    requires AllNewlines(Joined(lines)) && NoneHasNewline(lines)
    ensures Size(lines) == 0
  {
    if lines != [] {
      if |lines| > 1 {
        assert Joined(lines) == lines[0] + ([NEWLINE] + Joined(lines[1..]));
        EndOf(lines[0] + [NEWLINE], Joined(lines[1..]));
        BlankSize(lines[1..]);
      }
      FrontOf(lines[0], if |lines| == 1 then [] else [NEWLINE] + Joined(lines[1..]));
      assert lines[0] + [] == lines[0];
    }
  }

  lemma EndOf(a: Bytes, b: Bytes)
    requires AllNewlines(a + b)
    ensures AllNewlines(b)
  {
    assert forall i :: 0 <= i < |b| ==> b[i] == (a + b)[|a| + i];
  }

  lemma FrontOf(a: Bytes, b: Bytes)
    requires AllNewlines(a + b) && NEWLINE !in a
    ensures a == []
  {
    if a != [] {
      FirstOf(a, b);
    }
  }

  lemma FirstOf(a: Bytes, b: Bytes)
    requires a != []
    ensures (a + b)[0] == a[0] && a[0] in a
  {
  }

  /** One more line before shown ones shows more, unless that line and all after it are blank. */
  lemma ShowsMore(before: seq<Bytes>, line: Bytes, after: seq<Bytes>)
    requires NEWLINE !in line
    requires line != [] || !AllNewlines(Joined(after))
    ensures Stripped(Joined(before + [line] + after)) != Stripped(Joined(after))
  {
    var front := before + [line];
    StrippedLength(Joined(after));
    if after == [] {
      assert front + after == front;
      LastIsLine(before, line);
    } else {
      JoinedOver(front, after);
      var a := Joined(front) + [NEWLINE];
      StrippedOver(a, Joined(after));
      StrippedOver(Joined(front), [NEWLINE]);
      if AllNewlines(Joined(after)) {
        LastIsLine(before, line);
      }
    }
  }

  lemma LastIsLine(before: seq<Bytes>, line: Bytes)
    requires line != [] && NEWLINE !in line
    ensures Stripped(Joined(before + [line])) != []
  {
    var s := Joined(before + [line]);
    if before == [] {
      assert before + [line] == [line];
    } else {
      JoinedOver(before, [line]);
    }
    assert s[|s| - 1] == line[|line| - 1] && line[|line| - 1] in line;
  }

  /** What is shown is the last lines of the file exactly when they are within reach. */
  lemma ShownExactly(file: Bytes, n: nat)
    requires 0 < n < MOST && |file| > MOST
    ensures Shown(Entries(Reach(file), true), n) == LastLines(file, n) <==> Reaches(file, n)
  {
    hide Split, Newlines, Joined, Stripped, Entries, Size;
    var i := |file| - MOST;
    var part, whole := Entries(Reach(file), true), Entries(file, false);
    CutEntries(file, i);
    if Reaches(file, n) {
      EnoughRead(file, i, n);
    } else {
      var line := whole[|whole| - |part| - 1];
      var shown := LastOf(whole, n);
      var before := shown[..|shown| - |part| - 1];
      assert shown == before + [line] + part;
      assert LastOf(part, n) == part;
      WholeLines(file);
      CutHasText(file, n);
      ShowsMore(before, line, part);
    }
  }

  lemma {:induction false} NoneCounted(s: Bytes)
    requires NEWLINE !in s
    ensures Newlines(s) == 0
  {
    if s != [] {
      NoneCounted(s[1..]);
    }
  }

  /** A file of one line just over the limit: not even its last line is shown as it is. */
  lemma LongLineCut()
    ensures
      var file: Bytes := seq(MOST + 1, i => 97);
      Shown(Entries(Reach(file), true), 1) != LastLines(file, 1)
  {
    hide Newlines, Entries, Shown, LastLines;
    var file: Bytes := seq(MOST + 1, i => 97);
    NoneCounted(Reach(file));
    ShownExactly(file, 1);
  }

  lemma WholeLines(file: Bytes)
    ensures NoneHasNewline(Entries(file, false))
  {
    hide Split, Newlines;
    SplitLines(file);
  }

  /** Bytes with few newlines hold something else, in the first line or after it. */
  lemma CutHasText(file: Bytes, n: nat)
    requires 0 < n < MOST && |file| > MOST && !Reaches(file, n)
    ensures Split(Reach(file))[0] != [] || !AllNewlines(Joined(Entries(Reach(file), true)))
  {
    hide Split, Newlines, Joined, AllNewlines;
    var s := Reach(file);
    assert s[|s| - 1] == file[|file| - 1];
    var lines := Split(s);
    SplitLines(s);
    var part := Entries(s, true);
    NewlineCounts(s);
    if AllNewlines(Joined(part)) {
      BlankSize(part);
      SizeParts(lines, part, EndsLine(s));
      LastIsEmpty(s);
    }
  }

  lemma LastIsEmpty(s: Bytes)
    requires s != []
    ensures EndsLine(s) ==> Split(s)[|Split(s)| - 1] == []
  {
    hide Newlines;
    var front, last := s[..|s| - 1], s[|s| - 1];
    assert s == front + [last];
    SplitOver(front, [last]);
    if EndsLine(s) {
      NewlineSplit();
    }
  }

  lemma NewlineSplit()
    ensures Split([NEWLINE]) == [[], []]
  {
    var s: Bytes, none: Bytes := [NEWLINE], [];
    assert s[0] == NEWLINE && s[1..] == none;
    assert Split(none) == [none];
    assert Split(s) == [none] + [none];
  }

  lemma SizeParts(lines: seq<Bytes>, part: seq<Bytes>, ended: bool)
    requires lines != [] && (ended ==> |lines| > 1) && part == lines[1..if ended then |lines| - 1 else |lines|]
    requires Size(part) == 0
    ensures ended && lines[|lines| - 1] == [] ==> Size(lines) == |lines[0]|
    ensures !ended ==> Size(lines) == |lines[0]|
  {
    assert Size(lines) == |lines[0]| + Size(lines[1..]);
    if ended {
      assert lines[1..] == part + [lines[|lines| - 1]];
      SizeSnoc(part, lines[|lines| - 1]);
    } else {
      assert lines[1..] == part;
    }
  }

  lemma {:induction false} SizeSnoc(lines: seq<Bytes>, line: Bytes)
    ensures Size(lines + [line]) == Size(lines) + |line|
  {
    if lines == [] {
      assert lines + [line] == [line];
    } else {
      assert (lines + [line])[1..] == lines[1..] + [line];
      SizeSnoc(lines[1..], line);
    }
  }
}
