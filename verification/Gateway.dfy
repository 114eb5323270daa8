/**
 * The gateway's byte streams: the framing of a request and the hand-over of what follows it to a duplex worker
 * (cli/auth-action.ts), and the lines a client reads and the outbox it writes from (lib/gateway-client.ts).
 */
module Gateway {
  import opened Octets

  const LF: Byte := 10
  const MAX_INPUT: nat := 1024 * 1024
  const MAX_OUTBOX: nat := 1024 * 1024

  function Flat(chunks: seq<Bytes>): Bytes {
    if chunks == [] then [] else Flat(chunks[..|chunks| - 1]) + chunks[|chunks| - 1]
  }

  /** How far the first newline is, or the length when there is none. */
  function LineLength(s: Bytes): (n: nat)
    ensures n <= |s|
    ensures LF !in s[..n]
    ensures n < |s| ==> s[n] == LF
  {
    if s == [] || s[0] == LF then 0
    else
      var n := LineLength(s[1..]);
      assert s[..n + 1] == [s[0]] + s[1..][..n];
      n + 1
  }

  /** The first line, its newline included. */
  function FirstLine(s: Bytes): Bytes
    requires LF in s
  {
    LineIsThere(s);
    s[..LineLength(s) + 1]
  }

  function AfterLine(s: Bytes): Bytes
    requires LF in s
  {
    LineIsThere(s);
    s[LineLength(s) + 1..]
  }

  lemma LineIsThere(s: Bytes)
    requires LF in s
    ensures LineLength(s) < |s|
  {
    assert s[..|s|] == s;
  }

  /** Bytes without a newline, a newline and what follows are the first line and the bytes behind it. */
  lemma CutAtNewline(line: Bytes, rest: Bytes)
    requires LF !in line
    ensures LF in line + [LF] + rest
    ensures FirstLine(line + [LF] + rest) == line + [LF] && AfterLine(line + [LF] + rest) == rest
  {
    var s := line + [LF] + rest;
    assert s[|line|] == LF && s == line + ([LF] + rest);
    LineLengthOver(line, [LF] + rest);
    assert s[..|line| + 1] == line + [LF] && s[|line| + 1..] == rest;
  }

  lemma {:induction false} LineLengthOver(a: Bytes, b: Bytes)
    ensures LF in a ==> LineLength(a + b) == LineLength(a)
    ensures LF !in a ==> LineLength(a + b) == |a| + LineLength(b)
  {
    if a == [] {
      assert a + b == b;
    } else {
      assert (a + b)[1..] == a[1..] + b && (a + b)[0] == a[0];
      LineLengthOver(a[1..], b);
    }
  }

  /** Bytes behind the first newline add to what follows the first line, and to nothing else. */
  lemma MoreAfterLine(a: Bytes, b: Bytes)
    requires LF in a
    ensures LF in a + b && FirstLine(a + b) == FirstLine(a) && AfterLine(a + b) == AfterLine(a) + b
  {
    LineIsThere(a);
    LineLengthOver(a, b);
    assert (a + b)[LineLength(a)] == LF;
  }

  lemma FlatSnoc(chunks: seq<Bytes>, chunk: Bytes)
    ensures Flat(chunks + [chunk]) == Flat(chunks) + chunk
  {
    assert (chunks + [chunk])[..|chunks|] == chunks;
  }

  lemma FlatNone(chunks: seq<Bytes>)
    ensures Flat(chunks[..0]) == []
  {
  }

  lemma FlatNext(chunks: seq<Bytes>, k: nat)
    requires k < |chunks|
    ensures Flat(chunks[..k + 1]) == Flat(chunks[..k]) + chunks[k]
  {
    assert chunks[..k + 1] == chunks[..k] + [chunks[k]];
    FlatSnoc(chunks[..k], chunks[k]);
  }

  // ---- The server's side of a connection ----

  /** Where later bytes go: nowhere yet, to those held for the worker, or to the worker's stdin. */
  datatype Forward = Nowhere | Holding | Writing

  datatype Event = Data(chunk: Bytes) | WorkerStarted | InputEnded | TimedOut

  function AllData(events: seq<Event>): Bytes {
    if events == [] then []
    else AllData(events[..|events| - 1]) + (if events[|events| - 1].Data? then events[|events| - 1].chunk else [])
  }

  /** One of the first `k` events is a time-out that comes before the first line is complete. */
  ghost predicate TimedOutBy(events: seq<Event>, k: nat)
    requires k <= |events|
  {
    exists j :: 0 <= j < k && events[j].TimedOut? && LF !in AllData(events[..j])
  }

  /** Event `j` completes the first line: within the limit, in time, and it is granted. */
  ghost predicate OpensAt(events: seq<Event>, j: nat, grants: Bytes -> bool)
    requires j < |events|
  {
    var data := AllData(events[..j + 1]);
    && LF !in AllData(events[..j]) && LF in data
    && |data| <= MAX_INPUT && !TimedOutBy(events, j) && grants(FirstLine(data))
  }

  /** One of the first `k` events completes such a line. */
  ghost predicate OpenedBy(events: seq<Event>, k: nat, grants: Bytes -> bool)
    requires k <= |events|
  {
    exists j :: 0 <= j < k && OpensAt(events, j, grants)
  }

  /** One of the first `k` events is the start of the worker, after such a line. */
  ghost predicate StartedBy(events: seq<Event>, k: nat, grants: Bytes -> bool)
    requires k <= |events|
  {
    exists j :: 0 <= j < k && events[j].WorkerStarted? && OpenedBy(events, j, grants)
  }

  /** One of the first `k` events is the end of the input, after the worker has been started. */
  ghost predicate EndedBy(events: seq<Event>, k: nat, grants: Bytes -> bool)
    requires k <= |events|
  {
    exists j :: 0 <= j < k && events[j].InputEnded? && StartedBy(events, j, grants)
  }

  /** More was behind the first line than may be held, before a worker was started. */
  ghost predicate OverfullAt(events: seq<Event>, j: nat, grants: Bytes -> bool)
    requires j <= |events|
  {
    var data := AllData(events[..j]);
    OpenedBy(events, j, grants) && !StartedBy(events, j, grants) && LF in data && |AfterLine(data)| > MAX_INPUT
  }

  /** That was so after one of the first `k` events. */
  ghost predicate OverfullBy(events: seq<Event>, k: nat, grants: Bytes -> bool)
    requires k <= |events|
  {
    exists j :: 0 <= j <= k && OverfullAt(events, j, grants)
  }

  lemma DataStep(events: seq<Event>, k: nat)
    requires k < |events|
    ensures AllData(events[..k + 1]) == AllData(events[..k]) + (if events[k].Data? then events[k].chunk else [])
    ensures LF in AllData(events[..k]) ==> LF in AllData(events[..k + 1])
    ensures !events[k].Data? ==> AllData(events[..k + 1]) == AllData(events[..k])
  {
    assert events[..k + 1][..k] == events[..k];
    assert AllData(events[..k]) + [] == AllData(events[..k]);
  }

  /** What one more event adds. */
  lemma EventStep(events: seq<Event>, k: nat, grants: Bytes -> bool)
    requires k < |events|
    ensures TimedOutBy(events, k + 1) <==> TimedOutBy(events, k) || (events[k].TimedOut? && LF !in AllData(events[..k]))
    ensures OpenedBy(events, k + 1, grants) <==> OpenedBy(events, k, grants) || OpensAt(events, k, grants)
    ensures StartedBy(events, k + 1, grants) <==> StartedBy(events, k, grants) || (events[k].WorkerStarted? && OpenedBy(events, k, grants))
    ensures EndedBy(events, k + 1, grants) <==> EndedBy(events, k, grants) || (events[k].InputEnded? && StartedBy(events, k, grants))
    ensures OverfullBy(events, k + 1, grants) <==> OverfullBy(events, k, grants) || OverfullAt(events, k + 1, grants)
  {
    hide OpensAt, OverfullAt, AllData;
  }

  /** A line that was completed stays complete. */
  lemma {:induction false} OpenedHasLine(events: seq<Event>, k: nat, grants: Bytes -> bool)
    requires k <= |events| && OpenedBy(events, k, grants)
    ensures LF in AllData(events[..k])
  {
    hide AllData, OpensAt;
    DataStep(events, k - 1);
    EventStep(events, k - 1, grants);
    if OpenedBy(events, k - 1, grants) {
      OpenedHasLine(events, k - 1, grants);
    } else {
      OpensHasLine(events, k - 1, grants);
    }
  }

  lemma OpensHasLine(events: seq<Event>, k: nat, grants: Bytes -> bool)
    requires k < |events| && OpensAt(events, k, grants)
    ensures LF in AllData(events[..k + 1])
  {
    hide AllData, FirstLine;
  }

  lemma NothingHappened(events: seq<Event>, grants: Bytes -> bool)
    ensures AllData(events[..0]) == [] && !TimedOutBy(events, 0) && !OpenedBy(events, 0, grants) && !StartedBy(events, 0, grants)
    ensures !EndedBy(events, 0, grants) && !OverfullBy(events, 0, grants)
  {
  }

  class Connection {
    var chunks: seq<Bytes>
    var total: nat
    var closed: bool
    var forward: Forward
    var pending: seq<Bytes>
    var held: nat
    var destroyed: bool
    /** What the worker's stdin has been given, and whether it is still open. */
    var stdin: Bytes
    var inputOpen: bool
    /** All that the socket has received. */
    ghost var received: Bytes

    /** How often stdin has been written to. */
    var writes: nat

    /** Whether a first line is a request for a duplex stream that is granted, and which writes to stdin fail. */
    const grants: Bytes -> bool
    const breaks: nat -> bool

    ghost predicate Framing()
      reads this
    {
      Flat(chunks) == received && LF !in received && total == |received| <= MAX_INPUT && forward == Nowhere
    }

    ghost predicate Granted()
      reads this
    {
      closed && LF in received && grants(FirstLine(received))
    }

    /** Nothing goes to stdin but what follows the first line of a granted request, once, in order and without a gap. */
    ghost predicate Valid()
      reads this
    {
      && (!closed ==> Framing())
      && (forward == Nowhere ==> stdin == [] && inputOpen && !destroyed)
      && (forward == Holding ==> Granted() && stdin == [] && inputOpen && Flat(pending) <= AfterLine(received))
      && (forward == Holding && !destroyed ==> Flat(pending) == AfterLine(received) && held == |AfterLine(received)| <= MAX_INPUT)
      && (forward == Writing ==> Granted() && stdin <= AfterLine(received))
      && (forward == Writing && inputOpen && !destroyed ==> stdin == AfterLine(received))
      && (inputOpen ==> Unbroken())
    }

    constructor (grants: Bytes -> bool, breaks: nat -> bool)
      ensures Valid() && received == [] && !closed && this.grants == grants && this.breaks == breaks
    {
      this.grants, this.breaks, writes := grants, breaks, 0;
      chunks, total, closed, forward, pending, held, destroyed := [], 0, false, Nowhere, [], 0, false;
      stdin, inputOpen, received := [], true, [];
    }

    /** A write that fails closes stdin for good. */
    method Write(bytes: Bytes)
      modifies this`stdin, this`inputOpen, this`writes
      ensures inputOpen == (old(inputOpen) && !breaks(old(writes)))
      ensures stdin == old(stdin) + (if inputOpen then bytes else [])
      ensures Unbroken() <==> old(Unbroken()) && (old(inputOpen) ==> inputOpen)
    {
      if inputOpen {
        if breaks(writes) {
          inputOpen := false;
        } else {
          stdin := stdin + bytes;
        }
        writes := writes + 1;
      }
    }

    /** No write to stdin has failed. */
    ghost predicate Unbroken()
      reads this`writes
    {
      forall n :: 0 <= n < writes ==> !breaks(n)
    }

    /** All that was received is within the limit. */
    ghost predicate Small()
      reads this
    {
      |received| <= MAX_INPUT
    }

    /** A piece of a request whose line is not yet complete. */
    method Frame(chunk: Bytes)
      requires !closed && |chunk| <= |received| && LF !in received[..|received| - |chunk|]
      requires Flat(chunks) + chunk == received && total + |chunk| == |received| && total <= MAX_INPUT
      requires forward == Nowhere && stdin == [] && inputOpen && !destroyed && Unbroken()
      modifies this`chunks, this`total, this`closed, this`pending, this`held, this`forward
      ensures Valid()
      ensures forward != Writing
      ensures closed <==> LF in received || !Small()
      ensures forward == Holding <==> LF in received && Small() && grants(FirstLine(received))
    {
      hide Flat, LineLength, FirstLine, AfterLine, Unbroken;
      assert received == received[..|received| - |chunk|] + chunk;
      if total + |chunk| > MAX_INPUT {
        closed := true;
        return;
      }
      FlatSnoc(chunks, chunk);
      chunks := chunks + [chunk];
      total := total + |chunk|;
      if LF in chunk {
        closed := true;
        var whole := Flat(chunks);
        if grants(FirstLine(whole)) {
          var trailing := AfterLine(whole);
          FlatOne(trailing);
          AfterIsShorter(whole);
          pending := if |trailing| > 0 then [trailing] else [];
          held := |trailing|;
          forward := Holding;
        }
      }
    }

    /** A piece of the input, wherever it was cut; a destroyed socket has none. */
    method OnData(chunk: Bytes)
      requires Valid() && !destroyed
      modifies this
      ensures Valid() && received == old(received) + chunk
      ensures (inputOpen <==> old(inputOpen) && Unbroken()) && (Unbroken() ==> old(Unbroken()))
      ensures old(closed) ==> closed && forward == old(forward)
      ensures forward == Writing <==> old(forward) == Writing
      ensures destroyed <==> old(forward) == Holding && LF in received && |AfterLine(received)| > MAX_INPUT
      ensures !old(closed) ==>
        && (closed <==> LF in received || !Small())
        && (forward == Holding <==> LF in received && Small() && grants(FirstLine(received)))
    {
      hide Flat, LineLength, FirstLine, AfterLine;
      received := received + chunk;
      if LF in old(received) {
        MoreAfterLine(old(received), chunk);
        AfterIsShorter(received);
      }
      if forward == Writing {
        Write(chunk);
        return;
      }
      if forward == Holding {
        held := held + |chunk|;
        if held > MAX_INPUT {
          destroyed := true;
        } else {
          FlatSnoc(pending, chunk);
          pending := pending + [chunk];
        }
        return;
      }
      if closed {
        return;
      }
      assert received[..|received| - |chunk|] == old(received);
      Frame(chunk);
    }

    lemma FlatOne(chunk: Bytes)
      ensures Flat(if |chunk| > 0 then [chunk] else []) == chunk
    {
      assert [chunk][..0] == [];
    }

    lemma AfterIsShorter(s: Bytes)
      requires LF in s
      ensures |AfterLine(s)| <= |s|
    {
    }

    /** The worker exists: what was held goes to it first, and later bytes directly. */
    method OnWorkerStarted()
      requires Valid() && forward == Holding
      modifies this
      ensures Valid() && received == old(received) && forward == Writing && closed == old(closed)
      ensures stdin <= old(Flat(pending)) && (inputOpen ==> stdin == old(Flat(pending)))
      ensures destroyed == old(destroyed) && (inputOpen <==> Unbroken())
    {
      hide Flat, LineLength, FirstLine, AfterLine;
      FlatNone(pending);
      for k := 0 to |pending|
        invariant received == old(received) && forward == Holding && Granted() && pending == old(pending)
        invariant destroyed == old(destroyed) && closed && (inputOpen <==> Unbroken())
        invariant stdin <= Flat(pending[..k]) && (inputOpen ==> stdin == Flat(pending[..k]))
      {
        Write(pending[k]);
        FlatNext(pending, k);
      }
      assert pending[..|pending|] == pending;
      pending := [];
      forward := Writing;
    }

    method OnInputEnded()
      requires Valid()
      modifies this
      ensures Valid() && received == old(received) && closed == old(closed) && forward == old(forward) && destroyed == old(destroyed)
      ensures stdin == old(stdin) && inputOpen == (old(inputOpen) && forward != Writing) && writes == old(writes)
    {
      hide Flat, LineLength, FirstLine, AfterLine;
      if forward == Writing {
        inputOpen := false;
      }
    }

    method OnTimedOut()
      requires Valid()
      modifies this
      ensures Valid() && received == old(received) && closed && forward == old(forward) && destroyed == old(destroyed)
      ensures stdin == old(stdin) && inputOpen == old(inputOpen) && writes == old(writes)
    {
      closed := true;
    }

    /** After `k` events the connection is where they put it. */
    ghost predicate Tracks(events: seq<Event>, k: nat)
      reads this
      requires k <= |events|
    {
      var data := AllData(events[..k]);
      && Valid() && (!destroyed ==> received == data)
      && (closed <==> LF in data || TimedOutBy(events, k) || |data| > MAX_INPUT)
      && (forward != Nowhere <==> OpenedBy(events, k, grants))
      && (forward == Writing <==> StartedBy(events, k, grants))
      && (destroyed <==> OverfullBy(events, k, grants))
      && (inputOpen <==> Unbroken() && !EndedBy(events, k, grants))
    }

    /** What the connection does on one event. */
    method OnEvent(e: Event)
      requires Valid()
      modifies this
      ensures Valid() && (old(destroyed) ==> destroyed && closed && forward != Nowhere)
      ensures !old(destroyed) ==> received == old(received) + (if e.Data? then e.chunk else [])
      ensures e.Data? && !old(destroyed) ==>
        (destroyed <==> old(forward) == Holding && LF in received && |AfterLine(received)| > MAX_INPUT)
      ensures !e.Data? ==> destroyed == old(destroyed) && closed == (old(closed) || e.TimedOut?)
      ensures old(closed) ==> closed
      ensures e.Data? && !old(closed) ==>
        && (closed <==> LF in received || |received| > MAX_INPUT)
        && (forward == Holding <==> LF in received && |received| <= MAX_INPUT && grants(FirstLine(received)))
      ensures forward == Writing <==> old(forward) == Writing || (e.WorkerStarted? && old(forward) == Holding)
      ensures forward != Nowhere <==> old(forward) != Nowhere || (e.Data? && !old(closed) && forward == Holding)
      ensures inputOpen <==> old(inputOpen) && Unbroken() && !(e.InputEnded? && old(forward) == Writing)
      ensures Unbroken() ==> old(Unbroken())
    {
      hide Flat, LineLength, FirstLine, AfterLine;
      match e
      case Data(chunk) =>
        if !destroyed {
          OnData(chunk);
        }
      case WorkerStarted =>
        if forward == Holding {
          OnWorkerStarted();
        }
      case InputEnded => OnInputEnded();
      case TimedOut => OnTimedOut();
    }

    lemma NothingYet(events: seq<Event>)
      requires Valid() && received == [] && !closed
      ensures Tracks(events, 0)
    {
      NothingHappened(events, grants);
    }

    /** One more event of a run keeps track of it. */
    method TrackedEvent(e: Event, ghost events: seq<Event>, ghost k: nat)
      requires k < |events| && e == events[k] && Tracks(events, k)
      modifies this
      ensures Tracks(events, k + 1)
    {
      hide Flat, LineLength, FirstLine, AfterLine, AllData, TimedOutBy, StartedBy, EndedBy, OpenedBy, OverfullBy;
      DataStep(events, k);
      EventStep(events, k, grants);
      if OpenedBy(events, k, grants) {
        OpenedHasLine(events, k, grants);
      }
      OnEvent(e);
      assert !destroyed ==> received == AllData(events[..k + 1]);
      assert closed <==> LF in AllData(events[..k + 1]) || TimedOutBy(events, k + 1) || |AllData(events[..k + 1])| > MAX_INPUT;
      assert forward != Nowhere <==> OpenedBy(events, k + 1, grants);
      assert forward == Writing <==> StartedBy(events, k + 1, grants);
      assert destroyed <==> OverfullBy(events, k + 1, grants);
    }

    /**
     * Any run. Bytes are handed over exactly when the first line was complete in time and within the limit, and granted, and
     * the worker started after it; the connection is destroyed exactly when more was held before that than may be. Otherwise,
     * however much is sent later, the worker has been given exactly the bytes behind the first newline of all that was
     * received, unless a write failed or the input ended after its start.
     */
    method Run(events: seq<Event>)
      requires Valid() && received == [] && !closed
      modifies this
      ensures Valid() && (!destroyed ==> received == AllData(events))
      ensures forward == Writing <==> StartedBy(events, |events|, grants)
      ensures destroyed <==> OverfullBy(events, |events|, grants)
      ensures forward != Writing ==> stdin == []
      ensures forward == Writing ==> LF in received && stdin <= AfterLine(received)
      ensures forward == Writing && !destroyed && Unbroken() && !EndedBy(events, |events|, grants) ==>
        LF in AllData(events) && stdin == AfterLine(AllData(events))
    {
      hide Flat, LineLength, FirstLine, AfterLine, Valid, Tracks;
      NothingYet(events);
      var k := 0;
      while k < |events|
        invariant 0 <= k <= |events| && Tracks(events, k)
      {
        TrackedEvent(events[k], events, k);
        k := k + 1;
      }
      assert events[..|events|] == events;
      TracksMeans(events, |events|);
      HandedOver();
    }

    lemma TracksMeans(events: seq<Event>, k: nat)
      requires k <= |events| && Tracks(events, k)
      ensures Valid() && (!destroyed ==> received == AllData(events[..k]))
      ensures forward == Writing <==> StartedBy(events, k, grants)
      ensures destroyed <==> OverfullBy(events, k, grants)
      ensures inputOpen <==> Unbroken() && !EndedBy(events, k, grants)
    {
    }

    lemma HandedOver()
      requires Valid()
      ensures forward == Writing ==> LF in received && stdin <= AfterLine(received)
      ensures forward == Writing && inputOpen && !destroyed ==> stdin == AfterLine(received)
      ensures forward != Writing ==> stdin == []
    {
    }
  }

  // ---- The client's side ----

  /** The lines with their newlines. */
  function Unsplit(lines: seq<Bytes>): Bytes {
    if lines == [] then [] else Unsplit(lines[..|lines| - 1]) + lines[|lines| - 1] + [LF]
  }

  ghost predicate AreLines(lines: seq<Bytes>) {
    forall i :: 0 <= i < |lines| ==> LF !in lines[i]
  }

  lemma UnsplitSnoc(lines: seq<Bytes>, line: Bytes)
    ensures Unsplit(lines + [line]) == Unsplit(lines) + line + [LF]
  {
    assert (lines + [line])[..|lines|] == lines;
  }

  /** Taking the first line over to the lines keeps what they are of. */
  lemma LineTaken(lines: seq<Bytes>, buffer: Bytes)
    requires LF in buffer && LineLength(buffer) < |buffer| && AreLines(lines)
    ensures
      var n := LineLength(buffer);
      && AreLines(lines + [buffer[..n]])
      && Unsplit(lines + [buffer[..n]]) + buffer[n + 1..] == Unsplit(lines) + buffer
  {
    hide Unsplit, LineLength;
    var n := LineLength(buffer);
    UnsplitSnoc(lines, buffer[..n]);
    LineApart(Unsplit(lines), buffer, n);
  }

  lemma LineApart(front: Bytes, buffer: Bytes, n: nat)
    requires n < |buffer| && buffer[n] == LF
    ensures front + buffer[..n] + [LF] + buffer[n + 1..] == front + buffer
  {
    assert buffer == buffer[..n] + [LF] + buffer[n + 1..];
  }

  lemma {:induction false} FlatFront(chunks: seq<Bytes>)
    requires chunks != []
    ensures Flat(chunks) == chunks[0] + Flat(chunks[1..])
    decreases |chunks|
  {
    var k := |chunks| - 1;
    if k > 0 {
      FlatFront(chunks[..k]);
      assert chunks[1..][..k - 1] == chunks[..k][1..];
      assert Flat(chunks[1..]) == Flat(chunks[..k][1..]) + chunks[k];
    } else {
      assert chunks[..0] == [] && chunks[1..] == [];
    }
  }

  class Stream {
    var connected: bool
    var closed: bool
    var finished: bool
    var buffer: Bytes
    /** What has been handed to the caller, a line at a time. */
    var lines: seq<Bytes>
    var outbox: seq<Bytes>
    var outboxBytes: nat
    var clock: nat
    /** All that was read, all lines accepted for writing, all bytes of lines the socket took, and whether it owes a drain event. */
    ghost var read: Bytes
    ghost var accepted: Bytes
    ghost var sent: Bytes
    ghost var owesDrain: bool
    /** All bytes the socket took, and those of the request line among them. */
    ghost var wire: Bytes
    ghost var request: Bytes

    /** The request line. */
    const payload: Bytes
    const duplex: bool
    const maxLine: nat
    /** What the socket answers to a write, and whether the caller closes the stream on a line. */
    const takes: nat -> int
    const closes: nat -> bool

    /** Nothing accepted is lost, doubled or out of order, its size is known, and what waits is waited for. */
    ghost predicate OutboxValid()
      reads this
    {
      Balanced() && (outbox != [] && connected && !closed ==> owesDrain)
    }

    /** What was handed over are the lines of what was read, the rest is kept, and has no whole line unless the stream is closed. */
    ghost predicate LinesValid()
      reads this
    {
      && Unsplit(lines) + buffer == read && AreLines(lines) && (!closed ==> LF !in buffer && |buffer| <= maxLine)
      && (finished ==> closed)
    }

    constructor (payload: Bytes, duplex: bool, maxLine: nat, takes: nat -> int, closes: nat -> bool)
      ensures OutboxValid() && LinesValid() && read == [] && accepted == [] && wire == [] && !closed && !connected
      ensures this.payload == payload && this.duplex == duplex && this.maxLine == maxLine && this.takes == takes && this.closes == closes
    {
      this.payload, this.duplex, this.maxLine, this.takes, this.closes := payload, duplex, maxLine, takes, closes;
      connected, closed, finished, buffer, lines, outbox, outboxBytes, clock := false, false, false, [], [], [], 0, 0;
      read, accepted, sent, owesDrain, wire, request := [], [], [], false, [], [];
    }

    method Finish()
      requires finished ==> closed
      modifies this`closed, this`finished
      ensures closed && finished
    {
      if !finished {
        finished := true;
        closed := true;
      }
    }

    /** How much of so many bytes the socket takes in a write; it may answer with a failure, which is none. */
    function Taken(at: nat, size: nat): (n: nat)
      ensures n <= size
    {
      if takes(at) < 0 then 0 else if takes(at) > size then size else takes(at)
    }

    /** The socket takes a front part of the bytes, and says how much; when that is not all, it owes a drain event. */
    method SocketWrite(bytes: Bytes) returns (written: int)
      modifies this`clock, this`wire, this`owesDrain
      ensures written == takes(old(clock)) && clock == old(clock) + 1
      ensures wire == old(wire) + bytes[..Taken(old(clock), |bytes|)]
      ensures owesDrain == (old(owesDrain) || Taken(old(clock), |bytes|) < |bytes|)
    {
      written := takes(clock);
      wire := wire + bytes[..Taken(clock, |bytes|)];
      owesDrain := owesDrain || Taken(clock, |bytes|) < |bytes|;
      clock := clock + 1;
    }

    /** The request line goes ahead of the lines, and nothing of either before the socket is connected. */
    ghost predicate Balanced()
      reads this
    {
      && sent + Flat(outbox) == accepted && outboxBytes == |Flat(outbox)| <= MAX_OUTBOX
      && wire == request + sent && request <= payload && (!connected ==> wire == [])
    }

    /** What is left of the outbox, and how many writes later, once it has been written out as far as the socket takes it. */
    function Flushed(outbox: seq<Bytes>, at: nat): (seq<Bytes>, nat)
      decreases |outbox|
    {
      if outbox == [] then (outbox, at)
      else
        var taken := Taken(at, |outbox[0]|);
        if taken == |outbox[0]| then Flushed(outbox[1..], at + 1) else ([outbox[0][taken..]] + outbox[1..], at + 1)
    }

    /** The first of the outbox is written, and stays in front as far as it was not taken. */
    method SendFirst() returns (all: bool)
      requires Balanced() && connected && outbox != []
      modifies this`outbox, this`outboxBytes, this`clock, this`sent, this`wire, this`owesDrain
      ensures Balanced()
      ensures all == (Taken(old(clock), |old(outbox)[0]|) == |old(outbox)[0]|) && clock == old(clock) + 1
      ensures outbox == if all then old(outbox)[1..] else [old(outbox)[0][Taken(old(clock), |old(outbox)[0]|)..]] + old(outbox)[1..]
      ensures owesDrain == (old(owesDrain) || !all)
    {
      hide Flat;
      var next := outbox[0];
      var rest := outbox[1..];
      FlatFront(outbox);
      ghost var before, tail := sent, Flat(rest);
      var answer := SocketWrite(next);
      var written: nat := if answer < 0 then 0 else answer;
      var taken: nat := if written < |next| then written else |next|;
      TakenFrom(before, next, tail, taken);
      sent := sent + next[..taken];
      assert wire == request + sent;
      outboxBytes := outboxBytes - taken;
      all := written >= |next|;
      if all {
        assert next[..taken] == next && next[taken..] + tail == tail;
        outbox := rest;
      } else {
        FlatCons(next[taken..], rest);
        outbox := [next[taken..]] + rest;
      }
    }

    lemma TakenFrom(before: Bytes, next: Bytes, tail: Bytes, taken: nat)
      requires taken <= |next|
      ensures before + next[..taken] + (next[taken..] + tail) == before + (next + tail)
      ensures |next[taken..] + tail| == |next + tail| - taken
    {
    }

    lemma FlatCons(chunk: Bytes, chunks: seq<Bytes>)
      ensures Flat([chunk] + chunks) == chunk + Flat(chunks)
    {
      FlatFront([chunk] + chunks);
      assert ([chunk] + chunks)[1..] == chunks;
    }

    /** Writes until the outbox is empty or the socket takes less than it is offered. */
    method FlushOutbox()
      requires Balanced()
      modifies this`outbox, this`outboxBytes, this`clock, this`sent, this`wire, this`owesDrain
      ensures OutboxValid()
      ensures (outbox, clock) == if connected && !closed then Flushed(old(outbox), old(clock)) else (old(outbox), old(clock))
      ensures owesDrain == (old(owesDrain) || (connected && !closed && outbox != []))
    {
      hide Flat;
      while connected && outbox != [] && !closed
        invariant Balanced() && owesDrain == old(owesDrain)
        invariant connected && !closed ==> Flushed(outbox, clock) == Flushed(old(outbox), old(clock))
        invariant !connected || closed ==> outbox == old(outbox) && clock == old(clock)
        decreases |outbox|
      {
        var all := SendFirst();
        if !all {
          return;
        }
      }
    }

    /**
     * The socket is connected: the request line goes out, and then what was written meanwhile. How much of the request line
     * the socket took is not looked at.
     */
    method OnOpen()
      requires OutboxValid() && LinesValid() && !connected
      modifies this
      ensures OutboxValid() && LinesValid() && accepted == old(accepted) && read == old(read) && lines == old(lines)
      ensures connected && closed == old(closed)
      ensures request == if closed then [] else payload[..Taken(old(clock), |payload|)]
    {
      hide Flat, Unsplit, Flushed, AreLines;
      connected := true;
      if !closed {
        var _ := SocketWrite(payload);
        request := wire;
        assert sent == [] && wire == request + sent;
        FlushOutbox();
      }
    }

    /** The socket has room again. */
    method OnDrain()
      requires OutboxValid() && LinesValid()
      modifies this
      ensures OutboxValid() && LinesValid() && accepted == old(accepted) && read == old(read) && lines == old(lines)
      ensures request == old(request) && (outbox, clock)
        == if connected && !closed then Flushed(old(outbox), old(clock)) else (old(outbox), old(clock))
      ensures owesDrain <==> connected && !closed && outbox != []
    {
      hide Flat, Unsplit;
      owesDrain := false;
      FlushOutbox();
    }

    /**
     * What is on the wire and still to go there is the request line and the accepted lines exactly when the socket took the
     * whole request line at once; otherwise the rest of that line is missing for good, and the lines follow what was taken.
     */
    lemma OnTheWire()
      requires OutboxValid()
      ensures wire + Flat(outbox) == request + accepted
      ensures wire + Flat(outbox) == payload + accepted <==> request == payload
    {
      hide Flat;
      assert request + sent + Flat(outbox) == request + (sent + Flat(outbox));
      assert |request| == |payload| ==> request == payload;
    }

    /** Bytes accepted for writing: behind what waits, or at once when nothing does. */
    method Accept(bytes: Bytes)
      requires OutboxValid() && !closed && outboxBytes + |bytes| <= MAX_OUTBOX
      modifies this`outbox, this`outboxBytes, this`clock, this`sent, this`wire, this`owesDrain, this`accepted
      ensures OutboxValid() && accepted == old(accepted) + bytes
      ensures (outbox, clock) == if old(outbox) == [] && connected then Flushed([bytes], old(clock)) else (old(outbox) + [bytes], old(clock))
    {
      hide Flat, Flushed;
      FlatSnoc(outbox, bytes);
      assert sent + (Flat(outbox) + bytes) == sent + Flat(outbox) + bytes;
      assert [] + [bytes] == [bytes];
      accepted := accepted + bytes;
      outbox := outbox + [bytes];
      outboxBytes := outboxBytes + |bytes|;
      if |outbox| == 1 {
        FlushOutbox();
      }
    }

    /** A line for the worker: accepted in full, or refused in full, which ends the stream when there is no room. */
    method Write(line: Bytes)
      requires OutboxValid() && LinesValid()
      modifies this
      ensures OutboxValid() && LinesValid() && read == old(read) && lines == old(lines) && request == old(request)
      ensures
        var bytes := if line != [] && line[|line| - 1] == LF then line else line + [LF];
        if old(closed) || !duplex then accepted == old(accepted) && closed == old(closed)
        else if old(outboxBytes) + |bytes| > MAX_OUTBOX then accepted == old(accepted) && closed
        else
          && accepted == old(accepted) + bytes && closed == old(closed)
          && (outbox, clock) == if old(outbox) == [] && connected then Flushed([bytes], old(clock)) else (old(outbox) + [bytes], old(clock))
    {
      hide Flat, Unsplit, Flushed, AreLines;
      if closed || !duplex {
        return;
      }
      var bytes := if line != [] && line[|line| - 1] == LF then line else line + [LF];
      if outboxBytes + |bytes| > MAX_OUTBOX {
        Finish();
        return;
      }
      Accept(bytes);
    }

    /** What was handed over and what is kept are what was read. */
    ghost predicate LinesSoFar()
      reads this`lines, this`buffer, this`read
    {
      Unsplit(lines) + buffer == read && AreLines(lines)
    }

    /** The next line is handed over, and the caller may close the stream on it. */
    method HandOver()
      requires LinesSoFar() && LF in buffer
      modifies this`buffer, this`lines, this`closed, this`clock
      ensures LinesSoFar() && |buffer| < |old(buffer)|
      ensures lines == old(lines) + [old(buffer)[..LineLength(old(buffer))]]
      ensures closed == (old(closed) || closes(old(clock))) && clock == old(clock) + 1
    {
      hide Unsplit, AreLines;
      LineIsThere(buffer);
      var newline := LineLength(buffer);
      var line := buffer[..newline];
      LineTaken(lines, buffer);
      buffer := buffer[newline + 1..];
      lines := lines + [line];
      closed := closed || closes(clock);
      clock := clock + 1;
    }

    /** The caller closed the stream on one of the lines handed over since. */
    ghost predicate ClosedSince(since: nat)
      reads this`clock
    {
      exists n :: since <= n < clock && closes(n)
    }

    method HandOverAll()
      requires LinesSoFar() && !closed
      modifies this`buffer, this`lines, this`closed, this`clock
      ensures LinesSoFar() && (!closed ==> LF !in buffer) && clock >= old(clock)
      ensures |lines| == |old(lines)| + clock - old(clock) && old(lines) <= lines
      ensures (closed <==> ClosedSince(old(clock))) && (closed ==> closes(clock - 1))
    {
      hide Unsplit, LineLength, AreLines;
      while LF in buffer && !closed
        invariant LinesSoFar()
        invariant clock >= old(clock) && |lines| == |old(lines)| + clock - old(clock) && old(lines) <= lines
        invariant (closed <==> ClosedSince(old(clock))) && (closed ==> closes(clock - 1))
        decreases |buffer|
      {
        HandOver();
      }
    }

    /**
     * A piece of what the socket sends, wherever it was cut: every line that is complete is handed over, until the caller
     * closes the stream on one or what is left is too long for a line.
     */
    method Deliver(chunk: Bytes)
      requires OutboxValid() && LinesValid() && !closed
      modifies this`buffer, this`lines, this`closed, this`clock, this`finished, this`read
      ensures OutboxValid() && LinesValid() && read == old(read) + chunk
      ensures |lines| == |old(lines)| + clock - old(clock) && old(lines) <= lines
      ensures closed <==> ClosedSince(old(clock)) || |buffer| > maxLine
      ensures ClosedSince(old(clock)) ==> closes(clock - 1)
    {
      hide Flat, Unsplit, LineLength, AreLines, ClosedSince;
      read := read + chunk;
      buffer := buffer + chunk;
      assert Unsplit(lines) + (old(buffer) + chunk) == Unsplit(lines) + old(buffer) + chunk;
      HandOverAll();
      if |buffer| > maxLine {
        Finish();
      }
    }
  }

  /**
   * The first line the server reads is the request, however the writes were cut, exactly when the whole request line was
   * taken, or what follows the part that was taken happens to make it up.
   */
  lemma FirstLineIsRequest(payload: Bytes, n: nat, accepted: Bytes)
    requires payload != [] && payload[|payload| - 1] == LF && LF !in payload[..|payload| - 1] && n <= |payload|
    requires LF in payload[..n] + accepted
    ensures FirstLine(payload[..n] + accepted) == payload <==>
      n == |payload| || (LF in accepted && FirstLine(accepted) == payload[n..])
  {
    hide FirstLine, LineLength;
    var body := payload[..|payload| - 1];
    assert payload == body + [LF];
    if n == |payload| {
      assert payload[..n] == payload;
      WholeFirstLine(body, accepted);
    } else {
      assert payload[..n] == body[..n];
      FirstLineOver(payload[..n], accepted);
      SameBehind(payload, n, FirstLine(accepted));
    }
  }

  lemma WholeFirstLine(body: Bytes, rest: Bytes)
    requires LF !in body
    ensures LF in body + [LF] + rest && FirstLine(body + [LF] + rest) == body + [LF]
  {
    FirstOf(body, rest);
    assert (body + [LF] + rest)[..|body| + 1] == body + [LF];
  }

  lemma FirstLineOver(front: Bytes, rest: Bytes)
    requires LF !in front && LF in front + rest
    ensures LF in rest && FirstLine(front + rest) == front + FirstLine(rest)
  {
    hide LineLength;
    LineLengthOver(front, rest);
    LineIsThere(rest);
    var n := LineLength(rest) + 1;
    assert (front + rest)[..|front| + n] == front + rest[..n];
  }

  lemma SameBehind(whole: Bytes, n: nat, rest: Bytes)
    requires n <= |whole|
    ensures whole[..n] + rest == whole <==> rest == whole[n..]
  {
    assert whole == whole[..n] + whole[n..];
    assert (whole[..n] + rest)[n..] == rest;
  }

  /** A request line without its last byte, and a line behind it: the server reads them as one. */
  lemma RequestRunsOn()
    ensures
      var payload, line: Bytes := [123, 125, LF], [108, 115, LF];
      LF in payload[..2] + line && FirstLine(payload[..2] + line) == [123, 125, 108, 115, LF] != payload
  {
    var payload, line: Bytes := [123, 125, LF], [108, 115, LF];
    var text := payload[..2] + line;
    assert text == [123, 125, 108, 115] + [LF] + [];
    FirstOf([123, 125, 108, 115], []);
    assert text[..5] == text;
  }

  /** Text splits into lines and a rest without a newline in one way only. */
  lemma {:induction false} SplitsOneWay(a: seq<Bytes>, x: Bytes, b: seq<Bytes>, y: Bytes)
    requires AreLines(a) && AreLines(b) && LF !in x && LF !in y
    requires Unsplit(a) + x == Unsplit(b) + y
    ensures a == b && x == y
    decreases |a| + |b|
  {
    hide Unsplit;
    NothingSplit(x);
    NothingSplit(y);
    UnsplitFront(a, x);
    UnsplitFront(b, y);
    if a != [] {
      FirstOf(a[0], Unsplit(a[1..]) + x);
    }
    if b != [] {
      FirstOf(b[0], Unsplit(b[1..]) + y);
    }
    if a != [] && b != [] {
      SplitsOneWay(a[1..], x, b[1..], y);
      assert a == [a[0]] + a[1..] && b == [b[0]] + b[1..];
    }
  }

  lemma NothingSplit(x: Bytes)
    ensures Unsplit([]) + x == x
  {
  }

  lemma {:induction false} UnsplitFront(lines: seq<Bytes>, rest: Bytes)
    ensures lines != [] ==> Unsplit(lines) + rest == lines[0] + [LF] + (Unsplit(lines[1..]) + rest)
    decreases |lines|
  {
    if lines != [] {
      var k := |lines| - 1;
      var tail := lines[k] + [LF] + rest;
      assert Unsplit(lines) + rest == Unsplit(lines[..k]) + tail;
      if k == 0 {
        assert lines[..0] == [] && lines[1..] == [];
      } else {
        UnsplitFront(lines[..k], tail);
        assert lines[..k][1..] == lines[1..][..k - 1];
        assert Unsplit(lines[1..]) + rest == Unsplit(lines[..k][1..]) + tail;
      }
    }
  }

  lemma FirstOf(line: Bytes, rest: Bytes)
    requires LF !in line
    ensures
      var s := line + [LF] + rest;
      LF in s && LineLength(s) == |line| && s[..|line|] == line && s[|line| + 1..] == rest
  {
    var s := line + [LF] + rest;
    LineLengthOver(line, [LF] + rest);
    assert s == line + ([LF] + rest);
    assert s[|line|] == LF;
  }
}
