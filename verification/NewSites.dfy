/** The new-site watcher against CloudPanel's vhost-then-row writes (cli/new-sites.ts). */
module NewSites {
  import opened Outcomes

  /** The panel's rows: each domain's id. */
  type Sites = map<string, nat>

  /** Milliseconds. */
  const ROW_WAIT: nat := 60 * 60 * 1000

  /**
   * CloudPanel's side: the committed rows, when each vhost was last written, the id each vhost's site has or is to have,
   * the ids not used yet, when the vhost directory last changed, the time, and how many row changes are still to come.
   */
  datatype Panel = Panel(rows: Sites, vhosts: map<string, nat>, meant: Sites, nextId: nat, dirChanged: nat, now: nat, left: nat)

  datatype Move = WriteVhost(domain: string) | CommitRow(domain: string) | RemoveVhost(domain: string) | DeleteRow(domain: string)
    | ReplaceVhost(domain: string) | TouchVhost(domain: string) | Pass(milliseconds: nat)

  /** A site's vhost comes before its row, and goes before it; later it is replaced by another file, or written in place. */
  predicate Possible(p: Panel, m: Move) {
    match m
    case WriteVhost(d) => d !in p.vhosts && d !in p.rows
    case CommitRow(d) => d in p.meant && d in p.vhosts && d !in p.rows && p.left > 0
    case RemoveVhost(d) => d in p.vhosts
    case DeleteRow(d) => d !in p.vhosts && d in p.rows && p.left > 0
    case ReplaceVhost(d) => d in p.vhosts
    case TouchVhost(d) => d in p.vhosts
    case Pass(_) => true
  }

  function Play(p: Panel, m: Move): Panel {
    if !Possible(p, m) then p
    else
      match m
      case WriteVhost(d) =>
        p.(vhosts := p.vhosts[d := p.now], meant := p.meant[d := p.nextId], nextId := p.nextId + 1, dirChanged := p.now)
      case CommitRow(d) => p.(rows := p.rows[d := p.meant[d]], left := p.left - 1)
      case RemoveVhost(d) => p.(vhosts := p.vhosts - {d}, meant := p.meant - {d}, dirChanged := p.now)
      case DeleteRow(d) => p.(rows := p.rows - {d}, left := p.left - 1)
      case ReplaceVhost(d) => p.(vhosts := p.vhosts[d := p.now], dirChanged := p.now)
      case TouchVhost(d) => p.(vhosts := p.vhosts[d := p.now])
      case Pass(milliseconds) => p.(now := p.now + milliseconds)
  }

  function Played(p: Panel, moves: seq<Move>): Panel
    decreases |moves|
  {
    if moves == [] then p else Played(Play(p, moves[0]), moves[1..])
  }

  ghost predicate Later(p: Panel, q: Panel) {
    exists moves :: q == Played(p, moves)
  }

  ghost predicate Consistent(p: Panel) {
    && p.meant.Keys == p.vhosts.Keys
    && (forall d :: d in p.meant ==> p.meant[d] < p.nextId && (d in p.rows ==> p.rows[d] == p.meant[d]))
    && (forall d :: d in p.rows ==> p.rows[d] < p.nextId)
    && p.dirChanged <= p.now && forall d :: d in p.vhosts ==> p.vhosts[d] <= p.now
  }

  /** A vhost of the last hour without a row, or a row without a vhost while the directory changed in the last hour. */
  predicate InFlight(p: Panel, sites: Sites) {
    p.now - p.dirChanged < ROW_WAIT &&
    ((exists d :: d in p.vhosts && d !in sites && p.now - p.vhosts[d] < ROW_WAIT)
     || (exists d :: d in sites && d !in p.vhosts))
  }

  /** Nothing is in flight when the directory has been quiet for an hour, nor when every row has its vhost and every vhost of
    * the last hour its row; anything else is. */
  lemma InFlightExactly(p: Panel, sites: Sites)
    ensures
      var quiet := p.now >= p.dirChanged + 3600000;
      var rowsHaveVhosts := forall d :: d in sites ==> d in p.vhosts;
      var vhostsHaveRows := forall d :: d in p.vhosts ==> d in sites || p.now >= p.vhosts[d] + 3600000;
      !InFlight(p, sites) <==> quiet || (rowsHaveVhosts && vhostsHaveRows)
  {
  }

  // ---- Time passing ----

  lemma {:induction false} PlayedOver(p: Panel, a: seq<Move>, b: seq<Move>)
    ensures Played(p, a + b) == Played(Played(p, a), b)
    decreases |a|
  {
    hide Play;
    if a == [] {
      assert a + b == b;
    } else {
      assert (a + b)[1..] == a[1..] + b;
      PlayedOver(Play(p, a[0]), a[1..], b);
    }
  }

  lemma LaterOver(p: Panel, q: Panel, r: Panel)
    requires Later(p, q) && Later(q, r)
    ensures Later(p, r)
  {
    hide Played;
    var a :| q == Played(p, a);
    var b :| r == Played(q, b);
    PlayedOver(p, a, b);
  }

  lemma LaterSelf(p: Panel)
    ensures Later(p, p)
  {
    assert p == Played(p, []);
  }

  lemma PlayKeeps(p: Panel, m: Move)
    requires Consistent(p)
    ensures Consistent(Play(p, m))
    ensures Play(p, m).left <= p.left && (Play(p, m).left == p.left ==> Play(p, m).rows == p.rows)
    ensures p.nextId <= Play(p, m).nextId
  {
  }

  lemma {:induction false} PlayedKeeps(p: Panel, moves: seq<Move>)
    requires Consistent(p)
    ensures
      var q := Played(p, moves);
      Consistent(q) && q.left <= p.left && (q.left == p.left ==> q.rows == p.rows) && p.nextId <= q.nextId
    decreases |moves|
  {
    hide Consistent, Play;
    if moves != [] {
      PlayKeeps(p, moves[0]);
      PlayedKeeps(Play(p, moves[0]), moves[1..]);
    }
  }

  /** The rows stay as they are until a row change is used up. */
  lemma LaterKeeps(p: Panel, q: Panel)
    requires Consistent(p) && Later(p, q)
    ensures Consistent(q) && q.left <= p.left && (q.left == p.left ==> q.rows == p.rows) && p.nextId <= q.nextId
  {
    hide Consistent, Played;
    var moves :| q == Played(p, moves);
    PlayedKeeps(p, moves);
  }

  /** The id a domain's vhost stands for is `id`, or one not used yet at the time of `since`. */
  ghost predicate SameOrNew(p: Panel, d: string, id: nat, since: nat) {
    since <= p.nextId && (d in p.meant ==> p.meant[d] == id || p.meant[d] >= since)
  }

  lemma {:induction false} StaysSameOrNew(p: Panel, moves: seq<Move>, d: string, id: nat, since: nat)
    requires SameOrNew(p, d, id, since)
    ensures SameOrNew(Played(p, moves), d, id, since)
    decreases |moves|
  {
    if moves != [] {
      StaysSameOrNew(Play(p, moves[0]), moves[1..], d, id, since);
    }
  }

  /** What is at a domain that had a row is that row's site, or one whose vhost was written since. */
  lemma SameSiteOrNew(p: Panel, q: Panel, d: string)
    requires Consistent(p) && Later(p, q) && d in p.rows && d in q.meant
    ensures q.meant[d] == p.rows[d] || q.meant[d] >= p.nextId
  {
    hide Played;
    var moves :| q == Played(p, moves);
    StaysSameOrNew(p, moves, d, p.rows[d], p.nextId);
  }

  // ---- The watcher ----

  /** The sites the hooks last ran for, as far as they could be read. */
  function LastKnown(runs: seq<Option<Sites>>): Option<Sites> {
    if runs == [] then None
    else if runs[|runs| - 1].Some? then runs[|runs| - 1]
    else LastKnown(runs[..|runs| - 1])
  }

  /** The hooks never ran again for the sites they last ran for. */
  predicate NoRepeats(runs: seq<Option<Sites>>) {
    runs == [] ||
    (NoRepeats(runs[..|runs| - 1]) && (runs[|runs| - 1].Some? ==> LastKnown(runs[..|runs| - 1]) != runs[|runs| - 1]))
  }

  lemma OneMore(runs: seq<Option<Sites>>, run: Option<Sites>)
    ensures LastKnown(runs + [run]) == (if run.Some? then run else LastKnown(runs))
    ensures NoRepeats(runs) && (run.Some? ==> LastKnown(runs) != run) ==> NoRepeats(runs + [run])
  {
    assert (runs + [run])[..|runs|] == runs;
  }

  /** What CloudPanel does at each point of a run, whether its database cannot be read then, and whether an addon waits. */
  datatype Oracle = Oracle(moves: nat -> seq<Move>, unreadable: nat -> bool, waits: nat -> bool)

  /** The sites the hooks last ran for, and when that was written down. */
  type SeenFile = Option<(Sites, nat)>

  function Known(seen: SeenFile): Option<Sites> {
    if seen.Some? then Some(seen.value.0) else None
  }

  /**
   * A look and what comes of it: the panel when the rows were read and when what is in flight was looked at, whether the rows
   * could not be read, whether an addon was waiting, whether the rows watcher runs, and panel, clock and seen file afterwards.
   */
  datatype Outlook = Outlook(read: Panel, checked: Panel, unread: bool, asked: bool, armed: bool, panel: Panel, clock: nat, seen: SeenFile)

  /** What CloudPanel has come to by the next point of the run. */
  function Moved(p: Panel, o: Oracle, clock: nat): Panel {
    Played(p, o.moves(clock))
  }

  /** A waiting addon is asked only within the hour after the sites last changed. */
  function AskFrom(p: Panel, clock: nat, seen: SeenFile, o: Oracle): (bool, Panel, nat) {
    var now := Moved(p, o, clock);
    if seen.Some? && now.now - seen.value.1 < ROW_WAIT then (o.waits(clock + 2), Moved(now, o, clock + 1), clock + 2)
    else (false, now, clock + 1)
  }

  /** The hooks run for rows that differ from those last known, and the seen file is written. */
  function HookFrom(read: Panel, clock: nat, seen: SeenFile, o: Oracle): (Panel, nat, SeenFile) {
    if Known(seen) == Some(read.rows) then (read, clock, seen)
    else
      var hooked := Moved(read, o, clock);
      (hooked, clock + 1, Some((read.rows, hooked.now)))
  }

  /** What follows once the rows have been read: the hooks, what is in flight, and who waits. */
  function RowsFrom(read: Panel, clock: nat, seen: SeenFile, o: Oracle): Outlook {
    var (hooked, at, seenNow) := HookFrom(read, clock, seen, o);
    var checked := Moved(hooked, o, at);
    var (asked, after, end) := AskFrom(checked, at + 1, seenNow, o);
    Outlook(read, checked, false, asked, InFlight(checked, read.rows) || asked, after, end, seenNow)
  }

  /** One look: the rows, the hooks when they differ from those last known, what is in flight, and who waits. */
  function LookFrom(p: Panel, clock: nat, seen: SeenFile, o: Oracle): Outlook {
    var read := Moved(p, o, clock);
    if o.unreadable(clock + 1) then
      Outlook(read, read, true, false, true, Moved(read, o, clock + 1), clock + 2, seen)
    else RowsFrom(read, clock + 1, seen, o)
  }

  lemma MovedKeeps(p: Panel, o: Oracle, clock: nat)
    requires Consistent(p)
    ensures Consistent(Moved(p, o, clock)) && Later(p, Moved(p, o, clock))
  {
    hide Consistent, Played;
    PlayedKeeps(p, o.moves(clock));
  }

  lemma AskLater(p: Panel, clock: nat, seen: SeenFile, o: Oracle)
    requires Consistent(p)
    ensures Consistent(AskFrom(p, clock, seen, o).1) && Later(p, AskFrom(p, clock, seen, o).1)
  {
    hide Consistent, Later, Moved;
    var now := Moved(p, o, clock);
    MovedKeeps(p, o, clock);
    MovedKeeps(now, o, clock + 1);
    LaterOver(p, now, Moved(now, o, clock + 1));
  }

  /** The panel only moves forward during a look, and what is known afterwards are the rows read. */
  lemma LookMeans(p: Panel, clock: nat, seen: SeenFile, o: Oracle)
    requires Consistent(p)
    ensures
      var look := LookFrom(p, clock, seen, o);
      && Consistent(look.read) && Consistent(look.panel) && Later(p, look.read) && Later(look.read, look.checked)
      && Later(look.checked, look.panel)
      && (!look.unread ==> Known(look.seen) == Some(look.read.rows))
      && (look.armed <==> look.unread || look.asked || InFlight(look.checked, look.read.rows))
      && (look.unread ==> !look.asked && look.seen == seen)
  {
    hide Consistent, Later, Moved, InFlight, AskFrom;
    var read := Moved(p, o, clock);
    MovedKeeps(p, o, clock);
    MovedKeeps(read, o, clock + 1);
    LaterSelf(read);
    if !o.unreadable(clock + 1) {
      var (hooked, at, seenNow) := HookFrom(read, clock + 1, seen, o);
      var checked := Moved(hooked, o, at);
      MovedKeeps(hooked, o, at);
      LaterOver(read, hooked, checked);
      AskLater(checked, at + 1, seenNow, o);
    }
  }

  /**
   * A whole run: where its last look began and what came of it, whether the look before it had set the rows watcher, and the
   * panel, the clock and the seen file at its end.
   */
  datatype Watch = Watch(start: Panel, startClock: nat, startSeen: SeenFile, last: Outlook, armedBefore: bool, panel: Panel, clock: nat)

  /** Looks, and reads the rows again after each that set the watcher, until nothing more has come. */
  ghost function WatchFrom(p: Panel, clock: nat, seen: SeenFile, o: Oracle, lookedAgain: bool, armedBefore: bool): Watch
    requires Consistent(p)
    decreases p.left, if lookedAgain then 0 else 1
  {
    var look := LookFrom(p, clock, seen, o);
    LookMeans(p, clock, seen, o);
    if look.unread || !look.armed then Watch(p, clock, seen, look, armedBefore, look.panel, look.clock)
    else
      var panel, at := Moved(look.panel, o, look.clock), look.clock + 1;
      RecheckLater(p, look.read, look.checked, look.panel, panel, o, look.clock);
      if !o.unreadable(at) && panel.rows != look.read.rows then WatchFrom(panel, at, look.seen, o, lookedAgain, true)
      else if !look.asked || lookedAgain then Watch(p, clock, seen, look, armedBefore, panel, at)
      else WatchFrom(panel, at, look.seen, o, true, true)
  }

  /** Rows that differ when they are read again after a look have used up a row change. */
  lemma RecheckLater(before: Panel, read: Panel, checked: Panel, armedAt: Panel, rechecked: Panel, o: Oracle, clock: nat)
    requires Consistent(before) && Later(before, read) && Later(read, checked) && Later(checked, armedAt)
    requires Consistent(armedAt) && rechecked == Moved(armedAt, o, clock)
    ensures Consistent(rechecked) && Later(armedAt, rechecked) && Later(before, rechecked) && rechecked.left <= before.left
    ensures rechecked.rows != read.rows ==> rechecked.left < before.left
  {
    hide Consistent, Later, Moved;
    MovedKeeps(armedAt, o, clock);
    LaterOver(read, checked, armedAt);
    LaterOver(read, armedAt, rechecked);
    LaterOver(before, read, rechecked);
    LaterKeeps(before, read);
    LaterKeeps(read, rechecked);
  }

  /**
   * What a run comes to. Its last look is one at a panel no earlier than the first, and decides: the rows watcher is left on
   * exactly when a site is in flight, an addon waits or the rows could not be read, and the rows it read are those the hooks
   * ran for last. When the watcher is left on, the rows were read once more after it was set, and were the same or could not
   * be read: whatever row comes later comes while the watcher runs. And an addon that waits was asked after an earlier look of
   * the run had set the watcher.
   */
  lemma {:induction false} WatchMeans(p: Panel, clock: nat, seen: SeenFile, o: Oracle, lookedAgain: bool, armedBefore: bool)
    requires Consistent(p) && (lookedAgain ==> armedBefore)
    ensures
      var w := WatchFrom(p, clock, seen, o, lookedAgain, armedBefore);
      var look := w.last;
      && Consistent(w.start) && Later(p, w.start) && look == LookFrom(w.start, w.startClock, w.startSeen, o)
      && Consistent(look.read) && Later(w.start, look.read) && Later(look.read, look.checked) && Later(look.checked, look.panel)
      && Later(look.panel, w.panel)
      && (look.armed <==> look.unread || look.asked || InFlight(look.checked, look.read.rows))
      && (!look.unread ==> Known(look.seen) == Some(look.read.rows))
      && (look.armed && !look.unread ==> o.unreadable(w.clock) || w.panel.rows == look.read.rows)
      && (look.armed && !look.unread && look.asked ==> w.armedBefore)
    decreases p.left, if lookedAgain then 0 else 1
  {
    hide Consistent, Later, InFlight, LookFrom, Moved, Known;
    var look := LookFrom(p, clock, seen, o);
    LookMeans(p, clock, seen, o);
    LaterSelf(p);
    LaterSelf(look.panel);
    if !look.unread && look.armed {
      var panel, at := Moved(look.panel, o, look.clock), look.clock + 1;
      RecheckLater(p, look.read, look.checked, look.panel, panel, o, look.clock);
      if !o.unreadable(at) && panel.rows != look.read.rows {
        WatchMeans(panel, at, look.seen, o, lookedAgain, true);
        LaterOver(p, panel, WatchFrom(panel, at, look.seen, o, lookedAgain, true).start);
      } else if look.asked && !lookedAgain {
        WatchMeans(panel, at, look.seen, o, true, true);
        LaterOver(p, panel, WatchFrom(panel, at, look.seen, o, true, true).start);
      }
    }
  }

  class Watcher {
    var panel: Panel
    var clock: nat
    var seenFile: SeenFile
    /** Whether the rows watcher runs. */
    var armed: bool
    ghost var runs: seq<Option<Sites>>

    const oracle: Oracle

    ghost predicate Valid()
      reads this
    {
      Consistent(panel) && NoRepeats(runs) && LastKnown(runs) == Known(seenFile)
    }

    constructor (panel: Panel, oracle: Oracle)
      requires Consistent(panel)
      ensures Valid() && this.panel == panel && this.oracle == oracle && clock == 0 && seenFile == None && runs == [] && !armed
    {
      this.panel, this.oracle := panel, oracle;
      clock, seenFile, armed, runs := 0, None, false, [];
      new;
      assert LastKnown(runs) == None && NoRepeats(runs);
    }

    /** CloudPanel moves on. */
    method Meanwhile()
      requires Consistent(panel)
      modifies this`panel, this`clock
      ensures Consistent(panel) && panel == Moved(old(panel), oracle, old(clock)) && clock == old(clock) + 1
    {
      hide Consistent, Played;
      MovedKeeps(panel, oracle, clock);
      panel := Moved(panel, oracle, clock);
      clock := clock + 1;
    }

    /** The rows, unless the database cannot be read. */
    method PanelSites() returns (sites: Option<Sites>)
      requires Consistent(panel)
      modifies this`panel, this`clock
      ensures Consistent(panel) && panel == Moved(old(panel), oracle, old(clock)) && clock == old(clock) + 1
      ensures sites == if oracle.unreadable(clock) then None else Some(panel.rows)
    {
      Meanwhile();
      sites := if oracle.unreadable(clock) then None else Some(panel.rows);
    }

    method RunHooks(sites: Option<Sites>)
      requires Valid() && (sites.Some? ==> LastKnown(runs) != sites)
      modifies this`panel, this`clock, this`runs
      ensures Consistent(panel) && panel == Moved(old(panel), oracle, old(clock)) && clock == old(clock) + 1
      ensures runs == old(runs) + [sites]
      ensures NoRepeats(runs) && LastKnown(runs) == (if sites.Some? then sites else old(LastKnown(runs)))
    {
      hide Consistent, LastKnown, NoRepeats, Moved;
      OneMore(runs, sites);
      Meanwhile();
      runs := runs + [sites];
    }

    /** Whether an addon still waits for a new site. */
    method Waiting() returns (waiting: bool)
      requires Consistent(panel)
      modifies this`panel, this`clock
      ensures Consistent(panel) && (waiting, panel, clock) == AskFrom(old(panel), old(clock), seenFile, oracle)
    {
      hide Consistent, Moved;
      Meanwhile();
      waiting := seenFile.Some? && panel.now - seenFile.value.1 < ROW_WAIT;
      if waiting {
        Meanwhile();
        waiting := oracle.waits(clock);
      }
    }

    /** The hooks, for rows they did not last run for. */
    method Hook(sites: Sites)
      requires Valid() && sites == panel.rows
      modifies this`panel, this`clock, this`runs, this`seenFile
      ensures Valid() && (panel, clock, seenFile) == HookFrom(old(panel), old(clock), old(seenFile), oracle)
      ensures Known(seenFile) == Some(sites)
    {
      hide Consistent, LastKnown, NoRepeats, Moved;
      if Known(seenFile) != Some(sites) {
        RunHooks(Some(sites));
        seenFile := Some((sites, panel.now));
      }
    }

    /** What is in flight and who waits, and the rows watcher armed or not. */
    method Arm(sites: Sites) returns (waiting: bool)
      requires Consistent(panel)
      modifies this`panel, this`clock, this`armed
      ensures
        var checked := Moved(old(panel), oracle, old(clock));
        && Consistent(panel) && (waiting, panel, clock) == AskFrom(checked, old(clock) + 1, seenFile, oracle)
        && armed == (InFlight(checked, sites) || waiting)
    {
      hide Consistent, Moved, AskFrom, InFlight;
      Meanwhile();
      var inFlight := InFlight(panel, sites);
      waiting := Waiting();
      armed := inFlight || waiting;
    }

    /** One look, and the rows watcher armed or not. */
    method Look(seen: Option<Sites>) returns (sites: Option<Sites>, waiting: bool)
      requires Valid() && seen == Known(seenFile)
      modifies this
      ensures
        var look := LookFrom(old(panel), old(clock), old(seenFile), oracle);
        && Valid() && (panel, clock, seenFile, armed, waiting) == (look.panel, look.clock, look.seen, look.armed, look.asked)
        && sites == if look.unread then None else Some(look.read.rows)
      ensures sites.None? ==> runs == old(runs) + [None]
    {
      hide Consistent, LastKnown, NoRepeats, Moved, InFlight, AskFrom, HookFrom;
      sites := PanelSites();
      if sites.None? {
        waiting := false;
        RunHooks(None);
        armed := true;
      } else {
        Hook(sites.value);
        waiting := Arm(sites.value);
      }
    }

    /** The run of WatchFrom, which WatchMeans is about. */
    method SyncNewSites()
      requires Valid()
      modifies this
      ensures
        var w := WatchFrom(old(panel), old(clock), old(seenFile), oracle, false, false);
        Valid() && (panel, clock, seenFile, armed) == (w.panel, w.clock, w.last.seen, w.last.armed)
    {
      hide Consistent, Later, InFlight, LastKnown, NoRepeats, LookFrom, Moved, Known;
      var seen := Known(seenFile);
      var lookedAgain := false;
      ghost var armedBefore := false;
      ghost var w := WatchFrom(panel, clock, seenFile, oracle, false, false);
      while true
        invariant Valid() && seen == Known(seenFile)
        invariant w == WatchFrom(panel, clock, seenFile, oracle, lookedAgain, armedBefore)
        decreases panel.left, if lookedAgain then 0 else 1
      {
        ghost var before, look := panel, LookFrom(panel, clock, seenFile, oracle);
        LookMeans(panel, clock, seenFile, oracle);
        var sites, waiting := Look(seen);
        if sites.None? || !armed {
          return;
        }
        seen := sites;
        armedBefore := true;
        RecheckLater(before, look.read, look.checked, look.panel, Moved(panel, oracle, clock), oracle, clock);
        var again := PanelSites();
        if again.Some? && again.value != sites.value {
          continue;
        }
        if !waiting || lookedAgain {
          return;
        }
        lookedAgain := true;
      }
    }
  }

  // ---- What it means that the rows watcher is left off ----

  /**
   * With nothing in flight, and the vhost directory changed within the hour: every vhost of the last hour has a row the hooks
   * ran for, and that row is its own site's exactly when the vhost was there before the rows were read; and every site the
   * hooks ran for still has a vhost. After an hour without a change of the directory itself nothing is found in flight.
   */
  lemma NoneMissed(read: Panel, checked: Panel, d: string)
    requires Consistent(read) && Later(read, checked) && !InFlight(checked, read.rows)
    ensures checked.now - checked.dirChanged < ROW_WAIT && d in checked.vhosts && checked.now - checked.vhosts[d] < ROW_WAIT ==>
      && d in read.rows && d in checked.meant
      && (read.rows[d] == checked.meant[d] <==> checked.meant[d] < read.nextId)
    ensures d in read.rows && checked.now - checked.dirChanged < ROW_WAIT ==> d in checked.vhosts
  {
    LaterKeeps(read, checked);
    if d in checked.meant && d in read.rows {
      SameSiteOrNew(read, checked, d);
    }
  }

  /** A panel without sites. */
  const EMPTY := Panel(map[], map[], map[], 0, 0, 0, 1)

  /** A vhost without a row, written again in place after the hour. */
  function Rewritten(d: string): seq<Move> {
    [WriteVhost(d), Pass(ROW_WAIT), TouchVhost(d)]
  }

  /** A vhost that was written just now and has no row is missed when the directory has not changed for an hour. */
  lemma TouchedIsMissed(d: string)
    ensures
      var p := Played(EMPTY, Rewritten(d));
      Consistent(EMPTY) && d in p.vhosts && p.vhosts[d] == p.now && d !in p.rows && !InFlight(p, p.rows)
  {
    var moves := Rewritten(d);
    assert moves[1..] == [Pass(ROW_WAIT), TouchVhost(d)] && moves[1..][1..] == [TouchVhost(d)] && moves[1..][1..][1..] == [];
    var p1 := Play(EMPTY, WriteVhost(d));
    var p2 := Play(p1, Pass(ROW_WAIT));
    var p3 := Play(p2, TouchVhost(d));
    assert Played(p3, []) == p3;
    assert Played(p2, [TouchVhost(d)]) == p3;
    assert Played(p1, [Pass(ROW_WAIT), TouchVhost(d)]) == p3;
  }

  /** The panel with one site, and with that site deleted and made again. */
  function OneSite(d: string): Panel {
    Panel(map[d := 0], map[d := 0], map[d := 0], 1, 0, 0, 2)
  }

  function Remade(d: string): Panel {
    Panel(map[], map[d := 0], map[d := 1], 2, 0, 0, 1)
  }

  function Remaking(d: string): seq<Move> {
    [RemoveVhost(d), DeleteRow(d), WriteVhost(d)]
  }

  lemma RemadeIs(d: string)
    ensures Consistent(OneSite(d)) && Played(OneSite(d), Remaking(d)) == Remade(d)
  {
    var p := OneSite(d);
    var p1 := Play(p, RemoveVhost(d));
    var p2 := Play(p1, DeleteRow(d));
    var p3 := Play(p2, WriteVhost(d));
    assert p1 == Panel(map[d := 0], map[], map[], 1, 0, 0, 2) by {
      assert p1.vhosts == map[] && p1.meant == map[];
    }
    assert p2.rows == map[];
    assert p3 == Remade(d);
    var moves := Remaking(d);
    assert moves[1..] == [DeleteRow(d), WriteVhost(d)] && moves[1..][1..] == [WriteVhost(d)] && moves[1..][1..][1..] == [];
    assert Played(p3, []) == p3;
    assert Played(p2, [WriteVhost(d)]) == p3;
    assert Played(p1, [DeleteRow(d), WriteVhost(d)]) == p3;
  }

  /** A site deleted and made again between the reading of the rows and the look at the vhosts is missed. */
  lemma RemadeIsMissed(d: string)
    ensures Consistent(OneSite(d)) && Later(OneSite(d), Remade(d)) && !InFlight(Remade(d), OneSite(d).rows)
    ensures Remade(d).vhosts[d] == Remade(d).now && OneSite(d).rows[d] != Remade(d).meant[d]
  {
    RemadeIs(d);
  }

  /**
   * A run in which that happens: the hooks run for the site's row, the site is deleted and made again before the vhosts are
   * looked at, and the run ends with the rows watcher off.
   */
  method RemadeRun() returns (w: Watcher, d: string)
    ensures fresh(w) && !w.armed && LastKnown(w.runs) == Some(map[d := 0])
    ensures d in w.panel.vhosts && w.panel.vhosts[d] == w.panel.now && d in w.panel.meant && w.panel.meant[d] != 0
  {
    hide InFlight, LastKnown, NoRepeats, Played, Later;
    d := "site.example";
    var moves := Remaking(d);
    var oracle := Oracle(clock => if clock == 2 then moves else [], clock => false, clock => false);
    RemadeIs(d);
    RemadeIsMissed(d);
    RemadeLook(d, oracle);
    w := new Watcher(OneSite(d), oracle);
    w.SyncNewSites();
  }

  lemma RemadeLook(d: string, o: Oracle)
    requires o.moves(0) == [] && o.moves(1) == [] && o.moves(2) == Remaking(d) && o.moves(3) == [] && o.moves(4) == []
    requires !o.unreadable(1) && forall clock :: !o.waits(clock)
    ensures
      var look := LookFrom(OneSite(d), 0, None, o);
      !look.armed && !look.unread && look.panel == Remade(d) && Known(look.seen) == Some(OneSite(d).rows)
  {
    hide Played, InFlight;
    RemadeIs(d);
    RemadeIsMissed(d);
    NothingPlayed(OneSite(d));
    NothingPlayed(Remade(d));
  }

  lemma NothingPlayed(p: Panel)
    ensures Played(p, []) == p
  {
  }
}
