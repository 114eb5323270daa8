/** The Nginx transaction of cli/nginx-transaction.ts: files, panel rows and a reload, with recovery at every failing step. */
module NginxTransaction {
  import opened Outcomes

  /** A file as the transaction keeps it. */
  datatype File = File(content: string, mode: nat, uid: int, gid: int)

  /** A row of the panel's site table, without its domain. */
  datatype Site = Site(id: int, user: string, template: string, cloudflare: bool)

  type Files = map<string, File>
  type Rows = map<string, Site>

  /** What was at a path when a change was staged; without content there was no file. */
  datatype Backup = Backup(path: string, content: Option<string>, mode: nat, uid: int, gid: int)

  datatype Change = Change(backup: Backup, content: Option<string>)

  /** What the caller's staging does: the changes it pushes, the rows it leaves, how many it wrote, or that it throws. */
  datatype Stage = Stage(changes: seq<Change>, rows: Rows, touched: nat, throws: bool)

  datatype Event = Wrote | Tested(ok: bool) | Reloaded

  datatype Failure = VhostNotRestored(path: string) | RowsNotRestored | RestoredNotValid | RestoredNotReloaded

  datatype Outcome = Returned(changed: bool) | Threw(failures: seq<Failure>)

  // ---- What is meant by restored, staged and tested ----

  predicate Truthful(files: Files, b: Backup) {
    match b.content
    case None => b.path !in files
    case Some(content) => b.path in files && files[b.path] == File(content, b.mode, b.uid, b.gid)
  }

  ghost predicate AllTruthful(files: Files, backups: seq<Backup>) {
    forall i :: 0 <= i < |backups| ==> Truthful(files, backups[i])
  }

  function Put(files: Files, b: Backup, content: Option<string>): Files {
    match content
    case None => files - {b.path}
    case Some(text) => files[b.path := File(text, b.mode, b.uid, b.gid)]
  }

  /** A change to `path`, with what is there now, or with what a new file is given when nothing is. */
  function NginxFileChange(files: Files, path: string, content: Option<string>, uid: int, gid: int): (c: Change)
    ensures Truthful(files, c.backup)
    ensures c.backup.path == path && c.content == content
  {
    if path in files then
      var file := files[path];
      Change(Backup(path, Some(file.content), file.mode, file.uid, file.gid), content)
    else Change(Backup(path, None, 0x1a4, uid, gid), content)
  }

  predicate Effective(c: Change) {
    c.content != c.backup.content
  }

  /** The files after the changes, one after the other, a change to what was there already being skipped. */
  function Applied(files: Files, changes: seq<Change>): Files {
    if changes == [] then files
    else
      var c := changes[|changes| - 1];
      var before := Applied(files, changes[..|changes| - 1]);
      if Effective(c) then Put(before, c.backup, c.content) else before
  }

  /** The backups of the changes that are not skipped. */
  function Touched(changes: seq<Change>): seq<Backup> {
    if changes == [] then []
    else
      var c := changes[|changes| - 1];
      Touched(changes[..|changes| - 1]) + (if Effective(c) then [c.backup] else [])
  }

  ghost predicate SameAt(files: Files, before: Files, path: string) {
    (path in files <==> path in before) && (path in files ==> files[path] == before[path])
  }

  predicate BackedUp(written: seq<Backup>, path: string) {
    exists i :: 0 <= i < |written| && written[i].path == path
  }

  /** `files` differs from `before` at most where a backup was taken. */
  ghost predicate SameOutside(files: Files, before: Files, written: seq<Backup>) {
    forall path :: BackedUp(written, path) || SameAt(files, before, path)
  }

  /** Every path is as it was before, or is named among the failures. */
  ghost predicate BackButFor(files: Files, before: Files, failures: seq<Failure>) {
    forall path :: SameAt(files, before, path) || VhostNotRestored(path) in failures
  }

  /** The failures begin with these, and name no other file. */
  ghost predicate Names(failures: seq<Failure>, vhosts: seq<Failure>) {
    vhosts <= failures && forall i :: |vhosts| <= i < |failures| ==> !failures[i].VhostNotRestored?
  }

  /** The files on disk have passed the configuration test since the last write. */
  predicate TestedSinceWrite(trace: seq<Event>) {
    trace != [] &&
    match trace[|trace| - 1]
    case Wrote => false
    case Tested(ok) => ok
    case Reloaded => TestedSinceWrite(trace[..|trace| - 1])
  }

  /** No reload was issued but of files that had passed the test since the last write. */
  predicate OnlyTestedReloads(trace: seq<Event>) {
    trace == [] ||
    var before := trace[..|trace| - 1];
    OnlyTestedReloads(before) && (trace[|trace| - 1] == Reloaded ==> TestedSinceWrite(before))
  }

  // ---- What decides whether a transaction succeeds ----

  predicate Changes(hasRows: bool, stage: Stage) {
    (hasRows && stage.touched > 0) || Touched(stage.changes) != []
  }

  /** What is staged has to be tested and reloaded, and Nginx refuses it. */
  predicate Refused(accepts: Files -> bool, files: Files, hasRows: bool, stage: Stage, options: Options) {
    options.reload && (Changes(hasRows, stage) || options.alwaysValidate) && !accepts(Applied(files, stage.changes))
  }

  // ---- The machine: disk, database and Nginx, any operation of which may fail ----

  class Host {
    var files: Files
    var running: Files
    var committed: Rows
    var working: Rows
    var open: bool
    var clock: nat
    ghost var trace: seq<Event>

    /** Which operation, counted from the start, fails. */
    const fails: nat -> bool
    /** Which failing reload was carried out all the same. */
    const applies: nat -> bool
    /** Which files Nginx accepts. */
    const accepts: Files -> bool

    constructor (files: Files, rows: Rows, fails: nat -> bool, applies: nat -> bool, accepts: Files -> bool)
      ensures this.files == running == files && committed == working == rows && !open && trace == []
      ensures this.fails == fails && this.applies == applies && this.accepts == accepts
    {
      this.files, running, committed, working, open, clock, trace := files, files, rows, rows, false, 0, [];
      this.fails, this.applies, this.accepts := fails, applies, accepts;
    }

    /** How many of the first `n` operations fail. */
    ghost function Faults(n: nat): nat {
      if n == 0 then 0 else Faults(n - 1) + (if fails(n - 1) then 1 else 0)
    }

    /** With none but the operation `at` failing there is at most one fault, and none when that one is not among them. */
    lemma {:induction false} OneFault(from: nat, until: nat, at: nat)
      requires from <= until && forall n :: from <= n < until && n != at ==> !fails(n)
      ensures Faults(from) <= Faults(until) <= Faults(from) + 1
      ensures !(from <= at < until) ==> Faults(until) == Faults(from)
      decreases until
    {
      if from < until {
        OneFault(from, until - 1, at);
      }
    }

    /** No operation from this one on fails but perhaps one. */
    ghost predicate FailsOnlyAt(from: nat, at: nat) {
      forall n :: n >= from && n != at ==> !fails(n)
    }

    ghost predicate AtMostOneFails(from: nat) {
      exists at: nat :: FailsOnlyAt(from, at)
    }

    lemma FewFaults(from: nat, until: nat)
      requires AtMostOneFails(from) && from <= until
      ensures Faults(until) <= Faults(from) + 1
    {
      var at: nat :| FailsOnlyAt(from, at);
      OneFault(from, until, at);
    }

    /** How many operations have failed so far. */
    ghost function Failed(): nat
      reads this`clock
    {
      Faults(clock)
    }

    method Tick() returns (ok: bool)
      modifies this`clock
      ensures ok == !fails(old(clock)) && clock == old(clock) + 1
      ensures Failed() == old(Failed()) + (if ok then 0 else 1)
    {
      ok := !fails(clock);
      clock := clock + 1;
    }

    /** An atomic write or a removal: all of it or nothing. */
    method Store(b: Backup, content: Option<string>) returns (ok: bool)
      modifies this`files, this`clock, this`trace
      ensures files == if ok then Put(old(files), b, content) else old(files)
      ensures trace == old(trace) + [Wrote]
      ensures ok == !fails(old(clock)) && clock == old(clock) + 1 && Failed() == old(Failed()) + (if ok then 0 else 1)
    {
      ok := Tick();
      if ok {
        files := Put(files, b, content);
      }
      trace := trace + [Wrote];
    }

    method Begin() returns (ok: bool)
      modifies this`open, this`working, this`clock
      ensures ok ==> open && working == committed
      ensures !ok ==> open == old(open) && working == old(working)
      ensures ok == !fails(old(clock)) && clock == old(clock) + 1 && Failed() == old(Failed()) + (if ok then 0 else 1)
    {
      ok := Tick();
      if ok {
        open, working := true, committed;
      }
    }

    method Commit() returns (ok: bool)
      modifies this`open, this`committed, this`clock
      ensures ok ==> !open && committed == working
      ensures !ok ==> open == old(open) && committed == old(committed)
      ensures ok == !fails(old(clock)) && clock == old(clock) + 1 && Failed() == old(Failed()) + (if ok then 0 else 1)
    {
      ok := Tick();
      if ok {
        open, committed := false, working;
      }
    }

    method Rollback() returns (ok: bool)
      modifies this`open, this`working, this`clock
      ensures ok ==> !open && working == committed
      ensures !ok ==> open == old(open) && working == old(working)
      ensures ok == !fails(old(clock)) && clock == old(clock) + 1 && Failed() == old(Failed()) + (if ok then 0 else 1)
    {
      ok := Tick();
      if ok {
        open, working := false, committed;
      }
    }

    /** Closing the connection ends a transaction that is still open. */
    method Close()
      modifies this`open, this`working
      ensures !open && working == committed
    {
      open, working := false, committed;
    }

    method Test() returns (ok: bool)
      modifies this`clock, this`trace
      ensures ok == (!fails(old(clock)) && accepts(files))
      ensures trace == old(trace) + [Tested(ok)]
      ensures clock == old(clock) + 1 && Failed() == old(Failed()) + (if fails(old(clock)) then 1 else 0)
    {
      ok := Tick();
      ok := ok && accepts(files);
      trace := trace + [Tested(ok)];
    }

    /** Nginx takes the files up; when the command fails it may have taken them up or not. */
    method Reload() returns (ok: bool)
      modifies this`running, this`clock, this`trace
      ensures ok ==> running == files
      ensures running == files || running == old(running)
      ensures trace == old(trace) + [Reloaded]
      ensures ok == !fails(old(clock)) && clock == old(clock) + 1 && Failed() == old(Failed()) + (if ok then 0 else 1)
    {
      var at := clock;
      ok := Tick();
      if ok || applies(at) {
        running := files;
      }
      trace := trace + [Reloaded];
    }
  }

  // ---- What the steps rest on ----

  lemma BackedUpLast(written: seq<Backup>, b: Backup, path: string)
    ensures BackedUp(written + [b], path) <==> BackedUp(written, path) || b.path == path
  {
    var all := written + [b];
    assert all[|written|] == b && forall i :: 0 <= i < |written| ==> all[i] == written[i];
  }

  lemma BackedUpFirst(written: seq<Backup>, path: string)
    requires written != []
    ensures BackedUp(written, path) <==> written[0].path == path || BackedUp(written[1..], path)
  {
    assert forall i :: 0 <= i < |written| - 1 ==> written[1..][i] == written[i + 1];
    if BackedUp(written, path) {
      var i :| 0 <= i < |written| && written[i].path == path;
      if i > 0 {
        assert written[1..][i - 1].path == path;
      }
    }
    if BackedUp(written[1..], path) {
      var i :| 0 <= i < |written[1..]| && written[1..][i].path == path;
      assert written[i + 1].path == path;
    }
  }

  lemma {:induction false} AppliedTouches(files: Files, changes: seq<Change>)
    ensures SameOutside(Applied(files, changes), files, Touched(changes))
  {
    hide BackedUp;
    if changes != [] {
      var k := |changes| - 1;
      AppliedTouches(files, changes[..k]);
      var before, c := Touched(changes[..k]), changes[k];
      if Effective(c) {
        forall path | !BackedUp(Touched(changes), path)
          ensures SameAt(Applied(files, changes), files, path)
        {
          BackedUpLast(before, c.backup, path);
          assert SameAt(Applied(files, changes[..k]), files, path);
        }
      } else {
        assert Touched(changes) == before;
      }
    }
  }

  lemma {:induction false} TouchedTruthful(files: Files, changes: seq<Change>)
    requires forall i :: 0 <= i < |changes| ==> Truthful(files, changes[i].backup)
    ensures AllTruthful(files, Touched(changes))
  {
    if changes != [] {
      TouchedTruthful(files, changes[..|changes| - 1]);
    }
  }

  lemma {:induction false} TouchedFront(changes: seq<Change>, k: nat)
    requires k <= |changes|
    ensures Touched(changes[..k]) <= Touched(changes)
  {
    var n := |changes| - 1;
    if k <= n {
      assert changes[..n][..k] == changes[..k];
      TouchedFront(changes[..n], k);
    } else {
      assert changes[..k] == changes;
    }
  }

  lemma FrontBackedUp(front: seq<Backup>, all: seq<Backup>, path: string)
    requires front <= all && BackedUp(front, path)
    ensures BackedUp(all, path)
  {
    var i :| 0 <= i < |front| && front[i].path == path;
    assert all[i].path == path;
  }

  lemma NothingWritten(files: Files)
    ensures AllTruthful(files, []) && SameOutside(files, files, [])
  {
  }

  /** Every path is as it was before, or named among the failures, or has a backup still to put back. */
  ghost predicate AllButFor(files: Files, before: Files, left: seq<Backup>, failures: seq<Failure>) {
    forall path :: SameAt(files, before, path) || VhostNotRestored(path) in failures || BackedUp(left, path)
  }

  lemma NoneRestored(files: Files, before: Files, written: seq<Backup>)
    requires SameOutside(files, before, written)
    ensures AllButFor(files, before, written, [])
  {
    hide BackedUp, SameAt;
  }

  /** A path is put back, or is named. */
  lemma OneRestored(files: Files, before: Files, written: seq<Backup>, i: nat, failures: seq<Failure>, ok: bool)
    requires i < |written| && AllTruthful(before, written) && AllButFor(files, before, written[i..], failures)
    ensures
      var b := written[i];
      AllButFor(if ok then Put(files, b, b.content) else files, before, written[i + 1..],
                if ok then failures else failures + [VhostNotRestored(b.path)])
  {
    hide BackedUp;
    var b := written[i];
    var files' := if ok then Put(files, b, b.content) else files;
    assert Truthful(before, b) && written[i..][1..] == written[i + 1..] && written[i..][0] == b;
    forall path
      ensures
        || SameAt(files', before, path) || BackedUp(written[i + 1..], path)
        || VhostNotRestored(path) in (if ok then failures else failures + [VhostNotRestored(b.path)])
    {
      BackedUpFirst(written[i..], path);
      if path != b.path {
        assert SameAt(files, before, path) ==> SameAt(files', before, path);
      }
    }
  }

  lemma AllRestored(files: Files, before: Files, failures: seq<Failure>)
    requires AllButFor(files, before, [], failures)
    ensures BackButFor(files, before, failures)
    ensures failures == [] ==> files == before
  {
    hide SameAt;
    forall path
      ensures SameAt(files, before, path) || VhostNotRestored(path) in failures
    {
      assert !BackedUp([], path);
    }
    if failures == [] {
      NothingLeft(files, before);
    }
  }

  lemma NothingLeft(files: Files, before: Files)
    requires SameOutside(files, before, [])
    ensures files == before
  {
    forall path
      ensures path in files <==> path in before
      ensures path in files ==> files[path] == before[path]
    {
      assert !BackedUp([], path);
      assert SameAt(files, before, path);
    }
    assert files.Keys == before.Keys;
  }

  lemma TraceGrows(trace: seq<Event>, e: Event)
    ensures OnlyTestedReloads(trace + [e]) <==> OnlyTestedReloads(trace) && (e == Reloaded ==> TestedSinceWrite(trace))
    ensures TestedSinceWrite(trace + [e]) <==> match e case Wrote => false case Tested(ok) => ok case Reloaded => TestedSinceWrite(trace)
  {
    assert (trace + [e])[..|trace|] == trace;
  }

  // ---- The transaction ----

  datatype Options = Options(reload: bool, alwaysValidate: bool)

  class Transaction {
    const host: Host
    const hasRows: bool
    const options: Options
    var written: seq<Backup>
    var attemptedReload: bool
    var began: bool
    var needsReload: bool

    constructor (host: Host, hasRows: bool, options: Options)
      ensures this.host == host && this.hasRows == hasRows && this.options == options
      ensures written == [] && !attemptedReload && !began && !needsReload
    {
      this.host, this.hasRows, this.options := host, hasRows, options;
      written, attemptedReload, began, needsReload := [], false, false, false;
    }

    /** What was on disk before can be put back, and only tested files were reloaded. */
    ghost predicate Recoverable(before: Files)
      reads this, host
    {
      && AllTruthful(before, written)
      && SameOutside(host.files, before, written)
      && (began <==> host.open) && (began ==> hasRows)
      && OnlyTestedReloads(host.trace)
    }

    /** Writes the files of the changes that are not skipped, until one cannot be written. */
    method WriteChanges(changes: seq<Change>) returns (ok: bool)
      requires written == [] && OnlyTestedReloads(host.trace)
      requires forall i :: 0 <= i < |changes| ==> Truthful(host.files, changes[i].backup)
      modifies this`written, host`files, host`clock, host`trace
      ensures AllTruthful(old(host.files), written) && SameOutside(host.files, old(host.files), written)
      ensures OnlyTestedReloads(host.trace)
      ensures ok ==> host.files == Applied(old(host.files), changes) && written == Touched(changes)
      ensures written <= Touched(changes)
      ensures host.Failed() >= old(host.Failed()) && host.clock >= old(host.clock)
      ensures ok <==> host.Failed() == old(host.Failed())
    {
      hide Put, OnlyTestedReloads, SameOutside, AllTruthful, Truthful, Host.Faults;
      ghost var before := old(host.files);
      TouchedTruthful(before, changes);
      var k := 0;
      while k < |changes|
        invariant k <= |changes|
        invariant host.files == Applied(before, changes[..k])
        invariant written == Touched(changes[..k])
        invariant OnlyTestedReloads(host.trace) && host.Failed() == old(host.Failed()) && host.clock >= old(host.clock)
      {
        var c := changes[k];
        ghost var trace := host.trace;
        assert changes[..k + 1][..k] == changes[..k];
        if Effective(c) {
          written := written + [c.backup];
          ok := host.Store(c.backup, c.content);
          TraceGrows(trace, Wrote);
          if !ok {
            FailedWrite(before, changes, k, host.files, written);
            TouchedFront(changes, k + 1);
            return false;
          }
        }
        k := k + 1;
      }
      assert changes[..k] == changes;
      AppliedTouches(before, changes);
      return true;
    }

    /** Opens the transaction on the rows, when there are rows, and lets the caller stage. */
    method StageRows(stage: Stage) returns (ok: bool)
      requires !began && !host.open && host.working == host.committed
      modifies this`began, host`working, host`open, host`clock
      ensures (began <==> host.open) && (began ==> hasRows) && (!began ==> host.working == old(host.working))
      ensures ok && hasRows ==> began && host.working == stage.rows
      ensures host.Failed() >= old(host.Failed()) && host.clock >= old(host.clock)
      ensures ok <==> host.Failed() == old(host.Failed()) && !stage.throws
    {
      hide Host.Faults;
      if hasRows {
        ok := host.Begin();
        if !ok {
          return false;
        }
        began := true;
        ok := host.Tick();
        if !ok {
          return false;
        }
        host.working := stage.rows;
      }
      if stage.throws {
        return false;
      }
      ok := true;
      if hasRows {
        ok := host.Tick();
      }
    }

    /** Stages the changes, writes the files and tests them; nothing is returned when a step fails. */
    method Prepare(stage: Stage) returns (r: Option<bool>)
      requires written == [] && !attemptedReload && !began && !needsReload
      requires !host.open && host.working == host.committed && OnlyTestedReloads(host.trace)
      requires forall i :: 0 <= i < |stage.changes| ==> Truthful(host.files, stage.changes[i].backup)
      modifies this, host`files, host`working, host`open, host`clock, host`trace
      ensures Recoverable(old(host.files)) && !attemptedReload && written <= Touched(stage.changes)
      ensures !began ==> host.working == old(host.working)
      ensures r.Some? ==>
        && !stage.throws
        && host.files == Applied(old(host.files), stage.changes)
        && written == Touched(stage.changes)
        && (hasRows ==> began && host.working == stage.rows)
        && (!hasRows ==> !began)
        && r.value == Changes(hasRows, stage)
        && needsReload == (options.reload && (r.value || options.alwaysValidate))
        && (needsReload ==> TestedSinceWrite(host.trace) && host.accepts(host.files))
      ensures host.Failed() >= old(host.Failed()) && host.clock >= old(host.clock)
      ensures r.Some? <==>
        host.Failed() == old(host.Failed()) && !stage.throws && !Refused(host.accepts, old(host.files), hasRows, stage, options)
    {
      hide SameOutside, AllTruthful, OnlyTestedReloads, TestedSinceWrite, Applied, Touched, Host.Faults, Truthful;
      NothingWritten(host.files);
      var staged := StageRows(stage);
      if !staged {
        return None;
      }
      var rowsChanged := hasRows && stage.touched > 0;
      var wrote := WriteChanges(stage.changes);
      if !wrote {
        return None;
      }
      var changed := rowsChanged || written != [];
      needsReload := options.reload && (changed || options.alwaysValidate);
      if needsReload {
        ghost var trace := host.trace;
        var ok := host.Test();
        TraceGrows(trace, Tested(ok));
        if !ok {
          return None;
        }
      }
      return Some(changed);
    }

    /** Issues the reload, which must be of files that passed the test. */
    method Reload() returns (ok: bool)
      requires TestedSinceWrite(host.trace) && OnlyTestedReloads(host.trace)
      modifies this`attemptedReload, host`running, host`clock, host`trace
      ensures attemptedReload && OnlyTestedReloads(host.trace)
      ensures ok ==> host.running == host.files
      ensures host.running == host.files || host.running == old(host.running)
      ensures host.clock >= old(host.clock) && host.Failed() == old(host.Failed()) + (if ok then 0 else 1)
    {
      attemptedReload := true;
      TraceGrows(host.trace, Reloaded);
      ok := host.Reload();
    }

    method Commit() returns (ok: bool)
      modifies host`open, host`committed, host`clock
      ensures ok && hasRows ==> !host.open && host.committed == host.working
      ensures !ok || !hasRows ==> host.open == old(host.open) && host.committed == old(host.committed)
      ensures host.clock >= old(host.clock) && host.Failed() == old(host.Failed()) + (if ok then 0 else 1)
    {
      ok := true;
      if hasRows {
        ok := host.Commit();
      }
    }

    /** All that is attempted: preparing, reloading when that is due, and committing. */
    method Attempt(stage: Stage) returns (r: Option<bool>)
      requires written == [] && !attemptedReload && !began && !needsReload
      requires !host.open && host.working == host.committed && OnlyTestedReloads(host.trace)
      requires forall i :: 0 <= i < |stage.changes| ==> Truthful(host.files, stage.changes[i].backup)
      modifies this, host
      ensures r.None? ==> Recoverable(old(host.files)) && host.committed == old(host.committed)
      ensures written <= Touched(stage.changes)
      ensures r.None? && !began ==> host.working == old(host.working)
      ensures OnlyTestedReloads(host.trace)
      ensures r.Some? ==>
        && host.files == Applied(old(host.files), stage.changes) && r.value == Changes(hasRows, stage)
        && host.committed == (if hasRows then stage.rows else old(host.committed))
        && !host.open && host.working == host.committed
        && (if options.reload && (r.value || options.alwaysValidate)
            then host.running == host.files && host.accepts(host.files)
            else host.running == old(host.running))
      ensures r.None? && host.running != old(host.running) ==>
        attemptedReload && options.reload && host.running == host.files
      ensures host.Failed() >= old(host.Failed()) && host.clock >= old(host.clock)
      ensures r.Some? <==>
        host.Failed() == old(host.Failed()) && !stage.throws && !Refused(host.accepts, old(host.files), hasRows, stage, options)
    {
      hide SameOutside, AllTruthful, OnlyTestedReloads, TestedSinceWrite, Applied, Touched, Host.Faults, Refused, Changes, Truthful;
      r := Prepare(stage);
      if r.None? {
        return;
      }
      if needsReload {
        var ok := Reload();
        if !ok {
          return None;
        }
      }
      var ok := Commit();
      if !ok {
        return None;
      }
    }

    /** The paths, in the order they were written, whose putting back fails when the first is tried at `from`. */
    ghost function NotRestored(backups: seq<Backup>, from: nat): seq<Failure> {
      if backups == [] then []
      else
        var k := |backups| - 1;
        NotRestored(backups[..k], from) + (if host.fails(from + k) then [VhostNotRestored(backups[k].path)] else [])
    }

    lemma NotRestoredSnoc(backups: seq<Backup>, b: Backup, from: nat)
      ensures NotRestored(backups + [b], from)
           == NotRestored(backups, from) + (if host.fails(from + |backups|) then [VhostNotRestored(b.path)] else [])
    {
      assert (backups + [b])[..|backups|] == backups;
    }

    lemma {:induction false} OnlyVhosts(backups: seq<Backup>, from: nat)
      ensures forall i :: 0 <= i < |NotRestored(backups, from)| ==> NotRestored(backups, from)[i].VhostNotRestored?
    {
      if backups != [] {
        OnlyVhosts(backups[..|backups| - 1], from);
      }
    }

    lemma {:induction false} OnlyWritten(backups: seq<Backup>, from: nat, path: string)
      requires VhostNotRestored(path) in NotRestored(backups, from)
      ensures BackedUp(backups, path)
    {
      hide BackedUp;
      var k := |backups| - 1;
      BackedUpLast(backups[..k], backups[k], path);
      assert backups == backups[..k] + [backups[k]];
      if VhostNotRestored(path) in NotRestored(backups[..k], from) {
        OnlyWritten(backups[..k], from, path);
      }
    }

    /** Only files that were written can be other than before. */
    lemma OnlyStaged(files: Files, before: Files, failures: seq<Failure>, backups: seq<Backup>, from: nat, all: seq<Backup>)
      requires BackButFor(files, before, failures) && Names(failures, NotRestored(backups, from)) && backups <= all
      ensures SameOutside(files, before, all)
    {
      hide BackedUp, SameAt, NotRestored;
      forall path | VhostNotRestored(path) in failures
        ensures BackedUp(all, path)
      {
        OnlyWritten(backups, from, path);
        FrontBackedUp(backups, all, path);
      }
    }

    lemma ButForMore(files: Files, before: Files, failures: seq<Failure>)
      requires BackButFor(files, before, failures)
      ensures forall f :: BackButFor(files, before, failures + [f])
      ensures forall f, g :: BackButFor(files, before, failures + [f] + [g])
    {
      hide SameAt;
    }

    /** Tries to put every file back, and goes on when one cannot be. */
    method RestoreVhosts(ghost before: Files) returns (failures: seq<Failure>)
      requires Recoverable(before)
      modifies host`files, host`clock, host`trace
      ensures BackButFor(host.files, before, failures)
      ensures failures == NotRestored(written, old(host.clock)) && host.clock == old(host.clock) + |written|
      ensures written == [] ==> host.files == old(host.files)
      ensures failures == [] ==> host.files == before
      ensures OnlyTestedReloads(host.trace)
      ensures host.Failed() == old(host.Failed()) + |failures|
    {
      hide Put, SameOutside, OnlyTestedReloads, AllButFor, BackButFor, Host.Faults;
      failures := [];
      var i := 0;
      assert written[0..] == written;
      NoneRestored(host.files, before, written);
      while i < |written|
        invariant i <= |written| && (i == 0 ==> host.files == old(host.files))
        invariant AllButFor(host.files, before, written[i..], failures)
        invariant failures == NotRestored(written[..i], old(host.clock)) && host.clock == old(host.clock) + i
        invariant OnlyTestedReloads(host.trace) && host.Failed() == old(host.Failed()) + |failures|
      {
        var b := written[i];
        ghost var files := host.files;
        TraceGrows(host.trace, Wrote);
        assert written[..i + 1] == written[..i] + [b];
        NotRestoredSnoc(written[..i], b, old(host.clock));
        var ok := host.Store(b, b.content);
        OneRestored(files, before, written, i, failures, ok);
        if !ok {
          failures := failures + [VhostNotRestored(b.path)];
        }
        i := i + 1;
      }
      assert written[i..] == [] && written[..i] == written;
      AllRestored(host.files, before, failures);
    }

    /** Puts files and rows back and tests the files; says whether Nginx has to be reloaded with them. */
    method Restore(ghost before: Files) returns (failures: seq<Failure>, again: bool)
      requires Recoverable(before)
      modifies host`files, host`working, host`open, host`clock, host`trace
      ensures OnlyTestedReloads(host.trace)
      ensures BackButFor(host.files, before, failures) && Names(failures, NotRestored(written, old(host.clock)))
      ensures host.clock >= old(host.clock) + |written| && (written == [] ==> host.files == old(host.files))
      ensures RowsNotRestored !in failures ==> !host.open && (began ==> host.working == host.committed)
      ensures again <==> attemptedReload && written != [] && options.reload && RestoredNotValid !in failures
      ensures failures == [] ==> host.files == before && !host.open && (began ==> host.working == host.committed)
      ensures !began ==> host.working == old(host.working)
      ensures again ==> TestedSinceWrite(host.trace)
      ensures failures == [] ==> again == (attemptedReload && written != [] && options.reload)
      ensures host.Failed() >= old(host.Failed()) && host.clock >= old(host.clock)
      ensures host.Failed() == old(host.Failed()) ==>
        host.files == before && !host.open && (began ==> host.working == host.committed)
      ensures failures == [] <==>
        host.Failed() == old(host.Failed()) && (written != [] && options.reload ==> host.accepts(before))
    {
      hide SameOutside, AllTruthful, OnlyTestedReloads, TestedSinceWrite, Host.Faults, BackButFor, NotRestored;
      failures := RestoreVhosts(before);
      OnlyVhosts(written, old(host.clock));
      ButForMore(host.files, before, failures);
      if hasRows && began {
        var ok := host.Rollback();
        if !ok {
          failures := failures + [RowsNotRestored];
        }
      }
      if written == [] || !options.reload {
        return failures, false;
      }
      TraceGrows(host.trace, Tested(true));
      TraceGrows(host.trace, Tested(false));
      var ok := host.Test();
      if !ok {
        return failures + [RestoredNotValid], false;
      }
      return failures, attemptedReload;
    }

    /** After a failing step: everything back as it was, with a second reload when there has been one. */
    method Recover(ghost before: Files) returns (failures: seq<Failure>)
      requires Recoverable(before)
      modifies this`attemptedReload, host`files, host`working, host`open, host`running, host`clock, host`trace
      ensures OnlyTestedReloads(host.trace)
      ensures BackButFor(host.files, before, failures) && Names(failures, NotRestored(old(written), old(host.clock)))
      ensures host.clock >= old(host.clock) + |old(written)| && (old(written) == [] ==> host.files == old(host.files))
      ensures RowsNotRestored !in failures ==> !host.open && (old(began) ==> host.working == host.committed)
      ensures RestoredNotValid !in failures && RestoredNotReloaded !in failures ==>
        if old(attemptedReload) && old(written) != [] && options.reload then host.running == host.files
        else host.running == old(host.running)
      ensures failures == [] ==> host.files == before && !host.open && (old(began) ==> host.working == host.committed)
      ensures !old(began) ==> host.working == old(host.working)
      ensures failures == [] ==>
        if old(attemptedReload) && old(written) != [] && options.reload then host.running == before
        else host.running == old(host.running)
      ensures host.Failed() >= old(host.Failed()) && host.clock >= old(host.clock)
      ensures host.Failed() == old(host.Failed()) ==>
        host.files == before && !host.open && (old(began) ==> host.working == host.committed)
      ensures failures == [] <==>
        host.Failed() == old(host.Failed()) && (old(written) != [] && options.reload ==> host.accepts(before))
    {
      hide SameOutside, AllTruthful, OnlyTestedReloads, TestedSinceWrite, BackButFor, NotRestored;
      var again;
      failures, again := Restore(before);
      ButForMore(host.files, before, failures);
      if again {
        var ok := Reload();
        if !ok {
          failures := failures + [RestoredNotReloaded];
        }
      }
    }
  }

  lemma FailedWrite(before: Files, changes: seq<Change>, k: nat, files: Files, written: seq<Backup>)
    requires k < |changes| && Effective(changes[k])
    requires forall i :: 0 <= i < |changes| ==> Truthful(before, changes[i].backup)
    requires files == Applied(before, changes[..k]) && written == Touched(changes[..k]) + [changes[k].backup]
    ensures AllTruthful(before, written) && SameOutside(files, before, written)
  {
    hide BackedUp;
    AppliedTouches(before, changes[..k]);
    TouchedTruthful(before, changes[..k]);
    forall path {
      BackedUpLast(Touched(changes[..k]), changes[k].backup, path);
    }
  }

  /**
   * Commits panel rows and Nginx files together, recovering both on failure. It returns exactly when no operation failed, the
   * stage did not throw and Nginx does not refuse what was staged. The recovery is complete unless an operation of it failed
   * too, or the files from before are refused: so with any single fault, or none, it returns or everything is as before.
   */
  method WithNginxTransaction(host: Host, hasRows: bool, stage: Stage, options: Options) returns (r: Outcome)
    requires !host.open && host.working == host.committed && OnlyTestedReloads(host.trace)
    requires forall i :: 0 <= i < |stage.changes| ==> Truthful(host.files, stage.changes[i].backup)
    modifies host
    ensures OnlyTestedReloads(host.trace)
    ensures r.Returned? ==>
      && !stage.throws
      && host.files == Applied(old(host.files), stage.changes)
      && host.committed == (if hasRows then stage.rows else old(host.committed))
      && !host.open && host.working == host.committed
      && r.changed == Changes(hasRows, stage)
      && (if options.reload && (r.changed || options.alwaysValidate)
          then host.running == host.files && host.accepts(host.files)
          else host.running == old(host.running))
    ensures r.Threw? ==> host.committed == old(host.committed)
    ensures r.Threw? ==> BackButFor(host.files, old(host.files), r.failures)
    ensures SameOutside(host.files, old(host.files), Touched(stage.changes))
    ensures r.Threw? && RowsNotRestored !in r.failures ==> !host.open && host.working == host.committed
    ensures r.Threw? && RestoredNotValid !in r.failures && RestoredNotReloaded !in r.failures ==>
      host.running == old(host.running) || host.running == host.files
    ensures r == Threw([]) ==>
      && host.files == old(host.files)
      && !host.open && host.working == host.committed
      && (host.running == old(host.running) || host.running == old(host.files))
    ensures host.Failed() >= old(host.Failed()) && host.clock >= old(host.clock)
    ensures r.Returned? <==>
      host.Failed() == old(host.Failed()) && !stage.throws && !Refused(host.accepts, old(host.files), hasRows, stage, options)
    ensures
      var causes := if stage.throws || Refused(host.accepts, old(host.files), hasRows, stage, options) then 0 else 1;
      r.Threw? && host.Failed() <= old(host.Failed()) + causes ==>
        && host.files == old(host.files) && !host.open && host.working == host.committed
        && (host.accepts(old(host.files)) ==> r.failures == [])
    ensures
      var refused := stage.throws || Refused(host.accepts, old(host.files), hasRows, stage, options);
      host.AtMostOneFails(old(host.clock)) && !refused && host.accepts(old(host.files)) ==> r.Returned? || r == Threw([])
  {
    ghost var before, from := host.files, host.clock;
    var transaction := new Transaction(host, hasRows, options);
    hide AllTruthful, OnlyTestedReloads, Applied, Touched, Host.Faults, Refused, Changes, Truthful, Host.AtMostOneFails, BackButFor;
    hide Transaction.NotRestored, Names, SameOutside, TestedSinceWrite;
    var result := transaction.Attempt(stage);
    if result.Some? {
      AppliedTouches(before, stage.changes);
      return Returned(result.value);
    }
    if transaction.written == [] {
      NothingLeft(host.files, before);
    }
    ghost var written, recovered := transaction.written, host.clock;
    var failures := transaction.Recover(before);
    transaction.OnlyStaged(host.files, before, failures, written, recovered, Touched(stage.changes));
    if host.AtMostOneFails(from) {
      host.FewFaults(from, host.clock);
    }
    return Threw(failures);
  }

  // ---- What the trace of a run means ----

  lemma {:induction false} TestedMeans(trace: seq<Event>) returns (j: nat)
    requires TestedSinceWrite(trace)
    ensures j < |trace| && trace[j] == Tested(true) && forall k :: j < k < |trace| ==> trace[k] == Reloaded
  {
    var n := |trace| - 1;
    if trace[n] == Reloaded {
      j := TestedMeans(trace[..n]);
    } else {
      j := n;
    }
  }

  /** Before every reload there is a test that passed, and nothing was written in between. */
  lemma {:induction false} ReloadsWereTested(trace: seq<Event>, i: nat)
    requires OnlyTestedReloads(trace) && i < |trace| && trace[i] == Reloaded
    ensures exists j :: 0 <= j < i && trace[j] == Tested(true) && forall k :: j < k < i ==> trace[k] != Wrote
  {
    var n := |trace| - 1;
    if i == n {
      var j := TestedMeans(trace[..n]);
      assert trace[j] == Tested(true) && forall k :: j < k < i ==> trace[k] == trace[..n][k];
    } else {
      ReloadsWereTested(trace[..n], i);
      var before := trace[..n];
      var j :| 0 <= j < i && before[j] == Tested(true) && forall k :: j < k < i ==> before[k] != Wrote;
      assert trace[j] == Tested(true) && forall k :: j < k < i ==> trace[k] == before[k];
    }
  }

  // ---- When what was staged is what is on disk ----

  function ContentAt(files: Files, path: string): Option<string> {
    if path in files then Some(files[path].content) else None
  }

  ghost predicate OnDisk(files: Files, changes: seq<Change>) {
    forall i :: 0 <= i < |changes| ==> ContentAt(files, changes[i].backup.path) == changes[i].content
  }

  /** No two changes want different contents for one path. */
  ghost predicate OneContentEach(changes: seq<Change>) {
    forall i, j :: 0 <= i < |changes| && 0 <= j < |changes| && changes[i].backup.path == changes[j].backup.path ==>
      changes[i].content == changes[j].content
  }

  lemma {:induction false} AppliedElsewhere(files: Files, changes: seq<Change>, path: string)
    requires forall i :: 0 <= i < |changes| ==> changes[i].backup.path != path
    ensures SameAt(Applied(files, changes), files, path)
  {
    if changes != [] {
      AppliedElsewhere(files, changes[..|changes| - 1], path);
    }
  }

  lemma {:induction false} AppliedIsOnDisk(files: Files, changes: seq<Change>)
    requires forall i :: 0 <= i < |changes| ==> Truthful(files, changes[i].backup)
    requires OneContentEach(changes)
    ensures OnDisk(Applied(files, changes), changes)
  {
    if changes != [] {
      var k := |changes| - 1;
      var earlier, c := changes[..k], changes[k];
      AppliedIsOnDisk(files, earlier);
      if !Effective(c) && forall i :: 0 <= i < k ==> earlier[i].backup.path != c.backup.path {
        AppliedElsewhere(files, earlier, c.backup.path);
      }
      forall i | 0 <= i < |changes|
        ensures ContentAt(Applied(files, changes), changes[i].backup.path) == changes[i].content
      {
        assert i < k ==> ContentAt(Applied(files, earlier), earlier[i].backup.path) == earlier[i].content;
      }
    }
  }

  /** Every staged content ends up on disk exactly when no path is staged with two contents: a change to what was
    * there at first is skipped even behind another change to the same path. */
  lemma StagedExactly(files: Files, changes: seq<Change>)
    requires forall i :: 0 <= i < |changes| ==> Truthful(files, changes[i].backup)
    ensures OnDisk(Applied(files, changes), changes) <==> OneContentEach(changes)
  {
    if OneContentEach(changes) {
      AppliedIsOnDisk(files, changes);
    }
  }

  /** A file staged with a second content and then with its first one again: the second content stays. */
  lemma LastChangeLost()
    ensures
      var files: Files := map["x.conf" := File("first", 0x1a4, 0, 0)];
      var there, back := NginxFileChange(files, "x.conf", Some("second"), 0, 0), NginxFileChange(files, "x.conf", Some("first"), 0, 0);
      var after := Applied(files, [there, back]);
      ContentAt(after, "x.conf") == Some("second") && !OnDisk(after, [there, back])
  {
    var files: Files := map["x.conf" := File("first", 0x1a4, 0, 0)];
    var there, back := NginxFileChange(files, "x.conf", Some("second"), 0, 0), NginxFileChange(files, "x.conf", Some("first"), 0, 0);
    var changes := [there, back];
    assert changes[..1] == [there] && [there][..0] == [];
    assert Effective(there) by {
      assert "first"[0] != "second"[0];
    }
    assert Applied(files, [there]) == Put(files, there.backup, Some("second"));
    assert Applied(files, changes) == Applied(files, [there]);
    assert ContentAt(Applied(files, changes), changes[1].backup.path) == Some("second") != changes[1].content;
  }
}
