/**
 * The manager's jobs as a protocol: creators under a lock, runners started by systemd, passes that prune, and a clock
 * (cli/manager-action.ts and cli/job-store.ts).
 */
module ManagerJobs {
  type Id = nat

  /** Milliseconds. */
  const MINUTE: nat := 60 * 1000
  const DAY: nat := 24 * 60 * 60 * 1000
  const STUCK_MINUTES: nat := 5

  /** The state file of a job's record. */
  datatype JobState = Queued | Running | Done | Failed

  /** The process that does a job: its unit is still to be started, has not begun to run, is at work, or is over. */
  datatype Runner = ToStart | ToRun | AtWork | Over

  /**
   * A job's record, its runner, whether its unit can be seen to be active, when its creator last wrote the record, and when
   * anyone last did.
   */
  datatype Job = Job(state: JobState, runner: Runner, visible: bool, queuedAt: nat, written: nat)

  /**
   * How far a look at one job is. The program looks three times: at the state file, then by a child process at the unit, and
   * then at the age of the record. A unit that was not seen was not seen at `since`.
   */
  datatype Stage = Next | AskUnit(id: Id) | AskAge(id: Id, since: nat)

  /** Who holds the manager lock: nobody, a creator with these jobs still to look at, or one about to start a unit. */
  datatype Holder = Nobody | Looking(todo: set<Id>, stage: Stage) | Starting(id: Id)

  /** Where a pruning pass is with one job: it looks, is about to mark it as failed, looks at its age in days, or removes it. */
  datatype Pass = PassUnit(id: Id) | PassAge(id: Id, since: nat) | Failing(id: Id) | PassDays(id: Id) | Removing(id: Id)

  /** `used` are all the ids ever given; any number of passes may be at work. */
  datatype World = World(jobs: map<Id, Job>, holder: Holder, used: set<Id>, passes: multiset<Pass>, now: nat)

  datatype Event =
    | TakeLock
    | LookState(id: Id)
    | LookUnit
    | LookAge(clock: nat)
    | Create(id: Id)
    | UnitStarted
    | UnitRefused
    | CreatorDies
    | Appear(id: Id)
    | Run(id: Id)
    | Progress(id: Id)
    | Finish(id: Id, ok: bool)
    | Exit(id: Id)
    | PassBegins(id: Id)
    | PassStep(pass: Pass, clock: nat, retentionDays: nat)
    | Tick(elapsed: nat)

  /** The age in whole units is more than `count`. */
  predicate OlderThan(written: nat, now: nat, unit: nat, count: nat)
    requires unit > 0
  {
    written <= now && (now - written) / unit > count
  }

  predicate Unfinished(job: Job) {
    job.state == Queued || job.state == Running
  }

  /** The runner is pending or at work. */
  predicate Live(job: Job) {
    job.runner != Over
  }

  /** No unit that is pending or at work stays out of sight for longer than `patience` after its creator's last write. */
  ghost predicate InSight(jobs: map<Id, Job>, now: nat, patience: nat) {
    forall id :: id in jobs && Live(jobs[id]) && !jobs[id].visible ==> now <= jobs[id].queuedAt + patience
  }

  /** A look is over within `delay` of its reading of the unit; it reads the clock first and the record's age by it next. */
  predicate InTime(since: nat, clock: nat, now: nat, delay: nat) {
    since <= clock <= now <= since + delay
  }

  ghost predicate Can(w: World, e: Event, patience: nat, delay: nat) {
    match e
    case TakeLock => w.holder == Nobody
    case LookState(id) => w.holder.Looking? && w.holder.stage == Next && id in w.holder.todo
    case LookUnit => w.holder.Looking? && w.holder.stage.AskUnit?
    case LookAge(clock) =>
      w.holder.Looking? && w.holder.stage.AskAge? && InTime(w.holder.stage.since, clock, w.now, delay)
    case Create(id) => w.holder == Looking({}, Next) && id !in w.used
    case UnitStarted => w.holder.Starting?
    case UnitRefused => w.holder.Starting?
    case CreatorDies => w.holder != Nobody
    case Appear(id) => id in w.jobs && w.jobs[id].runner in {ToRun, AtWork}
    case Run(id) => id in w.jobs && w.jobs[id].runner == ToRun
    case Progress(id) => id in w.jobs && w.jobs[id].runner == AtWork
    case Finish(id, _) => id in w.jobs && w.jobs[id].runner == AtWork
    case Exit(id) => id in w.jobs && w.jobs[id].runner != ToStart
    case PassBegins(id) => id in w.jobs
    case PassStep(pass, clock, _) => pass in w.passes && (pass.PassAge? ==> InTime(pass.since, clock, w.now, delay))
    case Tick(elapsed) => InSight(w.jobs, w.now + elapsed, patience)
  }

  /** The record removed or changed by whoever still has it; a record that is gone takes no writes. */
  function With(w: World, id: Id, job: Job): World {
    w.(jobs := w.jobs[id := job])
  }

  /** What the pass does next with its job; a record that is gone is young. */
  function NextOf(w: World, pass: Pass, clock: nat, retentionDays: nat): multiset<Pass> {
    match pass
    case PassUnit(id) => if id in w.jobs && w.jobs[id].visible then multiset{} else multiset{PassAge(id, w.now)}
    case PassAge(id, _) =>
      if id in w.jobs && OlderThan(w.jobs[id].written, clock, MINUTE, STUCK_MINUTES) then multiset{Failing(id)} else multiset{}
    case Failing(id) => multiset{PassDays(id)}
    case PassDays(id) =>
      if id in w.jobs && OlderThan(w.jobs[id].written, w.now, DAY, retentionDays) then multiset{Removing(id)} else multiset{}
    case Removing(_) => multiset{}
  }

  function JobsAfter(w: World, pass: Pass): map<Id, Job> {
    match pass
    case Failing(id) => if id in w.jobs then w.jobs[id := w.jobs[id].(state := Failed, written := w.now)] else w.jobs
    case Removing(id) => w.jobs - {id}
    case _ => w.jobs
  }

  /** The lock after one more reading: given up when the job is taken to be going, kept for the rest when it is not. */
  function Looked(w: World, clock: nat): Holder
    requires w.holder.Looking?
  {
    var todo := w.holder.todo;
    match w.holder.stage
    case Next => w.holder
    case AskUnit(id) => if id in w.jobs && w.jobs[id].visible then Nobody else Looking(todo, AskAge(id, w.now))
    case AskAge(id, _) =>
      if id in w.jobs && OlderThan(w.jobs[id].written, clock, MINUTE, STUCK_MINUTES) then Looking(todo - {id}, Next)
      else Nobody
  }

  function Do(w: World, e: Event): World {
    match e
    case TakeLock => w.(holder := Looking(w.jobs.Keys, Next))
    case LookState(id) =>
      if !w.holder.Looking? then w
      else if id in w.jobs && Unfinished(w.jobs[id]) then w.(holder := Looking(w.holder.todo, AskUnit(id)))
      else w.(holder := Looking(w.holder.todo - {id}, Next))
    case LookUnit => if w.holder.Looking? then w.(holder := Looked(w, w.now)) else w
    case LookAge(clock) => if w.holder.Looking? then w.(holder := Looked(w, clock)) else w
    case Create(id) =>
      World(w.jobs[id := Job(Queued, ToStart, false, w.now, w.now)], Starting(id), w.used + {id}, w.passes, w.now)
    case UnitStarted =>
      var next := w.(holder := Nobody);
      if w.holder.Starting? && w.holder.id in w.jobs then
        With(next, w.holder.id, w.jobs[w.holder.id].(runner := ToRun))
      else next
    case UnitRefused =>
      if w.holder.Starting? then w.(holder := Nobody, jobs := w.jobs - {w.holder.id}) else w
    case CreatorDies =>
      var next := w.(holder := Nobody);
      if w.holder.Starting? && w.holder.id in w.jobs then
        With(next, w.holder.id, w.jobs[w.holder.id].(runner := Over))
      else next
    case Appear(id) => if id in w.jobs then With(w, id, w.jobs[id].(visible := true)) else w
    case Run(id) => if id in w.jobs then With(w, id, w.jobs[id].(state := Running, runner := AtWork, written := w.now)) else w
    case Progress(id) => if id in w.jobs then With(w, id, w.jobs[id].(written := w.now)) else w
    case Finish(id, ok) =>
      if id in w.jobs then
        With(w, id, w.jobs[id].(state := if ok then Done else Failed, runner := Over, written := w.now))
      else w
    case Exit(id) => if id in w.jobs then With(w, id, w.jobs[id].(runner := Over, visible := false)) else w
    case PassBegins(id) =>
      if id !in w.jobs then w
      else w.(passes := w.passes + multiset{if Unfinished(w.jobs[id]) then PassUnit(id) else PassDays(id)})
    case PassStep(pass, clock, days) =>
      w.(jobs := JobsAfter(w, pass), passes := w.passes - multiset{pass} + NextOf(w, pass, clock, days))
    case Tick(elapsed) => w.(now := w.now + elapsed)
  }

  const START := World(map[], Nobody, {}, multiset{}, 0)

  ghost predicate Reachable(w: World, patience: nat, delay: nat) {
    exists events :: Leads(START, events, w, patience, delay)
  }

  /** The events can happen one after the other from `w`, and lead to `end`. */
  ghost predicate Leads(w: World, events: seq<Event>, end: World, patience: nat, delay: nat)
    decreases |events|
  {
    if events == [] then w == end
    else Can(w, events[0], patience, delay) && Leads(Do(w, events[0]), events[1..], end, patience, delay)
  }

  // ---- What every step keeps ----

  ghost predicate AtMostOneLive(w: World) {
    forall a, b :: a in w.jobs && b in w.jobs && Live(w.jobs[a]) && Live(w.jobs[b]) ==> a == b
  }

  /** A live job's record says so, and its unit is in sight or may still be out of it. */
  ghost predicate Sound(w: World, id: Id, patience: nat)
    requires id in w.jobs
  {
    var job := w.jobs[id];
    && id in w.used && job.queuedAt <= job.written <= w.now
    && (Live(job) ==> Unfinished(job) && (job.visible || w.now <= job.queuedAt + patience))
    && (job.runner == ToStart ==> w.holder == Starting(id) && !job.visible)
  }

  /** A unit that was not seen at `since`, and whose runner is not over, was still allowed to be out of sight then. */
  ghost predicate NotSeen(w: World, id: Id, since: nat, patience: nat) {
    since <= w.now && (id in w.jobs && Live(w.jobs[id]) ==> since <= w.jobs[id].queuedAt + patience)
  }

  ghost predicate Ended(w: World, id: Id) {
    id in w.jobs ==> !Live(w.jobs[id])
  }

  /** Whoever holds the lock knows of every live job, or is about to start the only one. */
  ghost predicate Guarded(w: World, patience: nat) {
    match w.holder
    case Nobody => true
    case Looking(todo, stage) =>
      && (forall id :: id in w.jobs && Live(w.jobs[id]) ==> id in todo)
      && (stage.AskAge? ==> NotSeen(w, stage.id, stage.since, patience))
    case Starting(own) => own in w.jobs && w.jobs[own].runner == ToStart
  }

  ghost predicate PassSound(w: World, pass: Pass, patience: nat) {
    && pass.id in w.used
    && (pass.PassAge? ==> NotSeen(w, pass.id, pass.since, patience))
    && (pass.Failing? || pass.PassDays? || pass.Removing? ==> Ended(w, pass.id))
  }

  ghost predicate Inv(w: World, patience: nat) {
    && AtMostOneLive(w) && Guarded(w, patience)
    && (forall id :: id in w.jobs ==> Sound(w, id, patience))
    && (forall pass :: pass in w.passes ==> PassSound(w, pass, patience))
  }

  /** With time enough between the last sight that may be missed and six minutes, a live job never looks old to a look. */
  lemma LiveLooksYoung(w: World, id: Id, since: nat, clock: nat, patience: nat, delay: nat)
    requires patience + delay < (STUCK_MINUTES + 1) * MINUTE
    requires id in w.jobs && Sound(w, id, patience) && Live(w.jobs[id])
    requires NotSeen(w, id, since, patience) && InTime(since, clock, w.now, delay)
    ensures !OlderThan(w.jobs[id].written, clock, MINUTE, STUCK_MINUTES)
  {
    var job := w.jobs[id];
    if job.written <= clock {
      assert clock - job.written <= patience + delay;
      assert (clock - job.written) / MINUTE <= STUCK_MINUTES;
    }
  }

  predicate ByHolder(e: Event) {
    e.TakeLock? || e.LookState? || e.LookUnit? || e.LookAge?
  }

  predicate ByCreator(e: Event) {
    e.Create? || e.UnitStarted? || e.UnitRefused? || e.CreatorDies?
  }

  predicate ByPruning(e: Event) {
    e.PassBegins? || e.PassStep?
  }

  lemma HolderKeeps(w: World, e: Event, patience: nat, delay: nat)
    requires patience + delay < (STUCK_MINUTES + 1) * MINUTE
    requires Inv(w, patience) && Can(w, e, patience, delay) && ByHolder(e)
    ensures Inv(Do(w, e), patience)
  {
    hide OlderThan, InSight;
    if e.LookAge? {
      var stage := w.holder.stage;
      if stage.id in w.jobs && Live(w.jobs[stage.id]) {
        LiveLooksYoung(w, stage.id, stage.since, e.clock, patience, delay);
      }
    }
  }

  lemma CreateKeeps(w: World, id: Id, patience: nat, delay: nat)
    requires Inv(w, patience) && Can(w, Create(id), patience, delay)
    ensures Inv(Do(w, Create(id)), patience)
  {
    hide OlderThan, InSight;
  }

  lemma StartedKeeps(w: World, patience: nat, delay: nat)
    requires Inv(w, patience) && Can(w, UnitStarted, patience, delay)
    ensures Inv(Do(w, UnitStarted), patience)
  {
    hide OlderThan, InSight;
  }

  lemma RefusedKeeps(w: World, patience: nat, delay: nat)
    requires Inv(w, patience) && Can(w, UnitRefused, patience, delay)
    ensures Inv(Do(w, UnitRefused), patience)
  {
    hide OlderThan, InSight;
  }

  lemma CreatorDiesKeeps(w: World, patience: nat, delay: nat)
    requires Inv(w, patience) && Can(w, CreatorDies, patience, delay)
    ensures Inv(Do(w, CreatorDies), patience)
  {
    hide OlderThan, InSight;
  }

  lemma CreatorKeeps(w: World, e: Event, patience: nat, delay: nat)
    requires Inv(w, patience) && Can(w, e, patience, delay) && ByCreator(e)
    ensures Inv(Do(w, e), patience)
  {
    hide Inv, Can, Do;
    match e
    case Create(id) => CreateKeeps(w, id, patience, delay);
    case UnitStarted => StartedKeeps(w, patience, delay);
    case UnitRefused => RefusedKeeps(w, patience, delay);
    case CreatorDies => CreatorDiesKeeps(w, patience, delay);
  }

  /** What writes and moves of one job's runner may do to it: a job that is over stays over, and one in sight stays in sight. */
  ghost predicate Follows(before: Job, job: Job, now: nat) {
    && job.queuedAt == before.queuedAt && before.written <= job.written && (job.written == before.written || job.written == now)
    && (Live(job) ==> Live(before) && Unfinished(job) && (job.visible || job.visible == before.visible))
    && (job.runner == ToStart ==> job == before)
    && (before.runner == ToStart ==> job.runner == ToStart)
  }

  lemma WithKeeps(w: World, id: Id, job: Job, patience: nat)
    requires Inv(w, patience) && id in w.jobs && Follows(w.jobs[id], job, w.now)
    ensures Inv(With(w, id, job), patience)
  {
    hide OlderThan;
    var next := With(w, id, job);
    assert AtMostOneLive(next) && Guarded(next, patience);
    forall pass | pass in w.passes
      ensures PassSound(next, pass, patience)
    {
      assert PassSound(w, pass, patience);
    }
  }

  lemma RunnerKeeps(w: World, e: Event, patience: nat, delay: nat)
    requires Inv(w, patience) && Can(w, e, patience, delay)
    requires !ByHolder(e) && !ByCreator(e) && !ByPruning(e) && !e.Tick?
    ensures Inv(Do(w, e), patience)
  {
    hide Inv, InSight;
    assert Sound(w, e.id, patience) by { SoundHere(w, e.id, patience); }
    WithKeeps(w, e.id, Do(w, e).jobs[e.id], patience);
  }

  lemma SoundHere(w: World, id: Id, patience: nat)
    requires Inv(w, patience) && id in w.jobs
    ensures Sound(w, id, patience)
  {
  }

  lemma PassBeginsKeeps(w: World, id: Id, patience: nat, delay: nat)
    requires Inv(w, patience) && Can(w, PassBegins(id), patience, delay)
    ensures Inv(Do(w, PassBegins(id)), patience)
  {
    hide OlderThan, InSight;
  }

  ghost predicate PassesSound(w: World, passes: multiset<Pass>, patience: nat) {
    forall pass :: pass in passes ==> PassSound(w, pass, patience)
  }

  /** Whatever a pass does next is sound. */
  lemma NextSound(w: World, pass: Pass, clock: nat, days: nat, patience: nat, delay: nat)
    requires patience + delay < (STUCK_MINUTES + 1) * MINUTE && Inv(w, patience) && pass in w.passes
    requires pass.PassAge? ==> InTime(pass.since, clock, w.now, delay)
    ensures PassesSound(w, NextOf(w, pass, clock, days), patience)
  {
    hide OlderThan, AtMostOneLive, Guarded;
    assert PassSound(w, pass, patience);
    if pass.id in w.jobs {
      assert Sound(w, pass.id, patience);
      if pass.PassAge? && Live(w.jobs[pass.id]) {
        LiveLooksYoung(w, pass.id, pass.since, clock, patience, delay);
      }
    }
  }

  lemma NextKeeps(w: World, pass: Pass, more: multiset<Pass>, patience: nat)
    requires Inv(w, patience) && PassesSound(w, more, patience)
    ensures Inv(w.(passes := w.passes - multiset{pass} + more), patience)
  {
    hide OlderThan;
    var next := w.(passes := w.passes - multiset{pass} + more);
    forall other | other in next.passes
      ensures PassSound(next, other, patience)
    {
      assert other in w.passes || other in more;
      assert PassSound(w, other, patience);
    }
  }

  lemma RemovalKeeps(w: World, id: Id, patience: nat)
    requires Inv(w, patience) && Ended(w, id)
    ensures Inv(w.(jobs := w.jobs - {id}), patience)
  {
    var next := w.(jobs := w.jobs - {id});
    assert Guarded(next, patience);
    forall pass | pass in w.passes
      ensures PassSound(next, pass, patience)
    {
      assert PassSound(w, pass, patience);
    }
  }

  lemma PassKeeps(w: World, e: Event, patience: nat, delay: nat)
    requires patience + delay < (STUCK_MINUTES + 1) * MINUTE
    requires Inv(w, patience) && Can(w, e, patience, delay) && e.PassStep?
    ensures Inv(Do(w, e), patience)
  {
    hide Inv, NextOf;
    var pass := e.pass;
    PassIsSound(w, pass, patience);
    var mid := w.(passes := w.passes - multiset{pass} + NextOf(w, pass, e.clock, e.retentionDays));
    NextSound(w, pass, e.clock, e.retentionDays, patience, delay);
    NextKeeps(w, pass, NextOf(w, pass, e.clock, e.retentionDays), patience);
    if pass.Failing? && pass.id in w.jobs {
      SoundHere(w, pass.id, patience);
      WithKeeps(mid, pass.id, w.jobs[pass.id].(state := Failed, written := w.now), patience);
    } else if pass.Removing? {
      RemovalKeeps(mid, pass.id, patience);
    } else {
      assert Do(w, e) == mid;
    }
  }

  lemma PassIsSound(w: World, pass: Pass, patience: nat)
    requires Inv(w, patience) && pass in w.passes
    ensures PassSound(w, pass, patience)
  {
  }

  lemma TickKeeps(w: World, elapsed: nat, patience: nat)
    requires Inv(w, patience) && InSight(w.jobs, w.now + elapsed, patience)
    ensures Inv(Do(w, Tick(elapsed)), patience)
  {
  }

  /** Every step keeps the invariant, as long as units and looks together take less than six minutes. */
  lemma StepKeeps(w: World, e: Event, patience: nat, delay: nat)
    requires patience + delay < (STUCK_MINUTES + 1) * MINUTE
    requires Inv(w, patience) && Can(w, e, patience, delay)
    ensures Inv(Do(w, e), patience)
  {
    hide Inv, Do;
    if e.Tick? {
      TickKeeps(w, e.elapsed, patience);
    } else if ByHolder(e) {
      HolderKeeps(w, e, patience, delay);
    } else if ByCreator(e) {
      CreatorKeeps(w, e, patience, delay);
    } else if e.PassBegins? {
      PassBeginsKeeps(w, e.id, patience, delay);
    } else if e.PassStep? {
      PassKeeps(w, e, patience, delay);
    } else {
      RunnerKeeps(w, e, patience, delay);
    }
  }

  lemma {:induction false} RunKeeps(w: World, events: seq<Event>, end: World, patience: nat, delay: nat)
    requires patience + delay < (STUCK_MINUTES + 1) * MINUTE
    requires Inv(w, patience) && Leads(w, events, end, patience, delay)
    ensures Inv(end, patience)
    decreases |events|
  {
    hide Inv, Can, Do;
    if events != [] {
      StepKeeps(w, events[0], patience, delay);
      RunKeeps(Do(w, events[0]), events[1..], end, patience, delay);
    }
  }

  lemma StartHolds(patience: nat)
    ensures Inv(START, patience)
  {
  }

  /**
   * In every run of creators, runners, pruning passes and clock in which the time a unit may be out of sight and the time a
   * look may take stay under six minutes together: at most one job has a runner that is pending or at work, its record says
   * so, no pass is about to fail or remove such a job, and no creator can begin another beside it.
   */
  lemma OneAtATime(events: seq<Event>, end: World, patience: nat, delay: nat)
    requires patience + delay < (STUCK_MINUTES + 1) * MINUTE && Leads(START, events, end, patience, delay)
    ensures AtMostOneLive(end)
    ensures forall id :: id in end.jobs && Live(end.jobs[id]) ==>
      Unfinished(end.jobs[id]) && Failing(id) !in end.passes && Removing(id) !in end.passes
    ensures forall id, other :: id in end.jobs && Live(end.jobs[id]) ==> !Can(end, Create(other), patience, delay)
  {
    StartHolds(patience);
    RunKeeps(START, events, end, patience, delay);
  }

  lemma LeadsCons(w: World, e: Event, events: seq<Event>, end: World, patience: nat, delay: nat)
    requires Can(w, e, patience, delay) && Leads(Do(w, e), events, end, patience, delay)
    ensures Leads(w, [e] + events, end, patience, delay)
  {
    hide Can, Do;
    assert ([e] + events)[1..] == events;
  }

  lemma LeadsNowhere(w: World, patience: nat, delay: nat)
    ensures Leads(w, [], w, patience, delay)
  {
  }

  /** A first job has been started, and its unit has been out of sight for `time`. */
  function Unseen(time: nat): World {
    World(map[0 := Job(Queued, ToRun, false, 0, 0)], Nobody, {0}, multiset{}, time)
  }

  lemma FirstJob(time: nat, patience: nat, delay: nat) returns (events: seq<Event>)
    requires time <= patience
    ensures Leads(START, events, Unseen(time), patience, delay)
  {
    var w1 := Do(START, TakeLock);
    var w2 := Do(w1, Create(0));
    var w3 := Do(w2, UnitStarted);
    var end := Unseen(time);
    assert START.jobs.Keys == {};
    assert w3.jobs == end.jobs;
    assert InSight(w3.jobs, w3.now + time, patience);
    LeadsNowhere(end, patience, delay);
    LeadsCons(w3, Tick(time), [], end, patience, delay);
    LeadsCons(w2, UnitStarted, [Tick(time)] + [], end, patience, delay);
    LeadsCons(w1, Create(0), [UnitStarted] + ([Tick(time)] + []), end, patience, delay);
    events := [Create(0)] + ([UnitStarted] + ([Tick(time)] + []));
    LeadsCons(START, TakeLock, events, end, patience, delay);
    events := [TakeLock] + events;
  }

  lemma {:induction false} LeadsOver(w: World, a: seq<Event>, mid: World, b: seq<Event>, end: World, patience: nat, delay: nat)
    requires Leads(w, a, mid, patience, delay) && Leads(mid, b, end, patience, delay)
    ensures Leads(w, a + b, end, patience, delay)
    decreases |a|
  {
    hide Can, Do;
    if a == [] {
      assert a + b == b;
    } else {
      assert (a + b)[1..] == a[1..] + b;
      LeadsOver(Do(w, a[0]), a[1..], mid, b, end, patience, delay);
    }
  }

  /**
   * A second creator reads the unit of the first job when it may just be out of sight, and its age when it is six minutes
   * old, the unit in sight by then: it goes on to create a second job.
   */
  lemma SecondJob(time: nat, patience: nat, delay: nat) returns (events: seq<Event>, end: World)
    requires time <= (STUCK_MINUTES + 1) * MINUTE <= time + delay
    ensures Leads(Unseen(time), events, end, patience, delay) && !AtMostOneLive(end)
  {
    hide Can, Leads, AtMostOneLive;
    var wait := (STUCK_MINUTES + 1) * MINUTE;
    var w1 := World(Unseen(time).jobs, Looking({0}, Next), {0}, multiset{}, time);
    var w2 := w1.(holder := Looking({0}, AskUnit(0)));
    var w3 := w1.(holder := Looking({0}, AskAge(0, time)));
    var w4 := w3.(jobs := map[0 := Job(Queued, ToRun, true, 0, 0)]);
    var w5 := w4.(now := wait);
    var w6 := w5.(holder := Looking({}, Next));
    end := Do(w6, Create(1));
    SecondLooks(time, patience, delay, w1, w2, w3);
    SecondWaits(time, patience, delay, w3, w4, w5, w6);
    LeadsNowhere(end, patience, delay);
    events := [];
    LeadsCons(w6, Create(1), events, end, patience, delay);
    events := [Create(1)] + events;
    LeadsCons(w5, LookAge(wait), events, end, patience, delay);
    events := [LookAge(wait)] + events;
    LeadsCons(w4, Tick(wait - time), events, end, patience, delay);
    events := [Tick(wait - time)] + events;
    LeadsCons(w3, Appear(0), events, end, patience, delay);
    events := [Appear(0)] + events;
    LeadsCons(w2, LookUnit, events, end, patience, delay);
    events := [LookUnit] + events;
    LeadsCons(w1, LookState(0), events, end, patience, delay);
    events := [LookState(0)] + events;
    LeadsCons(Unseen(time), TakeLock, events, end, patience, delay);
    events := [TakeLock] + events;
  }

  lemma SecondLooks(time: nat, patience: nat, delay: nat, w1: World, w2: World, w3: World)
    requires w1 == World(Unseen(time).jobs, Looking({0}, Next), {0}, multiset{}, time)
    requires w2 == w1.(holder := Looking({0}, AskUnit(0))) && w3 == w1.(holder := Looking({0}, AskAge(0, time)))
    ensures Can(Unseen(time), TakeLock, patience, delay) && Do(Unseen(time), TakeLock) == w1
    ensures Can(w1, LookState(0), patience, delay) && Do(w1, LookState(0)) == w2
    ensures Can(w2, LookUnit, patience, delay) && Do(w2, LookUnit) == w3
  {
    assert Unseen(time).jobs.Keys == {0};
  }

  lemma SecondWaits(time: nat, patience: nat, delay: nat, w3: World, w4: World, w5: World, w6: World)
    requires time <= (STUCK_MINUTES + 1) * MINUTE <= time + delay
    requires w3 == World(Unseen(time).jobs, Looking({0}, AskAge(0, time)), {0}, multiset{}, time)
    requires w4 == w3.(jobs := map[0 := Job(Queued, ToRun, true, 0, 0)])
    requires w5 == w4.(now := (STUCK_MINUTES + 1) * MINUTE) && w6 == w5.(holder := Looking({}, Next))
    ensures Can(w3, Appear(0), patience, delay) && Do(w3, Appear(0)) == w4
    ensures
      var rest := (STUCK_MINUTES + 1) * MINUTE - time;
      Can(w4, Tick(rest), patience, delay) && Do(w4, Tick(rest)) == w5
    ensures Can(w5, LookAge(w5.now), patience, delay) && Do(w5, LookAge(w5.now)) == w6
    ensures Can(w6, Create(1), patience, delay) && !AtMostOneLive(Do(w6, Create(1)))
  {
    assert Do(w3, Appear(0)).jobs == w4.jobs;
    assert OlderThan(0, w5.now, MINUTE, STUCK_MINUTES);
    assert {0} - {0} == {};
    var end := Do(w6, Create(1));
    assert 0 in end.jobs && 1 in end.jobs && Live(end.jobs[0]) && Live(end.jobs[1]);
  }

  /** A unit out of sight and a look after it that take six minutes together let a second job begin beside the first. */
  lemma TwoAtATime(patience: nat, delay: nat) returns (events: seq<Event>, end: World)
    requires patience + delay >= (STUCK_MINUTES + 1) * MINUTE
    ensures Leads(START, events, end, patience, delay) && !AtMostOneLive(end)
  {
    hide Leads, AtMostOneLive, Unseen;
    var wait := (STUCK_MINUTES + 1) * MINUTE;
    var time := if patience < wait then patience else wait;
    var first := FirstJob(time, patience, delay);
    var second: seq<Event>;
    second, end := SecondJob(time, patience, delay);
    LeadsOver(START, first, Unseen(time), second, end, patience, delay);
    events := first + second;
  }

  /**
   * One job at a time, whatever happens, exactly when the time a unit may stay out of sight after its record's last write and
   * the time a look may take after reading the unit are less than six minutes together.
   */
  lemma ExactlyWhenInTime(patience: nat, delay: nat)
    ensures (forall w :: Reachable(w, patience, delay) ==> AtMostOneLive(w))
       <==> patience + delay < (STUCK_MINUTES + 1) * MINUTE
  {
    hide AtMostOneLive, Can, Do;
    if patience + delay < (STUCK_MINUTES + 1) * MINUTE {
      forall w | Reachable(w, patience, delay)
        ensures AtMostOneLive(w)
      {
        var events :| Leads(START, events, w, patience, delay);
        OneAtATime(events, w, patience, delay);
      }
    } else {
      var events, end := TwoAtATime(patience, delay);
      assert Reachable(end, patience, delay);
    }
  }

  // ---- Jobs whose runner died hold nobody up ----

  /** What a creator that reads everything now takes for a job that is still going. */
  predicate LooksActive(job: Job, now: nat) {
    Unfinished(job) && (job.visible || !OlderThan(job.written, now, MINUTE, STUCK_MINUTES))
  }

  ghost predicate NoneLooksActive(w: World) {
    forall id :: id in w.jobs ==> !LooksActive(w.jobs[id], w.now)
  }

  /** One job that does not look active is looked at and left behind. */
  lemma LookedPast(w: World, todo: set<Id>, id: Id, events: seq<Event>, end: World, patience: nat, delay: nat)
    returns (longer: seq<Event>)
    requires w.holder == Looking(todo, Next) && id in todo && id in w.jobs && !LooksActive(w.jobs[id], w.now)
    requires Leads(w.(holder := Looking(todo - {id}, Next)), events, end, patience, delay)
    ensures Leads(w, longer, end, patience, delay)
  {
    hide Leads, OlderThan;
    if Unfinished(w.jobs[id]) {
      var asked := w.(holder := Looking(todo, AskUnit(id)));
      var unseen := w.(holder := Looking(todo, AskAge(id, w.now)));
      LeadsCons(unseen, LookAge(w.now), events, end, patience, delay);
      longer := [LookAge(w.now)] + events;
      LeadsCons(asked, LookUnit, longer, end, patience, delay);
      longer := [LookUnit] + longer;
    } else {
      longer := events;
    }
    LeadsCons(w, LookState(id), longer, end, patience, delay);
    longer := [LookState(id)] + longer;
  }

  lemma {:induction false} LookedThrough(w: World, todo: set<Id>, unused: Id, patience: nat, delay: nat)
    returns (events: seq<Event>, end: World)
    requires w.holder == Looking(todo, Next) && todo <= w.jobs.Keys && NoneLooksActive(w) && unused !in w.used
    ensures Leads(w, events, end, patience, delay) && end.holder == Starting(unused)
    ensures end.jobs == w.jobs[unused := Job(Queued, ToStart, false, w.now, w.now)]
    decreases |todo|
  {
    hide LooksActive, Leads;
    if todo == {} {
      end := Do(w, Create(unused));
      LeadsNowhere(end, patience, delay);
      LeadsCons(w, Create(unused), [], end, patience, delay);
      events := [Create(unused)] + [];
    } else {
      var id :| id in todo;
      var next := w.(holder := Looking(todo - {id}, Next));
      events, end := LookedThrough(next, todo - {id}, unused, patience, delay);
      events := LookedPast(w, todo, id, events, end, patience, delay);
    }
  }

  /**
   * When every unfinished record's unit is out of sight, and six minutes have passed since the last write to it, a creator
   * gets to start its job.
   */
  lemma DeadJobsDoNotBlock(w: World, unused: Id, patience: nat, delay: nat) returns (events: seq<Event>, end: World)
    requires w.holder == Nobody && unused !in w.used
    requires forall id :: id in w.jobs && Unfinished(w.jobs[id]) ==>
      !w.jobs[id].visible && w.now >= w.jobs[id].written + (STUCK_MINUTES + 1) * MINUTE
    ensures Leads(w, events, end, patience, delay) && end.holder == Starting(unused)
    ensures unused in end.jobs && end.jobs[unused].state == Queued
  {
    hide Leads;
    var next := Do(w, TakeLock);
    forall id | id in w.jobs
      ensures !LooksActive(w.jobs[id], w.now)
    {
      if Unfinished(w.jobs[id]) {
        assert (w.now - w.jobs[id].written) / MINUTE > STUCK_MINUTES;
      }
    }
    events, end := LookedThrough(next, w.jobs.Keys, unused, patience, delay);
    LeadsCons(w, TakeLock, events, end, patience, delay);
    events := [TakeLock] + events;
  }

  // ---- What becomes of a job ----

  /** No runner is pending or at work. */
  ghost predicate AllOver(w: World) {
    forall id :: id in w.jobs ==> !Live(w.jobs[id])
  }

  /** A unit that could not be started leaves no record behind. */
  lemma RefusedStart(w: World, id: Id, before: map<Id, Job>, patience: nat, delay: nat)
    requires w.holder == Starting(id) && id !in before && w.jobs == before[id := Job(Queued, ToStart, false, w.now, w.now)]
    ensures Can(w, UnitRefused, patience, delay)
    ensures Do(w, UnitRefused) == w.(holder := Nobody, jobs := before)
  {
    assert before[id := w.jobs[id]] - {id} == before;
  }

  /** The steps of a job whose unit comes into sight after `unseen`, that works for `work` and writes its progress once. */
  function Life(id: Id, unseen: nat, work: nat, ok: bool): seq<Event> {
    [UnitStarted, Tick(unseen), Appear(id), Run(id), Tick(work), Progress(id), Tick(work), Finish(id, ok), Exit(id)]
  }

  /** The record of such a job after the first `k` of those steps. */
  function RecordAfter(k: nat, start: nat, unseen: nat, work: nat, ok: bool): Job {
    if k == 0 then Job(Queued, ToStart, false, start, start)
    else if k <= 2 then Job(Queued, ToRun, false, start, start)
    else if k == 3 then Job(Queued, ToRun, true, start, start)
    else if k <= 5 then Job(Running, AtWork, true, start, start + unseen)
    else if k <= 7 then Job(Running, AtWork, true, start, start + unseen + work)
    else Job(if ok then Done else Failed, Over, k == 8, start, start + unseen + 2 * work)
  }

  function TimeAfter(k: nat, start: nat, unseen: nat, work: nat): nat {
    start + (if k >= 2 then unseen else 0) + (if k >= 5 then work else 0) + (if k >= 7 then work else 0)
  }

  function WorldAfter(w: World, id: Id, k: nat, unseen: nat, work: nat, ok: bool): World {
    World(w.jobs[id := RecordAfter(k, w.now, unseen, work, ok)], if k == 0 then Starting(id) else Nobody, w.used, w.passes,
          TimeAfter(k, w.now, unseen, work))
  }

  /** The `k`th step can be taken and leads on. */
  ghost predicate LifeGoesOn(w: World, id: Id, k: nat, unseen: nat, work: nat, ok: bool, patience: nat, delay: nat)
    requires k < 9
  {
    var here, e := WorldAfter(w, id, k, unseen, work, ok), Life(id, unseen, work, ok)[k];
    Can(here, e, patience, delay) && Do(here, e) == WorldAfter(w, id, k + 1, unseen, work, ok)
  }

  lemma WrittenOver(jobs: map<Id, Job>, id: Id, a: Job, b: Job)
    ensures jobs[id := a][id := b] == jobs[id := b]
  {
  }

  lemma LifeBegins(w: World, id: Id, k: nat, unseen: nat, work: nat, ok: bool, patience: nat, delay: nat)
    requires AllOver(w) && unseen <= patience && k < 4
    ensures LifeGoesOn(w, id, k, unseen, work, ok, patience, delay)
  {
    WrittenOver(w.jobs, id, RecordAfter(k, w.now, unseen, work, ok), RecordAfter(k + 1, w.now, unseen, work, ok));
  }

  lemma LifeWorks(w: World, id: Id, k: nat, unseen: nat, work: nat, ok: bool, patience: nat, delay: nat)
    requires AllOver(w) && 4 <= k < 7
    ensures LifeGoesOn(w, id, k, unseen, work, ok, patience, delay)
  {
    WrittenOver(w.jobs, id, RecordAfter(k, w.now, unseen, work, ok), RecordAfter(k + 1, w.now, unseen, work, ok));
  }

  lemma LifeEnds(w: World, id: Id, k: nat, unseen: nat, work: nat, ok: bool, patience: nat, delay: nat)
    requires 7 <= k < 9
    ensures LifeGoesOn(w, id, k, unseen, work, ok, patience, delay)
  {
    hide InSight;
    WrittenOver(w.jobs, id, RecordAfter(k, w.now, unseen, work, ok), RecordAfter(k + 1, w.now, unseen, work, ok));
  }

  lemma LifeStep(w: World, id: Id, k: nat, unseen: nat, work: nat, ok: bool, patience: nat, delay: nat)
    requires AllOver(w) && unseen <= patience && k < 9
    ensures LifeGoesOn(w, id, k, unseen, work, ok, patience, delay)
  {
    hide LifeGoesOn;
    if k < 4 {
      LifeBegins(w, id, k, unseen, work, ok, patience, delay);
    } else if k < 7 {
      LifeWorks(w, id, k, unseen, work, ok, patience, delay);
    } else {
      LifeEnds(w, id, k, unseen, work, ok, patience, delay);
    }
  }

  lemma {:induction false} LifeFrom(w: World, id: Id, k: nat, unseen: nat, work: nat, ok: bool, patience: nat, delay: nat)
    requires AllOver(w) && unseen <= patience && k <= 9
    ensures Leads(WorldAfter(w, id, k, unseen, work, ok), Life(id, unseen, work, ok)[k..], WorldAfter(w, id, 9, unseen, work, ok),
                  patience, delay)
    decreases 9 - k
  {
    hide Can, Do, WorldAfter;
    var life := Life(id, unseen, work, ok);
    if k < 9 {
      LifeStep(w, id, k, unseen, work, ok, patience, delay);
      LifeFrom(w, id, k + 1, unseen, work, ok, patience, delay);
      assert life[k..][0] == life[k] && life[k..][1..] == life[k + 1..];
    }
  }

  /**
   * A job that was created, starts, runs and finishes: its record says queued, running and at the end whether it failed, with
   * the time of the last write, and neither the lock nor any other record is touched on the way.
   */
  lemma JobLives(w: World, id: Id, unseen: nat, work: nat, ok: bool, patience: nat, delay: nat)
    requires AllOver(w) && unseen <= patience
    requires w.holder == Starting(id)
    ensures
      var created := w.(jobs := w.jobs[id := Job(Queued, ToStart, false, w.now, w.now)]);
      var end := w.now + unseen + 2 * work;
      var over := Job(if ok then Done else Failed, Over, false, w.now, end);
      Leads(created, Life(id, unseen, work, ok), World(w.jobs[id := over], Nobody, w.used, w.passes, end), patience, delay)
  {
    LifeFrom(w, id, 0, unseen, work, ok, patience, delay);
    assert Life(id, unseen, work, ok)[0..] == Life(id, unseen, work, ok);
  }

  /** What a pass that is not disturbed makes of one record. */
  function AfterPass(jobs: map<Id, Job>, id: Id, now: nat, days: nat): map<Id, Job>
    requires id in jobs
  {
    var job := jobs[id];
    if job.state == Done || job.state == Failed then
      if now >= job.written + (days + 1) * 86400000 then jobs - {id} else jobs
    else if job.visible || now < job.written + 360000 then jobs
    else jobs[id := job.(state := Failed, written := now)]
  }

  lemma MoreTimes(d: nat, x: nat, y: nat)
    requires x <= y
    ensures d * x <= d * y
  {
  }

  lemma QuotientAbove(a: nat, d: nat, k: nat)
    requires d > 0
    ensures a / d > k <==> a >= d * (k + 1)
  {
    var q := a / d;
    assert a == d * q + a % d;
    if q > k {
      MoreTimes(d, k + 1, q);
    } else {
      MoreTimes(d, q + 1, k + 1);
      assert d * (q + 1) == d * q + d;
    }
  }

  lemma AgeInMinutes(written: nat, now: nat)
    ensures OlderThan(written, now, MINUTE, STUCK_MINUTES) <==> now >= written + 360000
  {
    if written <= now {
      QuotientAbove(now - written, MINUTE, STUCK_MINUTES);
    }
  }

  lemma AgeInDays(written: nat, now: nat, days: nat)
    ensures OlderThan(written, now, DAY, days) <==> now >= written + (days + 1) * 86400000
  {
    if written <= now {
      QuotientAbove(now - written, DAY, days);
    }
  }

  lemma UnfinishedPass(w: World, id: Id, days: nat, patience: nat, delay: nat) returns (events: seq<Event>)
    requires id in w.jobs && w.passes == multiset{} && Unfinished(w.jobs[id])
    ensures Leads(w.(passes := multiset{PassUnit(id)}), events, w.(jobs := AfterPass(w.jobs, id, w.now, days)), patience, delay)
  {
    hide Leads, OlderThan;
    var job := w.jobs[id];
    AgeInMinutes(job.written, w.now);
    AgeInDays(w.now, w.now, days);
    var end := w.(jobs := AfterPass(w.jobs, id, w.now, days));
    var unit, age := w.(passes := multiset{PassUnit(id)}), w.(passes := multiset{PassAge(id, w.now)});
    LeadsNowhere(end, patience, delay);
    if job.visible {
      events := OneStep(unit, PassUnit(id), w.now, days, end, [], end, patience, delay);
    } else {
      if w.now < job.written + 360000 {
        events := OneStep(age, PassAge(id, w.now), w.now, days, end, [], end, patience, delay);
      } else {
        var failing, failed := w.(passes := multiset{Failing(id)}), end.(passes := multiset{PassDays(id)});
        events := OneStep(failed, PassDays(id), w.now, days, end, [], end, patience, delay);
        events := OneStep(failing, Failing(id), w.now, days, failed, events, end, patience, delay);
        events := OneStep(age, PassAge(id, w.now), w.now, days, failing, events, end, patience, delay);
      }
      events := OneStep(unit, PassUnit(id), w.now, days, age, events, end, patience, delay);
    }
  }

  lemma FinishedPass(w: World, id: Id, days: nat, patience: nat, delay: nat) returns (events: seq<Event>)
    requires id in w.jobs && w.passes == multiset{} && !Unfinished(w.jobs[id])
    ensures Leads(w.(passes := multiset{PassDays(id)}), events, w.(jobs := AfterPass(w.jobs, id, w.now, days)), patience, delay)
  {
    hide Leads, OlderThan;
    var job := w.jobs[id];
    AgeInDays(job.written, w.now, days);
    var end := w.(jobs := AfterPass(w.jobs, id, w.now, days));
    var aged, removing := w.(passes := multiset{PassDays(id)}), w.(passes := multiset{Removing(id)});
    LeadsNowhere(end, patience, delay);
    if w.now >= job.written + (days + 1) * 86400000 {
      events := OneStep(removing, Removing(id), w.now, days, end, [], end, patience, delay);
      events := OneStep(aged, PassDays(id), w.now, days, removing, events, end, patience, delay);
    } else {
      events := OneStep(aged, PassDays(id), w.now, days, end, [], end, patience, delay);
    }
  }

  lemma BeginsPass(w: World, id: Id, events: seq<Event>, end: World, patience: nat, delay: nat)
    requires id in w.jobs && w.passes == multiset{}
    requires Leads(w.(passes := multiset{if Unfinished(w.jobs[id]) then PassUnit(id) else PassDays(id)}), events, end, patience, delay)
    ensures Leads(w, [PassBegins(id)] + events, end, patience, delay)
  {
    hide Leads;
    var pass := if Unfinished(w.jobs[id]) then PassUnit(id) else PassDays(id);
    assert multiset{} + multiset{pass} == multiset{pass};
    LeadsCons(w, PassBegins(id), events, end, patience, delay);
  }

  /**
   * A pass over one record: a finished one is removed when it is old enough in whole days, an unfinished one whose unit is
   * out of sight and that nobody wrote for six minutes is marked as failed, and every other stays.
   */
  lemma PassOver(w: World, id: Id, days: nat, patience: nat, delay: nat) returns (events: seq<Event>)
    requires id in w.jobs && w.passes == multiset{}
    ensures Leads(w, events, w.(jobs := AfterPass(w.jobs, id, w.now, days)), patience, delay)
  {
    hide Leads, AfterPass;
    if Unfinished(w.jobs[id]) {
      events := UnfinishedPass(w, id, days, patience, delay);
    } else {
      events := FinishedPass(w, id, days, patience, delay);
    }
    BeginsPass(w, id, events, w.(jobs := AfterPass(w.jobs, id, w.now, days)), patience, delay);
    events := [PassBegins(id)] + events;
  }

  lemma OneStep(w: World, pass: Pass, clock: nat, days: nat, next: World, events: seq<Event>, end: World, patience: nat, delay: nat)
    returns (longer: seq<Event>)
    requires w.passes == multiset{pass} && (pass.PassAge? ==> InTime(pass.since, clock, w.now, delay))
    requires next == w.(jobs := JobsAfter(w, pass), passes := NextOf(w, pass, clock, days))
    requires Leads(next, events, end, patience, delay)
    ensures Leads(w, longer, end, patience, delay)
  {
    hide Leads, NextOf, JobsAfter;
    assert w.passes - multiset{pass} + NextOf(w, pass, clock, days) == NextOf(w, pass, clock, days);
    LeadsCons(w, PassStep(pass, clock, days), events, end, patience, delay);
    longer := [PassStep(pass, clock, days)] + events;
  }
}
