/** That jobs do run: a job is given its next time, collected when it has come, and started. */
module CronLiveness {
  import opened Common
  import opened Cron
  import opened CronOneShot
  import opened CronRuns

  // ---------------------------------------------------------------- what a schedule says

  /** Set at time `t`, the schedule comes round at `at`: an at-job at its time if that lies ahead, an interval
      job an interval later, a cron job at the next tick of its expression. */
  predicate ComesAt(s: Schedule, t: int, at: int, ticks: Ticks) {
    match s
    case AtTime(when) => when == Some(at) && t < at
    case Every(ms) => ms.Some? && 0 < ms.value && at == t + ms.value
    case CronExpr(expr) => expr != "" && ticks(expr, t) == Some(at)
    case OtherKind(_) => false
  }

  /** The next run computed is when the schedule comes round, and there is none exactly when it never does,
      as long as the time fits in 64 bits. */
  lemma NextRunIsWhenItComes(s: Schedule, t: int, ticks: Ticks)
    ensures forall at :: ComesAt(s, t, at, ticks) && -TWO63 <= t && at < TWO63 ==> ComputeNextRun(s, t, ticks) == Some(at)
    ensures ComputeNextRun(s, t, ticks) == None <==> !exists at :: ComesAt(s, t, at, ticks)
  {
    if s.Every? && s.everyMs.Some? && 0 < s.everyMs.value {
      assert ComesAt(s, t, t + s.everyMs.value, ticks);
    }
    if ComputeNextRun(s, t, ticks).Some? && !s.Every? {
      assert ComesAt(s, t, ComputeNextRun(s, t, ticks).value, ticks);
    }
  }

  // ---------------------------------------------------------------- a new job

  lemma Appended(jobs: seq<Job>, job: Job)
    ensures job in jobs + [job]
  {
    assert (jobs + [job])[|jobs|] == job;
  }

  /** A job added while the loop is idle is collected by a later tick if and only if its time has come. */
  lemma AddedIsCollected(s: State, id: string, schedule: Schedule, t: int, at: int, now: int, saved: bool, ticks: Ticks)
    requires WellFormed(s) && s.up && s.queue == [] && s.current == None
    requires Possible(s, Add(id, schedule, t, true)) && t <= now
    requires -TWO63 <= t && at < TWO63 && ComesAt(schedule, t, at, ticks)
    ensures var s1 := Step(s, Add(id, schedule, t, true), ticks);
            && Possible(s1, Tick(now, true, saved))
            && (id in Step(s1, Tick(now, true, saved), ticks).queue <==> at <= now)
  {
    hide ComputeNextRun, ClearNext, DueIDs;
    var s1 := Step(s, Add(id, schedule, t, true), ticks);
    var job := NewJob(id, schedule, t, ticks);
    NextRunIsWhenItComes(schedule, t, ticks);
    assert job.nextRun == Some(at);
    StepKeepsWellFormed(s, Add(id, schedule, t, true), ticks);
    Appended(s.jobs, job);
    DueFacts(s1.disk, now);
    assert DueIn(s1.disk, now, id) <==> Due(job, now) by {
      OnlyOne(s1.disk, job, now);
    }
  }

  lemma OnlyOne(jobs: seq<Job>, job: Job, now: int)
    requires Unique(jobs) && job in jobs
    ensures DueIn(jobs, now, job.id) <==> Due(job, now)
  {
    forall j | j in jobs && j.id == job.id ensures j == job {
      UniqueMembers(jobs, j, job);
    }
  }

  // ---------------------------------------------------------------- a collected job starts

  /** Take up and finish the first `k` collected jobs. */
  function Drain(k: nat, now: int): seq<Action> {
    if k == 0 then [] else [Begin(now), Finish(now, true, true)] + Drain(k - 1, now)
  }

  /** A collected job that is still there gets its handler started when its turn comes. */
  lemma {:induction false} CollectedStarts(s: State, id: string, now: int, ticks: Ticks)
    requires WellFormed(s) && s.up && s.current == None && s.clock <= now && id in s.queue && Has(s.jobs, id)
    ensures HandlerStart(id, now) in Run(s, Drain(|s.queue|, now), ticks).starts
    decreases |s.queue|
  {
    hide Step, Possible, WellFormed, Has;
    var b, f, rest := Begin(now), Finish(now, true, true), Drain(|s.queue| - 1, now);
    var actions := Drain(|s.queue|, now);
    assert actions[0] == b && actions[1..] == [f] + rest && ([f] + rest)[1..] == rest;
    BeginTakesUp(s, now, ticks);
    var s1 := Step(s, b, ticks);
    StepKeepsWellFormed(s, b, ticks);
    if s.queue[0] == id {
      StartsStay(s1, [f] + rest, HandlerStart(id, now), ticks);
    } else {
      var s2 := if Possible(s1, f) then Step(s1, f, ticks) else s1;
      FinishLeaves(s1, id, now, ticks);
      assert s.queue == [s.queue[0]] + s.queue[1..];
      CollectedStarts(s2, id, now, ticks);
    }
  }

  lemma BeginTakesUp(s: State, now: int, ticks: Ticks)
    requires s.up && s.current == None && s.clock <= now && s.queue != []
    ensures Possible(s, Begin(now))
    ensures var s1 := Step(s, Begin(now), ticks);
            && s1.queue == s.queue[1..] && s1.up && s1.clock == now && s1.jobs == s.jobs
            && (Has(s.jobs, s.queue[0]) ==> s1.current == Some(HandlerStart(s.queue[0], now)) && HandlerStart(s.queue[0], now) in s1.starts)
            && (!Has(s.jobs, s.queue[0]) ==> s1.current == None)
  {
    assert (s.starts + [HandlerStart(s.queue[0], now)])[|s.starts|] == HandlerStart(s.queue[0], now);
  }

  /** Finishing another job leaves this one where it is. */
  lemma FinishLeaves(s: State, id: string, now: int, ticks: Ticks)
    requires WellFormed(s) && s.up && s.clock == now && Has(s.jobs, id)
    requires s.current.Some? ==> s.current.value.id != id
    ensures var f := Finish(now, true, true);
            var s' := if Possible(s, f) then Step(s, f, ticks) else s;
            WellFormed(s') && s'.up && s'.current == None && s'.clock == now && s'.queue == s.queue && Has(s'.jobs, id)
  {
    hide Finished, Find;
    var f := Finish(now, true, true);
    if Possible(s, f) {
      StepKeepsWellFormed(s, f, ticks);
      FinishedKeepsOthers(s.jobs, s.current.value.id, s.current.value.at, true, now, id, ticks);
    }
  }

  lemma FinishedKeepsOthers(jobs: seq<Job>, x: string, start: int, ok: bool, now: int, id: string, ticks: Ticks)
    requires Unique(jobs) && x != id
    ensures Has(jobs, id) ==> Has(Finished(jobs, x, start, ok, now, ticks), id)
  {
    hide ComputeNextRun, Unique, Has;
    FindIs(jobs, id);
    FindIs(Finished(jobs, x, start, ok, now, ticks), id);
    forall j | j in jobs && j.id == id ensures j in Finished(jobs, x, start, ok, now, ticks) {
      FinishedKeepsOther(jobs, x, start, ok, now, j, ticks);
    }
  }

  lemma FinishedKeepsOther(jobs: seq<Job>, x: string, start: int, ok: bool, now: int, j: Job, ticks: Ticks)
    requires Unique(jobs) && j in jobs && j.id != x
    ensures j in Finished(jobs, x, start, ok, now, ticks)
  {
    hide ComputeNextRun, Unique, Without;
    var i := Find(jobs, x);
    if i < |jobs| {
      var job := jobs[i].(lastRun := Some(start), lastStatus := if ok then "ok" else "error");
      UpdateKeeps(jobs, i, job, j);
      UpdateKeeps(jobs, i, job.(enabled := false, nextRun := None), j);
      UpdateKeeps(jobs, i, job.(nextRun := ComputeNextRun(job.schedule, now, ticks)), j);
      WithoutFacts(jobs[i := job], x);
    }
  }

  lemma UpdateKeeps(jobs: seq<Job>, i: nat, job: Job, j: Job)
    requires i < |jobs| && j in jobs && j.id != jobs[i].id
    ensures j in jobs[i := job]
  {
    var k :| 0 <= k < |jobs| && jobs[k] == j;
    assert jobs[i := job][k] == j;
  }

  lemma {:induction false} StartsStay(s: State, actions: seq<Action>, start: HandlerStart, ticks: Ticks)
    requires start in s.starts
    ensures start in Run(s, actions, ticks).starts
    decreases |actions|
  {
    hide Step, Possible;
    if actions != [] {
      if Possible(s, actions[0]) {
        StartStays(s, actions[0], start, ticks);
        StartsStay(Step(s, actions[0], ticks), actions[1..], start, ticks);
      } else {
        StartsStay(s, actions[1..], start, ticks);
      }
    }
  }

  lemma StartStays(s: State, a: Action, start: HandlerStart, ticks: Ticks)
    requires Possible(s, a) && start in s.starts
    ensures start in Step(s, a, ticks).starts
  {
  }

  // ---------------------------------------------------------------- nothing is forgotten

  /** A reading of the clock is a 64-bit number. */
  predicate IsTime(t: int) { -TWO63 <= t < TWO63 }

  /** The job's next run was computed from its schedule at some time that has passed. */
  ghost predicate IsScheduled(j: Job, clock: int, ticks: Ticks) {
    exists t :: IsTime(t) && t <= clock && j.nextRun == ComputeNextRun(j.schedule, t, ticks)
  }

  /** Enabled jobs that are not being dealt with are scheduled. */
  ghost predicate AllScheduled(s: State, l: seq<Job>, ticks: Ticks) {
    forall j <- l :: j.enabled && !Busy(s, j.id) ==> IsScheduled(j, s.clock, ticks)
  }

  ghost predicate Covers(jobs: seq<Job>, disk: seq<Job>) {
    forall j <- disk :: Has(jobs, j.id)
  }

  /** While the loop is up, in memory and in the file; and memory knows every job of the file. */
  ghost predicate NoneForgotten(s: State, ticks: Ticks) {
    s.up ==>
      && AllScheduled(s, s.jobs, ticks) && AllScheduled(s, s.disk, ticks) && Covers(s.jobs, s.disk)
      && (s.current.Some? ==> s.current.value.id !in s.queue)
  }

  /** Loads and saves of the running service go through. */
  predicate GoesThrough(a: Action) {
    (Timed(a) ==> IsTime(a.now)) &&
    match a
    case Tick(_, loaded, saved) => loaded && saved
    case Finish(_, _, saved) => saved
    case Add(_, _, _, saved) => saved
    case Enable(_, _, _, saved) => saved
    case Remove(_, saved) => saved
    case _ => true
  }

  lemma LaterStillScheduled(j: Job, clock: int, clock': int, ticks: Ticks)
    requires IsScheduled(j, clock, ticks) && clock <= clock'
    ensures IsScheduled(j, clock', ticks)
  {
  }

  lemma JustScheduled(j: Job, now: int, ticks: Ticks)
    requires IsTime(now) && j.nextRun == ComputeNextRun(j.schedule, now, ticks)
    ensures IsScheduled(j, now, ticks)
  {
  }

  /** A list of which each job is an old one, or has just been scheduled, or is disabled or being dealt with. */
  lemma ListStaysScheduled(s: State, s': State, l: seq<Job>, l': seq<Job>, ticks: Ticks)
    requires AllScheduled(s, l, ticks) && s.clock <= s'.clock
    requires forall j <- l' ::
               || (j in l && (Busy(s, j.id) ==> Busy(s', j.id)))
               || !j.enabled || Busy(s', j.id) || (IsTime(s'.clock) && j.nextRun == ComputeNextRun(j.schedule, s'.clock, ticks))
    ensures AllScheduled(s', l', ticks)
  {
    hide IsScheduled, ComputeNextRun, Busy;
    forall j | j in l' && j.enabled && !Busy(s', j.id) ensures IsScheduled(j, s'.clock, ticks) {
      if j in l && (Busy(s, j.id) ==> Busy(s', j.id)) {
        LaterStillScheduled(j, s.clock, s'.clock, ticks);
      } else {
        JustScheduled(j, s'.clock, ticks);
      }
    }
  }

  lemma StartSchedules(s: State, now: int, loaded: bool, saved: bool, ticks: Ticks)
    requires WellFormed(s) && Possible(s, StartLoop(now, loaded, saved)) && IsTime(now)
    ensures NoneForgotten(Step(s, StartLoop(now, loaded, saved), ticks), ticks)
  {
    hide ComputeNextRun, Unique, IsScheduled, Recomputed;
    var s' := Step(s, StartLoop(now, loaded, saved), ticks);
    if loaded && saved {
      RecomputedFacts(s.disk, now, ticks);
      ListStaysScheduled(s.(clock := now), s', [], s'.jobs, ticks);
      CoversItself(s'.jobs);
    }
  }

  lemma CoversItself(l: seq<Job>)
    ensures Covers(l, l)
  {
    forall j | j in l ensures Has(l, j.id) {
      FindIs(l, j.id);
    }
  }

  lemma TickSchedules(s: State, now: int, ticks: Ticks)
    requires WellFormed(s) && NoneForgotten(s, ticks) && Possible(s, Tick(now, true, true))
    ensures NoneForgotten(Step(s, Tick(now, true, true), ticks), ticks)
  {
    hide ComputeNextRun, Unique, IsScheduled, ClearNext, DueIDs, Covers;
    var s' := Step(s, Tick(now, true, true), ticks);
    var due := DueIDs(s.disk, now);
    ClearFacts(s.disk, due);
    ListStaysScheduled(s, s', s.disk, s'.jobs, ticks);
    CoversItself(s'.jobs);
    if due == [] {
      NothingCleared(s.disk);
    }
  }

  lemma NothingCleared(l: seq<Job>)
    ensures ClearNext(l, []) == l
  {
  }

  lemma BeginSchedules(s: State, now: int, ticks: Ticks)
    requires WellFormed(s) && NoneForgotten(s, ticks) && Possible(s, Begin(now))
    ensures NoneForgotten(Step(s, Begin(now), ticks), ticks)
  {
    hide ComputeNextRun, Unique, IsScheduled, Has, KnownJobs;
    var s' := Step(s, Begin(now), ticks);
    var id := s.queue[0];
    assert s.queue == [id] + s.queue[1..];
    assert NoDup(s.queue) ==> id !in s.queue[1..];
    forall j | j in s.jobs ensures Busy(s, j.id) ==> Busy(s', j.id) {
      FindIs(s.jobs, j.id);
    }
    forall j | j in s.disk ensures Busy(s, j.id) ==> Busy(s', j.id) {
      assert Has(s.jobs, j.id);
    }
    ListStaysScheduled(s, s', s.jobs, s'.jobs, ticks);
    ListStaysScheduled(s, s', s.disk, s'.disk, ticks);
  }

  lemma FinishSchedules(s: State, now: int, ok: bool, ticks: Ticks)
    requires WellFormed(s) && NoneForgotten(s, ticks) && Possible(s, Finish(now, ok, true)) && IsTime(now)
    ensures NoneForgotten(Step(s, Finish(now, ok, true), ticks), ticks)
  {
    hide ComputeNextRun, Unique, IsScheduled, Finished, Has, Covers;
    var id, start := s.current.value.id, s.current.value.at;
    var s' := Step(s, Finish(now, ok, true), ticks);
    var l := Finished(s.jobs, id, start, ok, now, ticks);
    FinishedFacts(s.jobs, id, start, ok, now, ticks);
    FinishedScheduled(s.jobs, id, start, ok, now, ticks);
    ListStaysScheduled(s, s', s.jobs, l, ticks);
    if Has(s.jobs, id) {
      CoversItself(l);
    } else {
      AbsentUnchanged(s.jobs, id, start, ok, now, ticks);
      NotInFile(s.jobs, s.disk, id);
      ListStaysScheduled(s, s', s.disk, s.disk, ticks);
    }
  }

  lemma AbsentUnchanged(jobs: seq<Job>, id: string, start: int, ok: bool, now: int, ticks: Ticks)
    requires !Has(jobs, id)
    ensures Finished(jobs, id, start, ok, now, ticks) == jobs
  {
  }

  lemma NotInFile(jobs: seq<Job>, disk: seq<Job>, id: string)
    requires Covers(jobs, disk) && !Has(jobs, id)
    ensures forall j <- disk :: j.id != id
  {
  }

  lemma FinishedScheduled(jobs: seq<Job>, id: string, start: int, ok: bool, now: int, ticks: Ticks)
    requires Unique(jobs)
    ensures forall j <- Finished(jobs, id, start, ok, now, ticks) ::
              j.id == id ==> !j.enabled || j.nextRun == ComputeNextRun(j.schedule, now, ticks)
  {
    hide ComputeNextRun, Unique;
    var i := Find(jobs, id);
    if i < |jobs| {
      var job := jobs[i].(lastRun := Some(start), lastStatus := if ok then "ok" else "error");
      UpdateFacts(jobs, i, job);
      WithoutFacts(jobs[i := job], id);
      UpdateFacts(jobs, i, job.(enabled := false, nextRun := None));
      UpdateFacts(jobs, i, job.(nextRun := ComputeNextRun(job.schedule, now, ticks)));
    } else {
      FindIs(jobs, id);
    }
  }

  lemma AddSchedules(s: State, id: string, schedule: Schedule, now: int, ticks: Ticks)
    requires WellFormed(s) && NoneForgotten(s, ticks) && s.up && Possible(s, Add(id, schedule, now, true)) && IsTime(now)
    ensures NoneForgotten(Step(s, Add(id, schedule, now, true), ticks), ticks)
  {
    hide ComputeNextRun, Unique, IsScheduled, Has, Covers;
    var s', job := Step(s, Add(id, schedule, now, true), ticks), NewJob(id, schedule, now, ticks);
    assert forall j :: j in s.jobs + [job] <==> j in s.jobs || j == job;
    ListStaysScheduled(s, s', s.jobs, s'.jobs, ticks);
    CoversItself(s'.jobs);
  }

  lemma EnableSchedules(s: State, id: string, enabled: bool, now: int, ticks: Ticks)
    requires WellFormed(s) && NoneForgotten(s, ticks) && s.up && Possible(s, Enable(id, enabled, now, true)) && IsTime(now)
    ensures NoneForgotten(Step(s, Enable(id, enabled, now, true), ticks), ticks)
  {
    hide ComputeNextRun, Unique, IsScheduled, WithEnabled, Has, Covers;
    var s' := Step(s, Enable(id, enabled, now, true), ticks);
    EnabledFacts(s.jobs, id, enabled, now, ticks);
    ListStaysScheduled(s, s', s.jobs, s'.jobs, ticks);
    ListStaysScheduled(s, s', s.disk, s.disk, ticks);
    if Has(s.jobs, id) {
      CoversItself(s'.jobs);
    } else {
      AbsentNotEnabled(s.jobs, id, enabled, now, ticks);
    }
  }

  lemma RemoveSchedules(s: State, id: string, ticks: Ticks)
    requires WellFormed(s) && NoneForgotten(s, ticks) && s.up && Possible(s, Remove(id, true))
    ensures NoneForgotten(Step(s, Remove(id, true), ticks), ticks)
  {
    hide ComputeNextRun, Unique, IsScheduled, Without, Has, Covers;
    var s' := Step(s, Remove(id, true), ticks);
    WithoutFacts(s.jobs, id);
    ListStaysScheduled(s, s', s.jobs, s'.jobs, ticks);
    ListStaysScheduled(s, s', s.disk, s.disk, ticks);
    if Has(s.jobs, id) {
      CoversItself(s'.jobs);
    } else {
      AbsentNotRemoved(s.jobs, s.disk, id);
    }
  }

  lemma RemoveOnDiskSchedules(s: State, id: string, ticks: Ticks)
    requires WellFormed(s) && NoneForgotten(s, ticks) && s.up
    ensures NoneForgotten(Step(s, RemoveOnDisk(id), ticks), ticks)
  {
    hide ComputeNextRun, Unique, IsScheduled, Without, Covers;
    var s' := Step(s, RemoveOnDisk(id), ticks);
    WithoutFacts(s.disk, id);
    ListStaysScheduled(s, s', s.jobs, s.jobs, ticks);
    ListStaysScheduled(s, s', s.disk, s'.disk, ticks);
    CoversLess(s.jobs, s.disk, s'.disk);
  }

  lemma CoversLess(jobs: seq<Job>, disk: seq<Job>, disk': seq<Job>)
    requires Covers(jobs, disk) && forall j <- disk' :: j in disk
    ensures Covers(jobs, disk')
  {
  }

  lemma AbsentNotEnabled(jobs: seq<Job>, id: string, enabled: bool, now: int, ticks: Ticks)
    requires !Has(jobs, id)
    ensures WithEnabled(jobs, id, enabled, now, ticks) == jobs
  {
  }

  lemma AbsentNotRemoved(jobs: seq<Job>, disk: seq<Job>, id: string)
    requires !Has(jobs, id) && Covers(jobs, disk)
    ensures Covers(Without(jobs, id), disk)
  {
    WithoutFacts(jobs, id);
    forall j | j in disk ensures Has(Without(jobs, id), j.id) {
      assert Has(jobs, j.id);
      FindIs(jobs, j.id);
      FindIs(Without(jobs, id), j.id);
    }
  }

  lemma StepForgetsNone(s: State, a: Action, ticks: Ticks)
    requires WellFormed(s) && NoneForgotten(s, ticks) && Possible(s, a) && GoesThrough(a)
    ensures NoneForgotten(Step(s, a, ticks), ticks)
  {
    hide NoneForgotten;
    if !Step(s, a, ticks).up {
      DownForgetsNone(Step(s, a, ticks), ticks);
      return;
    }
    match a {
      case StartLoop(now, loaded, saved) => StartSchedules(s, now, loaded, saved, ticks);
      case Tick(now, _, _) => TickSchedules(s, now, ticks);
      case Begin(now) => BeginSchedules(s, now, ticks);
      case Finish(now, ok, _) => FinishSchedules(s, now, ok, ticks);
      case Add(id, schedule, now, _) => AddSchedules(s, id, schedule, now, ticks);
      case Enable(id, enabled, now, _) => EnableSchedules(s, id, enabled, now, ticks);
      case Remove(id, _) => RemoveSchedules(s, id, ticks);
      case RemoveOnDisk(id) => RemoveOnDiskSchedules(s, id, ticks);
    }
  }

  lemma DownForgetsNone(s: State, ticks: Ticks)
    requires !s.up
    ensures NoneForgotten(s, ticks)
  {
  }

  /** Over every run in which loads and saves of the running service go through, crashes and restarts
      included, no enabled job is left without the next run its schedule gives it. */
  lemma {:induction false} RunForgetsNone(s: State, actions: seq<Action>, ticks: Ticks)
    requires WellFormed(s) && NoneForgotten(s, ticks) && forall a <- actions :: GoesThrough(a)
    ensures WellFormed(Run(s, actions, ticks)) && NoneForgotten(Run(s, actions, ticks), ticks)
    decreases |actions|
  {
    hide WellFormed, NoneForgotten, Step, Possible, GoesThrough;
    if actions != [] {
      assert actions[0] in actions;
      if Possible(s, actions[0]) {
        StepKeepsWellFormed(s, actions[0], ticks);
        StepForgetsNone(s, actions[0], ticks);
        RunForgetsNone(Step(s, actions[0], ticks), actions[1..], ticks);
      } else {
        RunForgetsNone(s, actions[1..], ticks);
      }
    }
  }

  /** So after any such run a tick of the idle loop collects every enabled interval job of the file whose
      interval has gone by since the clock of that run, every enabled at-job whose time has come since, and
      every enabled cron job whose expression has ticked since any time before. */
  lemma NothingIsForgotten(s: State, actions: seq<Action>, job: Job, now: int, saved: bool, ticks: Ticks)
    requires Initial(s) && forall a <- actions :: GoesThrough(a)
    requires var e := Run(s, actions, ticks);
             && Possible(e, Tick(now, true, saved)) && job in e.disk && job.enabled
             && match job.schedule
                case Every(ms) => ms.Some? && 0 < ms.value && e.clock + ms.value <= now && IsTime(now)
                case AtTime(when) => when.Some? && e.clock < when.value <= now
                case CronExpr(expr) => expr != "" && TicksBy(expr, e.clock, now, ticks)
                case _ => false
    ensures var e := Run(s, actions, ticks); job.id in Step(e, Tick(now, true, saved), ticks).queue
  {
    hide Run, Step, ComputeNextRun;
    InitialIsWellFormed(s);
    RunForgetsNone(s, actions, ticks);
    var e := Run(s, actions, ticks);
    ScheduledInTime(e, job, now, ticks);
    TickCollects(e, job, now, saved, ticks);
  }

  /** From whatever time up to `clock` one starts, the next tick comes by `now`. */
  ghost predicate TicksBy(expr: string, clock: int, now: int, ticks: Ticks) {
    forall t :: IsTime(t) && t <= clock ==> ticks(expr, t).Some? && ticks(expr, t).value <= now
  }

  lemma InitialIsWellFormed(s: State)
    requires Initial(s)
    ensures WellFormed(s) && !s.up
  {
  }

  lemma ScheduledInTime(e: State, job: Job, now: int, ticks: Ticks)
    requires WellFormed(e) && NoneForgotten(e, ticks) && Possible(e, Tick(now, true, true)) && job in e.disk && job.enabled
    requires match job.schedule
             case Every(ms) => ms.Some? && 0 < ms.value && e.clock + ms.value <= now && IsTime(now)
             case AtTime(when) => when.Some? && e.clock < when.value <= now
             case CronExpr(expr) => expr != "" && TicksBy(expr, e.clock, now, ticks)
             case _ => false
    ensures Due(job, now)
  {
    assert !Busy(e, job.id);
    var t :| IsTime(t) && t <= e.clock && job.nextRun == ComputeNextRun(job.schedule, t, ticks);
  }

  lemma TickCollects(e: State, job: Job, now: int, saved: bool, ticks: Ticks)
    requires WellFormed(e) && Possible(e, Tick(now, true, saved)) && job in e.disk && Due(job, now)
    ensures job.id in Step(e, Tick(now, true, saved), ticks).queue
  {
    DueFacts(e.disk, now);
    assert DueIn(e.disk, now, job.id);
  }
}
