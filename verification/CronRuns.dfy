/** The scheduler as a step machine: ticks, handlers and API calls interleave, the process may
    die and come back, saves may fail. */
module CronRuns {
  import opened Common
  import opened Cron

  datatype HandlerStart = HandlerStart(id: string, at: int)

  /** `alive`: the process is there and has loaded the store; `up`: its run loop is started.
      `queue`: ids collected by the last tick and not yet taken up; `current`: the handler that
      is running. `born` remembers every schedule an id was ever given. */
  datatype State = State(
    disk: seq<Job>, jobs: seq<Job>, alive: bool, up: bool,
    queue: seq<string>, current: Option<HandlerStart>,
    clock: int, starts: seq<HandlerStart>, born: map<string, Schedule>)

  /** `loaded` says whether the store file could be read, `saved` whether it could be written. */
  datatype Action =
    | Boot(loaded: bool)
    | StartLoop(now: int, loaded: bool, saved: bool)
    | Tick(now: int, loaded: bool, saved: bool)
    | Begin(now: int)
    | Finish(now: int, ok: bool, saved: bool)
    | Add(id: string, schedule: Schedule, now: int, saved: bool)
    | Enable(id: string, enabled: bool, now: int, saved: bool)
    | Remove(id: string, saved: bool)
    | RemoveOnDisk(id: string)
    | Crash

  predicate Timed(a: Action) { a.StartLoop? || a.Tick? || a.Begin? || a.Finish? || a.Add? || a.Enable? }

  /** When an action can happen. One run loop: a tick waits until the last batch is done. */
  predicate Possible(s: State, a: Action) {
    && (Timed(a) ==> s.clock <= a.now)
    && match a
       case Boot(_) => !s.alive
       case StartLoop(_, _, _) => s.alive && !s.up
       case Tick(_, _, _) => s.up && s.queue == [] && s.current == None
       case Begin(_) => s.up && s.queue != [] && s.current == None
       case Finish(_, _, _) => s.up && s.current.Some?
       case Add(id, _, _, _) => s.alive && id !in s.born
       case Enable(_, _, _, _) => s.alive
       case Remove(_, _) => s.alive
       case RemoveOnDisk(_) => true
       case Crash => s.alive
  }

  /** What reading the store file leaves in memory. */
  function Found(s: State, loaded: bool): seq<Job> { if loaded then s.disk else [] }

  /** The list after a change in memory, and the file if the save went through. */
  function Saved(s: State, jobs: seq<Job>, saved: bool): State {
    s.(jobs := jobs, disk := if saved then jobs else s.disk)
  }

  function Step(s: State, a: Action, ticks: Ticks): State
    requires Possible(s, a)
  {
    var s := if Timed(a) then s.(clock := a.now) else s;
    match a
    case Boot(loaded) => s.(alive := true, up := false, jobs := Found(s, loaded))
    case StartLoop(now, loaded, saved) =>
      Saved(s, Recomputed(Found(s, loaded), now, ticks), loaded && saved).(up := loaded && saved)
    case Tick(now, loaded, saved) =>
      var due := DueIDs(Found(s, loaded), now);
      Saved(s, ClearNext(Found(s, loaded), due), saved && due != []).(queue := due)
    case Begin(now) =>
      var s' := s.(queue := s.queue[1..]);
      if Has(s.jobs, s.queue[0]) then
        var start := HandlerStart(s.queue[0], now);
        s'.(current := Some(start), starts := s.starts + [start])
      else s'
    case Finish(now, ok, saved) =>
      var id := s.current.value.id;
      Saved(s, Finished(s.jobs, id, s.current.value.at, ok, now, ticks), saved && Has(s.jobs, id)).(current := None)
    case Add(id, schedule, now, saved) =>
      Saved(s, s.jobs + [NewJob(id, schedule, now, ticks)], saved).(born := s.born[id := schedule])
    case Enable(id, enabled, now, saved) =>
      Saved(s, WithEnabled(s.jobs, id, enabled, now, ticks), saved && Has(s.jobs, id))
    case Remove(id, saved) => Saved(s, Without(s.jobs, id), saved && Has(s.jobs, id))
    case RemoveOnDisk(id) => s.(disk := Without(s.disk, id))
    case Crash => s.(alive := false, up := false, queue := [], current := None)
  }

  /** A run; an action that is not possible when its turn comes does nothing. */
  function Run(s: State, actions: seq<Action>, ticks: Ticks): State
    decreases |actions|
  {
    if actions == [] then s
    else Run(if Possible(s, actions[0]) then Step(s, actions[0], ticks) else s, actions[1..], ticks)
  }

  /** No process yet; the store file of earlier days. */
  predicate Initial(s: State) {
    && !s.alive && !s.up && s.jobs == [] && s.queue == [] && s.current == None && s.starts == []
    && Unique(s.disk)
    && (forall j <- s.disk :: j.id in s.born && s.born[j.id] == j.schedule && Stored(j))
  }

  predicate Unique(jobs: seq<Job>) {
    forall i, k :: 0 <= i < k < |jobs| ==> jobs[i].id != jobs[k].id
  }

  /** An at-job waits for its own time or for nothing. */
  predicate Stored(j: Job) {
    j.schedule.AtTime? && j.nextRun.Some? ==> j.schedule.atMs == j.nextRun
  }

  predicate NoDup(ids: seq<string>) {
    forall i, k :: 0 <= i < k < |ids| ==> ids[i] != ids[k]
  }

  // ---------------------------------------------------------------- list lemmas

  lemma UniqueFront(jobs: seq<Job>)
    requires jobs != [] && Unique(jobs)
    ensures var front, last := jobs[..|jobs| - 1], jobs[|jobs| - 1];
            Unique(front) && forall j <- front :: j.id != last.id
  {
    var front, last := jobs[..|jobs| - 1], jobs[|jobs| - 1];
    forall j | j in front ensures j.id != last.id {
      var k :| 0 <= k < |front| && front[k] == j;
      assert jobs[k] == j;
    }
  }

  lemma UniqueGrown(jobs: seq<Job>, job: Job)
    requires Unique(jobs) && forall j <- jobs :: j.id != job.id
    ensures Unique(jobs + [job])
  {
    forall i | 0 <= i < |jobs| ensures jobs[i].id != job.id {
      assert jobs[i] in jobs;
    }
  }

  lemma LastApart(jobs: seq<Job>)
    requires jobs != []
    ensures forall j :: j in jobs <==> j in jobs[..|jobs| - 1] || j == jobs[|jobs| - 1]
  {
    assert jobs == jobs[..|jobs| - 1] + [jobs[|jobs| - 1]];
  }

  lemma {:induction false} WithoutFacts(jobs: seq<Job>, id: string)
    ensures var l := Without(jobs, id);
            && (forall j :: j in l <==> j in jobs && j.id != id)
            && (Unique(jobs) ==> Unique(l))
  {
    if jobs != [] {
      var front, last := jobs[..|jobs| - 1], jobs[|jobs| - 1];
      WithoutFacts(front, id);
      LastApart(jobs);
      var l := Without(front, id);
      assert forall j :: j in l + [last] <==> j in l || j == last;
      assert l + [] == l;
      if Unique(jobs) {
        hide Unique;
        UniqueFront(jobs);
        if last.id != id {
          UniqueGrown(l, last);
        }
      }
    }
  }

  ghost predicate DueIn(jobs: seq<Job>, now: int, id: string) {
    exists j <- jobs :: j.id == id && Due(j, now)
  }

  lemma {:induction false} DueFacts(jobs: seq<Job>, now: int)
    ensures var ids := DueIDs(jobs, now);
            && (forall id :: id in ids <==> DueIn(jobs, now, id))
            && (Unique(jobs) ==> NoDup(ids))
  {
    if jobs != [] {
      var front, last := jobs[..|jobs| - 1], jobs[|jobs| - 1];
      DueFacts(front, now);
      LastApart(jobs);
      var ids := DueIDs(front, now);
      assert ids + [] == ids;
      forall id ensures DueIn(jobs, now, id) <==> DueIn(front, now, id) || (id == last.id && Due(last, now)) {
      }
      assert forall id :: id in ids + [last.id] <==> id in ids || id == last.id;
      if Unique(jobs) {
        UniqueFront(jobs);
        forall k | 0 <= k < |ids| ensures ids[k] != last.id {
          assert ids[k] in ids;
          assert DueIn(front, now, ids[k]);
        }
      }
    }
  }

  lemma FindIs(jobs: seq<Job>, id: string)
    ensures Has(jobs, id) <==> exists j <- jobs :: j.id == id
  {
    if exists j <- jobs :: j.id == id {
      var j :| j in jobs && j.id == id;
      var k :| 0 <= k < |jobs| && jobs[k] == j;
      assert k >= Find(jobs, id);
    }
    assert Has(jobs, id) ==> jobs[Find(jobs, id)] in jobs;
  }

  lemma UniqueMembers(jobs: seq<Job>, j: Job, j': Job)
    requires Unique(jobs) && j in jobs && j' in jobs && j.id == j'.id
    ensures j == j'
  {
    var i :| 0 <= i < |jobs| && jobs[i] == j;
    var k :| 0 <= k < |jobs| && jobs[k] == j';
    assert i == k;
  }

  lemma UpdateFacts(jobs: seq<Job>, i: nat, job: Job)
    requires i < |jobs| && job.id == jobs[i].id
    ensures Unique(jobs) ==> Unique(jobs[i := job])
    ensures forall j <- jobs[i := job] :: j == job || j in jobs
    ensures Unique(jobs) ==> forall j <- jobs[i := job] :: j.id == job.id ==> j == job
    ensures forall j <- jobs :: j.id != job.id ==> j in jobs[i := job]
  {
    var l := jobs[i := job];
    forall j | j in jobs && j.id != job.id ensures j in l {
      var k :| 0 <= k < |jobs| && jobs[k] == j;
      assert l[k] == j;
    }
  }

  // ---------------------------------------------------------------- well-formed states

  ghost predicate KnownJobs(s: State, l: seq<Job>) {
    Unique(l) && forall j <- l :: j.id in s.born && s.born[j.id] == j.schedule
  }

  ghost predicate WellFormed(s: State) {
    && KnownJobs(s, s.disk) && KnownJobs(s, s.jobs)
    && NoDup(s.queue) && (forall id <- s.queue :: id in s.born)
    && (forall st <- s.starts :: st.id in s.born && st.at <= s.clock)
    && (s.current.Some? ==> s.current.value in s.starts)
    && (s.up ==> s.alive)
    && (!s.up ==> s.queue == [] && s.current == None)
  }

  lemma ClearFacts(jobs: seq<Job>, ids: seq<string>)
    ensures Unique(jobs) ==> Unique(ClearNext(jobs, ids))
    ensures forall j <- ClearNext(jobs, ids) :: exists o <- jobs :: j == if o.id in ids then o.(nextRun := None) else o
  {
    var l := ClearNext(jobs, ids);
    forall j | j in l ensures exists o <- jobs :: j == if o.id in ids then o.(nextRun := None) else o {
      var k :| 0 <= k < |l| && l[k] == j;
      assert jobs[k] in jobs;
    }
  }

  lemma RecomputedFacts(jobs: seq<Job>, now: int, ticks: Ticks)
    ensures Unique(jobs) ==> Unique(Recomputed(jobs, now, ticks))
    ensures forall j <- Recomputed(jobs, now, ticks) :: exists o <- jobs ::
                                                          j == if o.enabled then o.(nextRun := ComputeNextRun(o.schedule, now, ticks)) else o
  {
    var l := Recomputed(jobs, now, ticks);
    forall j | j in l
      ensures exists o <- jobs :: j == if o.enabled then o.(nextRun := ComputeNextRun(o.schedule, now, ticks)) else o
    {
      var k :| 0 <= k < |l| && l[k] == j;
      assert jobs[k] in jobs;
    }
  }

  /** What `Finished` makes of each job. */
  lemma FinishedFacts(jobs: seq<Job>, id: string, start: int, ok: bool, now: int, ticks: Ticks)
    requires Unique(jobs)
    ensures var l := Finished(jobs, id, start, ok, now, ticks);
            && Unique(l)
            && (forall j <- l :: j.id != id ==> j in jobs)
            && (forall j <- l :: j.id == id ==> exists o <- jobs :: FinishedFrom(j, o, now, ticks))
  {
    hide ComputeNextRun;
    var i := Find(jobs, id);
    if i < |jobs| {
      var job := jobs[i].(lastRun := Some(start), lastStatus := if ok then "ok" else "error");
      assert jobs[i] in jobs;
      UpdateFacts(jobs, i, job);
      WithoutFacts(jobs[i := job], id);
      UpdateFacts(jobs, i, job.(enabled := false, nextRun := None));
      UpdateFacts(jobs, i, job.(nextRun := ComputeNextRun(job.schedule, now, ticks)));
    } else {
      FindIs(jobs, id);
    }
  }

  ghost predicate FinishedFrom(j: Job, o: Job, now: int, ticks: Ticks) {
    && j.id == o.id && j.schedule == o.schedule
    && (j.schedule.AtTime? ==> j.nextRun == None)
    && (!j.schedule.AtTime? ==> j.nextRun == ComputeNextRun(j.schedule, now, ticks))
  }

  lemma EnabledFacts(jobs: seq<Job>, id: string, enabled: bool, now: int, ticks: Ticks)
    requires Unique(jobs)
    ensures var l := WithEnabled(jobs, id, enabled, now, ticks);
            && Unique(l)
            && (forall j <- l :: j.id != id ==> j in jobs)
            && (forall j <- l :: j.id == id ==> exists o <- jobs ::
                                     (j == o.(enabled := enabled, nextRun := if enabled then ComputeNextRun(o.schedule, now, ticks) else None)))
  {
    hide ComputeNextRun;
    var i := Find(jobs, id);
    if i < |jobs| {
      assert jobs[i] in jobs;
      UpdateFacts(jobs, i, jobs[i].(enabled := enabled, nextRun := if enabled then ComputeNextRun(jobs[i].schedule, now, ticks) else None));
    } else {
      FindIs(jobs, id);
    }
  }

  // ---------------------------------------------------------------- well-formedness, action by action

  lemma KnownFrom(s: State, l: seq<Job>, l': seq<Job>)
    requires KnownJobs(s, l) && Unique(l')
    requires forall j' <- l' :: exists j <- l :: j.id == j'.id && j.schedule == j'.schedule
    ensures KnownJobs(s, l')
  {
  }

  lemma SavedStaysWellFormed(s: State, jobs: seq<Job>, saved: bool)
    requires WellFormed(s) && KnownJobs(s, jobs)
    ensures WellFormed(Saved(s, jobs, saved))
  {
    hide Unique;
  }

  lemma FoundKnown(s: State, loaded: bool)
    requires WellFormed(s)
    ensures KnownJobs(s, Found(s, loaded))
  {
  }

  lemma TickKnown(s: State, found: seq<Job>, now: int)
    requires WellFormed(s) && KnownJobs(s, found)
    ensures var due := DueIDs(found, now);
            KnownJobs(s, ClearNext(found, due)) && NoDup(due) && forall id <- due :: id in s.born
  {
    hide Unique, NoDup, ClearNext, DueIDs;
    var due := DueIDs(found, now);
    DueFacts(found, now);
    ClearFacts(found, due);
    KnownFrom(s, found, ClearNext(found, due));
    forall id | id in due ensures id in s.born {
      assert DueIn(found, now, id);
    }
  }

  lemma AddKnown(s: State, id: string, schedule: Schedule, job: Job)
    requires WellFormed(s) && id !in s.born && job.id == id && job.schedule == schedule
    ensures var s' := s.(born := s.born[id := schedule]); WellFormed(s') && KnownJobs(s', s.jobs + [job])
  {
    hide Unique;
    UniqueGrown(s.jobs, job);
    assert forall j :: j in s.jobs + [job] <==> j in s.jobs || j == job;
  }

  lemma StepKeepsWellFormed(s: State, a: Action, ticks: Ticks)
    requires WellFormed(s) && Possible(s, a)
    ensures WellFormed(Step(s, a, ticks))
  {
    hide ComputeNextRun, Finished, WithEnabled, Recomputed, ClearNext, DueIDs, Without, Find, Unique, NoDup;
    var s0 := if Timed(a) then s.(clock := a.now) else s;
    assert WellFormed(s0);
    match a {
      case StartLoop(now, loaded, saved) =>
        var found := Found(s, loaded);
        FoundKnown(s0, loaded);
        RecomputedFacts(found, now, ticks);
        KnownFrom(s0, found, Recomputed(found, now, ticks));
        SavedStaysWellFormed(s0, Recomputed(found, now, ticks), loaded && saved);
      case Tick(now, loaded, saved) =>
        var found := Found(s, loaded);
        FoundKnown(s0, loaded);
        TickKnown(s0, found, now);
        SavedStaysWellFormed(s0, ClearNext(found, DueIDs(found, now)), saved && DueIDs(found, now) != []);
      case Finish(now, ok, saved) =>
        FinishedFacts(s.jobs, s.current.value.id, s.current.value.at, ok, now, ticks);
        var l := Finished(s.jobs, s.current.value.id, s.current.value.at, ok, now, ticks);
        KnownFrom(s0, s.jobs, l);
        SavedStaysWellFormed(s0, l, saved && Has(s.jobs, s.current.value.id));
      case Add(id, schedule, now, saved) =>
        AddKnown(s0, id, schedule, NewJob(id, schedule, now, ticks));
        SavedStaysWellFormed(s0.(born := s.born[id := schedule]), s.jobs + [NewJob(id, schedule, now, ticks)], saved);
      case Enable(id, enabled, now, saved) =>
        EnabledFacts(s.jobs, id, enabled, now, ticks);
        KnownFrom(s0, s.jobs, WithEnabled(s.jobs, id, enabled, now, ticks));
        SavedStaysWellFormed(s0, WithEnabled(s.jobs, id, enabled, now, ticks), saved && Has(s.jobs, id));
      case Remove(id, saved) =>
        WithoutFacts(s.jobs, id);
        SavedStaysWellFormed(s0, Without(s.jobs, id), saved && Has(s.jobs, id));
      case RemoveOnDisk(id) => WithoutFacts(s.disk, id);
      case Begin(now) => BeginKeepsWellFormed(s0, now);
      case Boot(loaded) => FoundKnown(s, loaded);
      case Crash => NoDupEmpty();
    }
  }

  lemma NoDupEmpty()
    ensures NoDup([])
  {
  }

  lemma BeginKeepsWellFormed(s: State, now: int)
    requires WellFormed(s) && s.clock == now && s.up && s.queue != [] && s.current == None
    ensures var start := HandlerStart(s.queue[0], now);
            && WellFormed(s.(queue := s.queue[1..]))
            && WellFormed(s.(queue := s.queue[1..], current := Some(start), starts := s.starts + [start]))
    ensures s.queue[0] !in s.queue[1..]
  {
    hide Unique;
    assert s.queue[0] in s.queue;
    forall id | id in s.queue[1..] ensures id in s.queue {
    }
  }
}
