/** One-shot jobs start at most once over all interleavings, under exactly which saves. */
module CronOneShot {
  import opened Common
  import opened Cron
  import opened CronRuns

  ghost predicate StartedBy(s: State, id: string) {
    exists st <- s.starts :: st.id == id
  }

  ghost predicate Touched(s: State, id: string) { id in s.queue || StartedBy(s, id) }

  /** Collected and not yet finished with. */
  predicate Busy(s: State, id: string) { id in s.queue || (s.current.Some? && s.current.value.id == id) }

  ghost predicate OnceIn(starts: seq<HandlerStart>, id: string) {
    forall i, k :: 0 <= i < k < |starts| ==> !(starts[i].id == id && starts[k].id == id)
  }

  /** Jobs of this id wait for their own time, or for nothing once they have been taken up. */
  ghost predicate ListOk(l: seq<Job>, id: string, at: Option<int>, touched: bool) {
    forall j <- l :: j.id == id && j.nextRun.Some? ==> !touched && j.nextRun == at
  }

  /** Jobs of this id wait for their own time; once taken up such a job can only be an old copy of it, enabled. */
  ghost predicate ListStale(l: seq<Job>, id: string, at: Option<int>, touched: bool) {
    forall j <- l :: j.id == id && j.nextRun.Some? ==> j.nextRun == at && (touched ==> j.enabled)
  }

  /** The job was started at most once, not before its time, and not while it still waits in the queue. */
  ghost predicate Begun(s: State, id: string, at: Option<int>) {
    && OnceIn(s.starts, id)
    && (StartedBy(s, id) ==> id !in s.queue)
    && (Touched(s, id) ==> at.Some? && at.value <= s.clock)
    && forall st <- s.starts :: st.id == id ==> at.Some? && at.value <= st.at
  }

  /** The invariant when ticks save: no list offers a job that has been taken up. */
  ghost predicate StrictInv(s: State, id: string, at: Option<int>) {
    Begun(s, id, at) && ListOk(s.disk, id, at, Touched(s, id)) && ListOk(s.jobs, id, at, Touched(s, id))
  }

  /** The invariant when finishing and removing save: the file may offer the job while it is being
      dealt with, but then finishing or removing it will put that right. */
  ghost predicate LaxInv(s: State, id: string, at: Option<int>) {
    && Begun(s, id, at)
    && ListStale(s.disk, id, at, Touched(s, id)) && ListStale(s.jobs, id, at, Touched(s, id))
    && (s.up ==> ListOk(s.jobs, id, at, Touched(s, id)))
    && (s.up && !Busy(s, id) ==> ListOk(s.disk, id, at, Touched(s, id)))
    && (s.up && Busy(s, id) && Has(s.disk, id) ==> Has(s.jobs, id))
  }

  // ---------------------------------------------------------------- what an action does to the lists

  ghost predicate Comes(j': Job, j: Job, now: int, ticks: Ticks) {
    && j.id == j'.id && j.schedule == j'.schedule
    && ((j'.nextRun == j.nextRun && j'.enabled == j.enabled) || j'.nextRun == None || j'.nextRun == ComputeNextRun(j.schedule, now, ticks))
  }

  /** A list whose jobs of this id come from `l`, with their next run kept, cleared or recomputed. */
  ghost predicate Recast(l': seq<Job>, l: seq<Job>, id: string, now: int, ticks: Ticks) {
    forall j' <- l' :: j'.id == id ==> exists j <- l :: j.id == id && Comes(j', j, now, ticks)
  }

  lemma RecastStaysOk(l': seq<Job>, l: seq<Job>, id: string, now: int, ticks: Ticks, at: Option<int>, touched: bool)
    requires Recast(l', l, id, now, ticks)
    requires forall j <- l :: j.id == id ==> j.schedule == AtTime(at)
    requires touched ==> at.Some? && at.value <= now
    ensures ListOk(l, id, at, touched) ==> ListOk(l', id, at, touched)
    ensures ListStale(l, id, at, touched) ==> ListStale(l', id, at, touched)
  {
  }

  function NowOf(s: State, a: Action): int { if Timed(a) then a.now else s.clock }

  /** The list an action works on: what it reads from the file, or what is in memory. */
  function Source(s: State, a: Action): seq<Job> {
    match a
    case Boot(loaded) => Found(s, loaded)
    case StartLoop(_, loaded, _) => Found(s, loaded)
    case Tick(_, loaded, _) => Found(s, loaded)
    case _ => s.jobs
  }

  lemma JobsAreRecast(s: State, a: Action, id: string, ticks: Ticks)
    requires WellFormed(s) && Possible(s, a) && id in s.born
    ensures Recast(Step(s, a, ticks).jobs, Source(s, a), id, NowOf(s, a), ticks)
  {
    hide ComputeNextRun, Finished, WithEnabled, Recomputed, ClearNext, DueIDs, Without, Find, Unique, NoDup;
    match a {
      case StartLoop(now, loaded, _) => RecomputedFacts(Found(s, loaded), now, ticks);
      case Tick(now, loaded, _) => ClearFacts(Found(s, loaded), DueIDs(Found(s, loaded), now));
      case Finish(now, ok, _) => FinishedRecast(s, now, ok, id, ticks);
      case Enable(x, enabled, now, _) => EnabledFacts(s.jobs, x, enabled, now, ticks);
      case Add(x, schedule, now, _) =>
        var job := NewJob(x, schedule, now, ticks);
        assert forall j :: j in s.jobs + [job] <==> j in s.jobs || j == job;
      case Remove(x, _) => WithoutFacts(s.jobs, x);
      case _ =>
    }
  }

  lemma FinishedRecast(s: State, now: int, ok: bool, id: string, ticks: Ticks)
    requires WellFormed(s) && s.current.Some?
    ensures Recast(Finished(s.jobs, s.current.value.id, s.current.value.at, ok, now, ticks), s.jobs, id, now, ticks)
  {
    hide ComputeNextRun, Finished, Unique;
    FinishedFacts(s.jobs, s.current.value.id, s.current.value.at, ok, now, ticks);
  }

  /** The file keeps what it holds, loses one job, or becomes the list in memory. */
  lemma DiskAfter(s: State, a: Action, ticks: Ticks)
    requires Possible(s, a)
    ensures var s' := Step(s, a, ticks);
            || s'.disk == s'.jobs || s'.disk == s.disk
            || (a.RemoveOnDisk? && s'.disk == Without(s.disk, a.id) && s'.jobs == s.jobs)
  {
    hide Finished, WithEnabled, Recomputed, ClearNext, DueIDs, Without, Find;
  }

  /** What a step writes still waits for its own time, as far as what it works on does. */
  lemma ListsStayOk(s: State, a: Action, id: string, at: Option<int>, ticks: Ticks)
    requires WellFormed(s) && Possible(s, a) && id in s.born && s.born[id] == AtTime(at) && Begun(s, id, at)
    ensures var s' := Step(s, a, ticks);
            && (ListOk(Source(s, a), id, at, Touched(s, id)) ==> ListOk(s'.jobs, id, at, Touched(s, id)))
            && (ListStale(Source(s, a), id, at, Touched(s, id)) ==> ListStale(s'.jobs, id, at, Touched(s, id)))
            && (ListOk(s.disk, id, at, Touched(s, id)) ==> s'.disk == s'.jobs || ListOk(s'.disk, id, at, Touched(s, id)))
            && (ListStale(s.disk, id, at, Touched(s, id)) ==> s'.disk == s'.jobs || ListStale(s'.disk, id, at, Touched(s, id)))
  {
    hide Step, Recast, ComputeNextRun, Unique, NoDup, Without;
    JobsAreRecast(s, a, id, ticks);
    assert forall j <- Source(s, a) :: j.id == id ==> j.schedule == AtTime(at);
    RecastStaysOk(Step(s, a, ticks).jobs, Source(s, a), id, NowOf(s, a), ticks, at, Touched(s, id));
    DiskAfter(s, a, ticks);
    if a.RemoveOnDisk? {
      WithoutFacts(s.disk, a.id);
    }
  }

  /** Steps that neither collect nor begin change nothing but the lists and the clock. */
  lemma QuietStep(s: State, a: Action, ticks: Ticks)
    requires Possible(s, a) && !a.Tick? && !a.Begin?
    ensures var s' := Step(s, a, ticks);
            && s'.starts == s.starts && s.clock <= s'.clock && s'.queue == (if a.Crash? then [] else s.queue)
            && s'.current == (if a.Crash? || a.Finish? then None else s.current)
            && s'.up == (if a.StartLoop? then a.loaded && a.saved else if a.Boot? || a.Crash? then false else s.up)
  {
    hide Finished, WithEnabled, Recomputed, ClearNext, DueIDs, Without, Find;
  }

  // ---------------------------------------------------------------- ticks and handlers

  /** Who is collected by a tick, and that the collected job is cleared. */
  lemma TickTouches(s: State, found: seq<Job>, now: int, id: string, at: Option<int>)
    requires KnownJobs(s, found) && id in s.born && s.born[id] == AtTime(at)
    requires ListOk(found, id, at, Touched(s, id))
    ensures var due := DueIDs(found, now);
            && (id in due ==> !StartedBy(s, id) && at.Some? && at.value <= now && Has(found, id))
            && (id in due ==> ListOk(ClearNext(found, due), id, at, true) && ListStale(found, id, at, true))
            && (Has(found, id) ==> Has(ClearNext(found, due), id))
  {
    hide DueIDs, ClearNext, NoDup, Find;
    var due := DueIDs(found, now);
    DueFacts(found, now);
    ClearFacts(found, due);
    FindIs(found, id);
    FindIs(ClearNext(found, due), id);
    ClearKeeps(found, due, id);
    if id in due {
      assert DueIn(found, now, id);
      var j :| j in found && j.id == id && Due(j, now);
      forall j' | j' in found && j'.id == id ensures j' == j {
        UniqueMembers(found, j, j');
      }
    }
  }

  lemma ClearKeeps(jobs: seq<Job>, ids: seq<string>, id: string)
    ensures (exists j <- jobs :: j.id == id) <==> exists j <- ClearNext(jobs, ids) :: j.id == id
  {
    var l := ClearNext(jobs, ids);
    if exists j <- jobs :: j.id == id {
      var j :| j in jobs && j.id == id;
      var k :| 0 <= k < |jobs| && jobs[k] == j;
      assert l[k] in l && l[k].id == id;
    }
    if exists j <- l :: j.id == id {
      var j :| j in l && j.id == id;
      var k :| 0 <= k < |l| && l[k] == j;
      assert jobs[k] in jobs;
    }
  }

  lemma BeginKeepsBegun(s: State, now: int, id: string, at: Option<int>, ticks: Ticks)
    requires WellFormed(s) && Possible(s, Begin(now)) && Begun(s, id, at)
    ensures var s' := Step(s, Begin(now), ticks);
            Begun(s', id, at) && (Touched(s', id) ==> Touched(s, id)) && (Touched(s, id) && !Touched(s', id) ==> !Has(s.jobs, id))
  {
    hide Find, Unique;
    var s' := Step(s, Begin(now), ticks);
    BeginKeepsWellFormed(s.(clock := now), now);
    assert s.queue[0] in s.queue;
    assert forall x :: x in s.queue[1..] ==> x in s.queue;
    forall i | 0 <= i < |s.starts| ensures s.starts[i] in s.starts {
    }
    assert forall st :: st in s'.starts <==> st in s.starts || (Has(s.jobs, s.queue[0]) && st == HandlerStart(s.queue[0], now));
    assert forall x :: x in s.queue ==> x in s'.queue || x == s.queue[0];
  }

  lemma NotThere(l: seq<Job>, id: string, at: Option<int>, touched: bool)
    requires !Has(l, id)
    ensures ListOk(l, id, at, touched) && ListStale(l, id, at, touched)
  {
    FindIs(l, id);
  }

  // ---------------------------------------------------------------- ticks that save

  lemma StepKeepsStrict(s: State, a: Action, id: string, at: Option<int>, ticks: Ticks)
    requires WellFormed(s) && Possible(s, a) && id in s.born && s.born[id] == AtTime(at)
    requires StrictInv(s, id, at) && (a.Tick? ==> a.saved)
    ensures StrictInv(Step(s, a, ticks), id, at)
  {
    hide WellFormed, ListOk, ListStale, DueIDs, ClearNext, Find;
    if a.Begin? {
      BeginKeepsStrict(s, a.now, id, at, ticks);
    } else {
      FoundOk(s, a, id, at);
      ListsStayOk(s, a, id, at, ticks);
      if a.Tick? {
        FoundKnown(s, a.loaded);
        TickTouches(s, Found(s, a.loaded), a.now, id, at);
      } else {
        hide Step;
        QuietStep(s, a, ticks);
        TouchedLess(s, Step(s, a, ticks), id, at);
      }
    }
  }

  lemma FoundOk(s: State, a: Action, id: string, at: Option<int>)
    requires ListOk(s.disk, id, at, Touched(s, id)) && ListOk(s.jobs, id, at, Touched(s, id))
    ensures ListOk(Source(s, a), id, at, Touched(s, id))
  {
  }

  /** Taken up no longer: the lists may offer the job again. */
  lemma TouchedLess(s: State, s': State, id: string, at: Option<int>)
    requires Touched(s', id) ==> Touched(s, id)
    ensures forall l :: ListOk(l, id, at, Touched(s, id)) ==> ListOk(l, id, at, Touched(s', id))
    ensures forall l :: ListStale(l, id, at, Touched(s, id)) ==> ListStale(l, id, at, Touched(s', id))
  {
  }

  lemma BeginKeepsStrict(s: State, now: int, id: string, at: Option<int>, ticks: Ticks)
    requires WellFormed(s) && Possible(s, Begin(now)) && StrictInv(s, id, at)
    ensures StrictInv(Step(s, Begin(now), ticks), id, at)
  {
    hide WellFormed, Begun, Touched, ListOk, Find;
    BeginKeepsBegun(s, now, id, at, ticks);
    TouchedLess(s, Step(s, Begin(now), ticks), id, at);
  }

  // ---------------------------------------------------------------- finishing and removing that save

  lemma StepKeepsLax(s: State, a: Action, id: string, at: Option<int>, ticks: Ticks)
    requires WellFormed(s) && Possible(s, a) && id in s.born && s.born[id] == AtTime(at)
    requires LaxInv(s, id, at) && (a.Finish? || a.Remove? ==> a.saved)
    ensures LaxInv(Step(s, a, ticks), id, at)
  {
    hide WellFormed, Begun, ListOk, ListStale, Step, Find;
    match a {
      case Begin(now) => BeginKeepsLax(s, now, id, at, ticks);
      case Tick(now, loaded, saved) => TickKeepsLax(s, now, loaded, saved, id, at, ticks);
      case StartLoop(now, loaded, saved) => StartKeepsLax(s, now, loaded, saved, id, at, ticks);
      case Boot(loaded) => RestartKeepsLax(s, a, id, at, ticks);
      case Crash => RestartKeepsLax(s, a, id, at, ticks);
      case _ => CallKeepsLax(s, a, id, at, ticks);
    }
  }

  lemma BeginKeepsLax(s: State, now: int, id: string, at: Option<int>, ticks: Ticks)
    requires WellFormed(s) && Possible(s, Begin(now)) && LaxInv(s, id, at)
    ensures LaxInv(Step(s, Begin(now), ticks), id, at)
  {
    hide Unique, Begun, ListOk, ListStale, Find, Touched;
    var s' := Step(s, Begin(now), ticks);
    BeginKeepsBegun(s, now, id, at, ticks);
    TouchedLess(s, s', id, at);
    assert s.queue == [s.queue[0]] + s.queue[1..];
    if Busy(s, id) && !Busy(s', id) {
      assert id == s.queue[0] && !Has(s.disk, id);
      NotThere(s.disk, id, at, Touched(s', id));
    }
  }

  lemma TickKeepsLax(s: State, now: int, loaded: bool, saved: bool, id: string, at: Option<int>, ticks: Ticks)
    requires WellFormed(s) && Possible(s, Tick(now, loaded, saved)) && id in s.born && s.born[id] == AtTime(at) && LaxInv(s, id, at)
    ensures LaxInv(Step(s, Tick(now, loaded, saved), ticks), id, at)
  {
    hide WellFormed, ListOk, ListStale, DueIDs, ClearNext, Find;
    var a := Tick(now, loaded, saved);
    var found := Found(s, loaded);
    EmptyOk(id, at, Touched(s, id));
    FoundKnown(s, loaded);
    TickTouches(s, found, now, id, at);
    ListsStayOk(s, a, id, at, ticks);
    OkIsStale(id, at);
  }

  lemma EmptyOk(id: string, at: Option<int>, touched: bool)
    ensures ListOk([], id, at, touched) && ListStale([], id, at, touched)
  {
  }

  lemma OkIsStale(id: string, at: Option<int>)
    ensures forall l, touched :: ListOk(l, id, at, touched) ==> ListStale(l, id, at, touched)
  {
  }

  /** Starting the loop recomputes every enabled job, so an old copy waits for nothing. */
  lemma StartKeepsLax(s: State, now: int, loaded: bool, saved: bool, id: string, at: Option<int>, ticks: Ticks)
    requires WellFormed(s) && Possible(s, StartLoop(now, loaded, saved)) && id in s.born && s.born[id] == AtTime(at)
    requires LaxInv(s, id, at)
    ensures LaxInv(Step(s, StartLoop(now, loaded, saved), ticks), id, at)
  {
    hide NoDup, Find, Recomputed;
    EmptyOk(id, at, Touched(s, id));
    var found := Found(s, loaded);
    RecomputedFacts(found, now, ticks);
    RecomputedOk(found, Recomputed(found, now, ticks), id, at, now, Touched(s, id), ticks);
    hide ListOk, ListStale;
    OkIsStale(id, at);
  }

  lemma RecomputedOk(l: seq<Job>, l': seq<Job>, id: string, at: Option<int>, now: int, touched: bool, ticks: Ticks)
    requires forall j' <- l' :: exists j <- l ::
                                  j' == if j.enabled then j.(nextRun := ComputeNextRun(j.schedule, now, ticks)) else j
    requires forall j <- l :: j.id == id ==> j.schedule == AtTime(at)
    requires ListStale(l, id, at, touched) && (touched ==> at.Some? && at.value <= now)
    ensures ListOk(l', id, at, touched)
  {
  }

  lemma RestartKeepsLax(s: State, a: Action, id: string, at: Option<int>, ticks: Ticks)
    requires WellFormed(s) && Possible(s, a) && (a.Boot? || a.Crash?) && LaxInv(s, id, at)
    ensures LaxInv(Step(s, a, ticks), id, at)
  {
    hide WellFormed, ListOk, ListStale, Find;
    EmptyOk(id, at, Touched(s, id));
    TouchedLess(s, Step(s, a, ticks), id, at);
  }

  /** Finishing, API calls, and removal by others. */
  lemma CallKeepsLax(s: State, a: Action, id: string, at: Option<int>, ticks: Ticks)
    requires WellFormed(s) && Possible(s, a) && id in s.born && s.born[id] == AtTime(at)
    requires LaxInv(s, id, at) && (a.Finish? || a.Remove? ==> a.saved)
    requires a.Finish? || a.Add? || a.Enable? || a.Remove? || a.RemoveOnDisk?
    ensures LaxInv(Step(s, a, ticks), id, at)
  {
    hide WellFormed, ListOk, ListStale, Step, Find;
    var s' := Step(s, a, ticks);
    QuietStep(s, a, ticks);
    ListsStayOk(s, a, id, at, ticks);
    OkIsStale(id, at);
    HeldInMemory(s, a, id, ticks);
    if s.up && Busy(s, id) && !Busy(s', id) && s'.disk != s'.jobs {
      NotThere(s'.disk, id, at, Touched(s', id));
    }
  }

  /** Unless the file is rewritten, a job that memory has stays there; and the call that ends
      with a job rewrites the file if memory has it. */
  lemma HeldInMemory(s: State, a: Action, id: string, ticks: Ticks)
    requires WellFormed(s) && Possible(s, a) && (a.Finish? || a.Remove? ==> a.saved)
    requires a.Finish? || a.Add? || a.Enable? || a.Remove? || a.RemoveOnDisk?
    ensures var s' := Step(s, a, ticks);
            s'.disk != s'.jobs ==>
              && (Has(s.jobs, id) ==> Has(s'.jobs, id)) && (Has(s'.disk, id) ==> Has(s.disk, id))
              && (a.Finish? && s.current.value.id == id ==> !Has(s.jobs, id))
  {
    hide ComputeNextRun, Unique, NoDup, Find, Finished, WithEnabled, Without;
    match a {
      case Finish(now, ok, _) => FinishedAbsent(s.jobs, s.current.value.id, s.current.value.at, ok, now, ticks);
      case Add(x, schedule, now, _) =>
        var job := NewJob(x, schedule, now, ticks);
        FindIs(s.jobs, id);
        FindIs(s.jobs + [job], id);
        assert forall j :: j in s.jobs + [job] <==> j in s.jobs || j == job;
      case Enable(x, enabled, now, _) => EnabledKeeps(s.jobs, x, enabled, now, id, ticks);
      case Remove(x, _) =>
        FindIs(s.jobs, id);
        FindIs(s.jobs, x);
        FindIs(Without(s.jobs, x), id);
        WithoutFacts(s.jobs, x);
      case RemoveOnDisk(x) =>
        FindIs(s.disk, id);
        FindIs(Without(s.disk, x), id);
        WithoutFacts(s.disk, x);
      case _ =>
    }
  }

  lemma FinishedAbsent(jobs: seq<Job>, id: string, start: int, ok: bool, now: int, ticks: Ticks)
    ensures !Has(jobs, id) ==> Finished(jobs, id, start, ok, now, ticks) == jobs
  {
  }

  lemma EnabledKeeps(jobs: seq<Job>, x: string, enabled: bool, now: int, id: string, ticks: Ticks)
    ensures Has(jobs, id) ==> Has(WithEnabled(jobs, x, enabled, now, ticks), id)
  {
    var l, k := WithEnabled(jobs, x, enabled, now, ticks), Find(jobs, id);
    if k < |jobs| {
      assert l[k].id == id && l[k] in l;
    }
    FindIs(l, id);
  }

  // ---------------------------------------------------------------- whole runs

  ghost predicate OneShotFine(s: State, id: string, strict: bool) {
    id in s.born && s.born[id].AtTime? ==>
      if strict then StrictInv(s, id, s.born[id].atMs) else LaxInv(s, id, s.born[id].atMs)
  }

  lemma BornGrows(s: State, a: Action, ticks: Ticks)
    requires Possible(s, a)
    ensures Step(s, a, ticks).born == if a.Add? then s.born[a.id := a.schedule] else s.born
  {
    hide Finished, WithEnabled, Recomputed, ClearNext, DueIDs, Without, Find, NewJob;
  }

  lemma NewAtJob(s: State, id: string, at: Option<int>, now: int, saved: bool, ticks: Ticks)
    requires WellFormed(s) && Possible(s, Add(id, AtTime(at), now, saved))
    ensures var s' := Step(s, Add(id, AtTime(at), now, saved), ticks); StrictInv(s', id, at) && LaxInv(s', id, at)
  {
    hide Unique, NoDup, Find;
    var job := NewJob(id, AtTime(at), now, ticks);
    assert forall j :: j in s.jobs + [job] <==> j in s.jobs || j == job;
  }

  lemma StepKeepsFine(s: State, a: Action, ticks: Ticks, id: string, strict: bool)
    requires WellFormed(s) && OneShotFine(s, id, strict) && Possible(s, a)
    requires if strict then a.Tick? ==> a.saved else a.Finish? || a.Remove? ==> a.saved
    ensures OneShotFine(Step(s, a, ticks), id, strict)
  {
    hide WellFormed, StrictInv, LaxInv, Step;
    BornGrows(s, a, ticks);
    var s' := Step(s, a, ticks);
    if id in s'.born && s'.born[id].AtTime? {
      if a.Add? && a.id == id {
        NewAtJob(s, id, a.schedule.atMs, a.now, a.saved, ticks);
      } else if strict {
        StepKeepsStrict(s, a, id, s.born[id].atMs, ticks);
      } else {
        StepKeepsLax(s, a, id, s.born[id].atMs, ticks);
      }
    }
  }

  lemma {:induction false} RunKeepsFine(s: State, actions: seq<Action>, ticks: Ticks, id: string, strict: bool)
    requires WellFormed(s) && OneShotFine(s, id, strict)
    requires forall a <- actions :: if strict then a.Tick? ==> a.saved else a.Finish? || a.Remove? ==> a.saved
    ensures OneShotFine(Run(s, actions, ticks), id, strict)
    decreases |actions|
  {
    hide WellFormed, OneShotFine, Step, Possible;
    if actions != [] {
      var a := actions[0];
      assert a in actions;
      if Possible(s, a) {
        StepKeepsWellFormed(s, a, ticks);
        StepKeepsFine(s, a, ticks, id, strict);
        RunKeepsFine(Step(s, a, ticks), actions[1..], ticks, id, strict);
      } else {
        RunKeepsFine(s, actions[1..], ticks, id, strict);
      }
    }
  }

  lemma InitialIsFine(s: State, id: string, strict: bool)
    requires Initial(s)
    ensures WellFormed(s) && OneShotFine(s, id, strict)
  {
  }

  /** The handler of a one-shot job started at most once, and not before its time. */
  ghost predicate RanOnce(s: State, id: string) {
    id in s.born && s.born[id].AtTime? ==>
      && OnceIn(s.starts, id)
      && forall st <- s.starts :: st.id == id ==> s.born[id].atMs.Some? && s.born[id].atMs.value <= st.at
  }

  /** Over all interleavings in which ticks save, or in which finishing and removing save. */
  lemma OneShotRunsAtMostOnce(s: State, actions: seq<Action>, ticks: Ticks, id: string)
    requires Initial(s)
    requires (forall a <- actions :: a.Tick? ==> a.saved) || (forall a <- actions :: a.Finish? || a.Remove? ==> a.saved)
    ensures RanOnce(Run(s, actions, ticks), id)
  {
    hide Run;
    var strict := forall a <- actions :: a.Tick? ==> a.saved;
    InitialIsFine(s, id, strict);
    RunKeepsFine(s, actions, ticks, id, strict);
  }
}
