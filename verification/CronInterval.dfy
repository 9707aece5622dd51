/** Successive starts of an interval job keep their distance over all interleavings. */
module CronInterval {
  import opened Common
  import opened Cron
  import opened CronOneShot
  import opened CronRuns

  ghost predicate SpacedBy(starts: seq<HandlerStart>, id: string, ms: int) {
    forall i, k :: 0 <= i < k < |starts| && starts[i].id == id && starts[k].id == id ==> starts[k].at - starts[i].at >= ms
  }

  /** `t` is at least `ms` after every start so far. */
  ghost predicate Clear(starts: seq<HandlerStart>, id: string, ms: int, t: int) {
    forall st <- starts :: st.id == id ==> t >= st.at + ms
  }

  ghost predicate NextIsClear(starts: seq<HandlerStart>, l: seq<Job>, id: string, ms: int) {
    forall j <- l :: j.id == id && j.enabled && j.nextRun.Some? ==> Clear(starts, id, ms, j.nextRun.value)
  }

  /** While the job is not being dealt with, its next run is clear of every start, in memory and on
      file; while it is, finishing or removing it will put the file right. */
  ghost predicate EveryInv(s: State, id: string, ms: int) {
    && SpacedBy(s.starts, id, ms)
    && (s.up && !Busy(s, id) ==> NextIsClear(s.starts, s.jobs, id, ms) && NextIsClear(s.starts, s.disk, id, ms))
    && (id in s.queue ==> Clear(s.starts, id, ms, s.clock) && !(s.current.Some? && s.current.value.id == id))
    && (s.up && Busy(s, id) && Has(s.disk, id) ==> Has(s.jobs, id))
  }

  /** Every timed action happens early enough for the sum with `ms` not to wrap around. */
  predicate NoWrap(a: Action, ms: int) {
    Timed(a) ==> 0 <= a.now && a.now + ms < TWO63
  }

  lemma NextAfter(now: int, ms: int, ticks: Ticks)
    requires 0 < ms && 0 <= now && now + ms < TWO63
    ensures ComputeNextRun(Every(Some(ms)), now, ticks) == Some(now + ms)
  {
  }

  lemma ClearLater(s: State, id: string, ms: int, now: int)
    requires WellFormed(s) && s.clock <= now
    ensures Clear(s.starts, id, ms, now + ms)
  {
    hide Unique, NoDup;
  }

  /** A list recast from one whose next runs are clear has clear next runs. */
  lemma RecastStaysClear(s: State, l': seq<Job>, l: seq<Job>, id: string, now: int, ms: int, ticks: Ticks)
    requires Recast(l', l, id, now, ticks) && NextIsClear(s.starts, l, id, ms)
    requires forall j <- l :: j.id == id ==> j.schedule == Every(Some(ms))
    requires ComputeNextRun(Every(Some(ms)), now, ticks) == None
             || (ComputeNextRun(Every(Some(ms)), now, ticks) == Some(now + ms) && Clear(s.starts, id, ms, now + ms))
    ensures NextIsClear(s.starts, l', id, ms)
  {
    hide ComputeNextRun, Clear;
  }

  /** A list in which each enabled job was just recomputed has clear next runs. */
  lemma RecomputedIsClear(s: State, found: seq<Job>, id: string, now: int, ms: int, ticks: Ticks)
    requires KnownJobs(s, found) && id in s.born && s.born[id] == Every(Some(ms))
    requires ComputeNextRun(Every(Some(ms)), now, ticks) == Some(now + ms) && Clear(s.starts, id, ms, now + ms)
    ensures NextIsClear(s.starts, Recomputed(found, now, ticks), id, ms)
  {
    hide ComputeNextRun, Clear, Recomputed;
    RecomputedFacts(found, now, ticks);
  }

  lemma FinishedIsClear(s: State, start: int, ok: bool, id: string, now: int, ms: int, ticks: Ticks)
    requires WellFormed(s) && id in s.born && s.born[id] == Every(Some(ms))
    requires ComputeNextRun(Every(Some(ms)), now, ticks) == Some(now + ms) && Clear(s.starts, id, ms, now + ms)
    ensures NextIsClear(s.starts, Finished(s.jobs, id, start, ok, now, ticks), id, ms)
  {
    hide ComputeNextRun, Clear, Finished, Unique, NoDup;
    FinishedFacts(s.jobs, id, start, ok, now, ticks);
  }

  lemma EmptyIsClear(starts: seq<HandlerStart>, id: string, ms: int)
    ensures NextIsClear(starts, [], id, ms)
  {
  }

  lemma NotThereIsClear(starts: seq<HandlerStart>, l: seq<Job>, id: string, ms: int)
    requires !Has(l, id)
    ensures NextIsClear(starts, l, id, ms)
  {
    FindIs(l, id);
  }

  lemma StepKeepsEvery(s: State, a: Action, id: string, ms: int, ticks: Ticks)
    requires WellFormed(s) && Possible(s, a) && NoWrap(a, ms) && 0 < ms && (a.Finish? || a.Remove? ==> a.saved)
    requires id in s.born && s.born[id] == Every(Some(ms)) && EveryInv(s, id, ms)
    ensures EveryInv(Step(s, a, ticks), id, ms)
  {
    hide WellFormed, EveryInv, Step;
    match a {
      case Begin(now) => BeginKeepsEvery(s, now, id, ms, ticks);
      case Tick(now, loaded, saved) => TickKeepsEvery(s, now, loaded, saved, id, ms, ticks);
      case StartLoop(now, loaded, saved) => StartKeepsEvery(s, now, loaded, saved, id, ms, ticks);
      case Boot(loaded) => RestartKeepsEvery(s, a, id, ms, ticks);
      case Crash => RestartKeepsEvery(s, a, id, ms, ticks);
      case _ => CallKeepsEvery(s, a, id, ms, ticks);
    }
  }

  lemma RestartKeepsEvery(s: State, a: Action, id: string, ms: int, ticks: Ticks)
    requires Possible(s, a) && (a.Boot? || a.Crash?) && EveryInv(s, id, ms)
    ensures EveryInv(Step(s, a, ticks), id, ms)
  {
    hide NextIsClear, Clear, Find;
  }

  lemma StartKeepsEvery(s: State, now: int, loaded: bool, saved: bool, id: string, ms: int, ticks: Ticks)
    requires WellFormed(s) && Possible(s, StartLoop(now, loaded, saved)) && NoWrap(StartLoop(now, loaded, saved), ms) && 0 < ms
    requires id in s.born && s.born[id] == Every(Some(ms)) && EveryInv(s, id, ms)
    ensures EveryInv(Step(s, StartLoop(now, loaded, saved), ticks), id, ms)
  {
    hide ComputeNextRun, Recomputed, NextIsClear, Clear, Find, Unique, NoDup, SpacedBy;
    NextAfter(now, ms, ticks);
    ClearLater(s, id, ms, now);
    FoundKnown(s, loaded);
    RecomputedIsClear(s, Found(s, loaded), id, now, ms, ticks);
  }

  lemma TickKeepsEvery(s: State, now: int, loaded: bool, saved: bool, id: string, ms: int, ticks: Ticks)
    requires WellFormed(s) && Possible(s, Tick(now, loaded, saved)) && NoWrap(Tick(now, loaded, saved), ms) && 0 < ms
    requires id in s.born && s.born[id] == Every(Some(ms)) && EveryInv(s, id, ms)
    ensures EveryInv(Step(s, Tick(now, loaded, saved), ticks), id, ms)
  {
    hide WellFormed, ComputeNextRun, DueIDs, ClearNext, Recast, NextIsClear, Clear, Find, SpacedBy;
    var found := Found(s, loaded);
    EmptyIsClear(s.starts, id, ms);
    FoundKnown(s, loaded);
    NextAfter(now, ms, ticks);
    ClearLater(s, id, ms, now);
    JobsAreRecast(s, Tick(now, loaded, saved), id, ticks);
    RecastStaysClear(s, ClearNext(found, DueIDs(found, now)), found, id, now, ms, ticks);
    CollectedIsClear(s, found, now, id, ms);
  }

  lemma CollectedIsClear(s: State, found: seq<Job>, now: int, id: string, ms: int)
    requires NextIsClear(s.starts, found, id, ms)
    ensures var due := DueIDs(found, now);
            && (id in due ==> Clear(s.starts, id, ms, now) && Has(found, id))
            && (Has(found, id) ==> Has(ClearNext(found, due), id))
  {
    hide DueIDs, ClearNext, Find;
    var due := DueIDs(found, now);
    DueFacts(found, now);
    FindIs(found, id);
    FindIs(ClearNext(found, due), id);
    ClearKeeps(found, due, id);
    if id in due {
      assert DueIn(found, now, id);
      var j :| j in found && j.id == id && Due(j, now);
    }
  }

  lemma BeginKeepsEvery(s: State, now: int, id: string, ms: int, ticks: Ticks)
    requires WellFormed(s) && Possible(s, Begin(now)) && EveryInv(s, id, ms)
    ensures EveryInv(Step(s, Begin(now), ticks), id, ms)
  {
    hide Find, Unique, NextIsClear;
    BeginKeepsWellFormed(s.(clock := now), now);
    var s' := Step(s, Begin(now), ticks);
    var start := HandlerStart(s.queue[0], now);
    assert s.queue == [s.queue[0]] + s.queue[1..];
    forall i | 0 <= i < |s.starts| && s.starts[i].id == id && start.id == id ensures start.at - s.starts[i].at >= ms {
      assert s.starts[i] in s.starts;
    }
    assert forall st :: st in s'.starts ==> st in s.starts || st == start;
    if !Busy(s', id) && Busy(s, id) {
      NotThereIsClear(s'.starts, s.disk, id, ms);
      NotThereIsClear(s'.starts, s.jobs, id, ms);
    } else if !Busy(s', id) {
      OtherStart(s, start, id, ms);
    }
  }

  /** The start of another job leaves next runs clear. */
  lemma OtherStart(s: State, start: HandlerStart, id: string, ms: int)
    requires start.id != id
    ensures forall l :: NextIsClear(s.starts, l, id, ms) ==> NextIsClear(s.starts + [start], l, id, ms)
  {
    assert forall st :: st in s.starts + [start] ==> st in s.starts || st == start;
  }

  /** Finishing, API calls, and removal by others. */
  lemma CallKeepsEvery(s: State, a: Action, id: string, ms: int, ticks: Ticks)
    requires WellFormed(s) && Possible(s, a) && NoWrap(a, ms) && 0 < ms && (a.Finish? || a.Remove? ==> a.saved)
    requires id in s.born && s.born[id] == Every(Some(ms)) && EveryInv(s, id, ms)
    requires a.Finish? || a.Add? || a.Enable? || a.Remove? || a.RemoveOnDisk?
    ensures EveryInv(Step(s, a, ticks), id, ms)
  {
    hide WellFormed, NextIsClear, Clear, Step, Find, SpacedBy;
    var s' := Step(s, a, ticks);
    QuietStep(s, a, ticks);
    HeldInMemory(s, a, id, ticks);
    DiskAfter(s, a, ticks);
    if id in s'.queue {
      ClearStays(s.starts, id, ms, s.clock, s'.clock);
    }
    if s.up && !Busy(s', id) {
      MemoryIsClear(s, a, id, ms, ticks);
      if s'.disk != s'.jobs {
        if Busy(s, id) {
          NotThereIsClear(s.starts, s'.disk, id, ms);
        } else if a.RemoveOnDisk? {
          FewerIsClear(s.starts, s.disk, a.id, id, ms);
        }
      }
    }
  }

  lemma ClearStays(starts: seq<HandlerStart>, id: string, ms: int, t: int, t': int)
    requires Clear(starts, id, ms, t) && t <= t'
    ensures Clear(starts, id, ms, t')
  {
  }

  lemma FewerIsClear(starts: seq<HandlerStart>, l: seq<Job>, x: string, id: string, ms: int)
    requires NextIsClear(starts, l, id, ms)
    ensures NextIsClear(starts, Without(l, x), id, ms)
  {
    hide Without, Clear;
    WithoutFacts(l, x);
  }

  lemma MemoryIsClear(s: State, a: Action, id: string, ms: int, ticks: Ticks)
    requires WellFormed(s) && Possible(s, a) && NoWrap(a, ms) && 0 < ms
    requires id in s.born && s.born[id] == Every(Some(ms))
    requires a.Finish? || a.Add? || a.Enable? || a.Remove? || a.RemoveOnDisk?
    requires (a.Finish? && s.current.value.id == id) || NextIsClear(s.starts, s.jobs, id, ms)
    ensures NextIsClear(s.starts, Step(s, a, ticks).jobs, id, ms)
  {
    hide ComputeNextRun, Finished, WithEnabled, Recast, NextIsClear, Clear, Find, Unique, NoDup;
    if Timed(a) {
      NextAfter(a.now, ms, ticks);
      ClearLater(s, id, ms, a.now);
    }
    if a.Finish? && s.current.value.id == id {
      FinishedIsClear(s, s.current.value.at, a.ok, id, a.now, ms, ticks);
    } else {
      JobsAreRecast(s, a, id, ticks);
      if Timed(a) {
        RecastStaysClear(s, Step(s, a, ticks).jobs, s.jobs, id, a.now, ms, ticks);
      } else if a.Remove? {
        FewerIsClear(s.starts, s.jobs, a.id, id, ms);
      }
    }
  }

  // ---------------------------------------------------------------- whole runs

  ghost predicate EveryFine(s: State, id: string, ms: int) {
    id in s.born ==> s.born[id] == Every(Some(ms)) && EveryInv(s, id, ms)
  }

  lemma NewEveryJob(s: State, a: Action, ms: int, ticks: Ticks)
    requires WellFormed(s) && a.Add? && Possible(s, a)
    ensures EveryInv(Step(s, a, ticks), a.id, ms)
  {
    hide Unique, NoDup, NewJob, Find;
    forall i | 0 <= i < |s.starts| ensures s.starts[i].id != a.id {
      assert s.starts[i] in s.starts;
    }
  }

  /** The id, when given, is given to a job with this interval. */
  predicate Gives(a: Action, id: string, ms: int) { a.Add? && a.id == id ==> a.schedule == Every(Some(ms)) }

  lemma {:induction false} RunKeepsEvery(s: State, actions: seq<Action>, ticks: Ticks, id: string, ms: int)
    requires WellFormed(s) && EveryFine(s, id, ms) && 0 < ms
    requires forall a <- actions :: NoWrap(a, ms) && Gives(a, id, ms) && (a.Finish? || a.Remove? ==> a.saved)
    ensures EveryFine(Run(s, actions, ticks), id, ms)
    decreases |actions|
  {
    hide WellFormed, EveryInv, Step, Possible;
    if actions != [] {
      var a := actions[0];
      assert a in actions;
      if Possible(s, a) {
        StepKeepsWellFormed(s, a, ticks);
        BornGrows(s, a, ticks);
        if id in s.born {
          StepKeepsEvery(s, a, id, ms, ticks);
        } else if a.Add? && a.id == id {
          NewEveryJob(s, a, ms, ticks);
        }
        RunKeepsEvery(Step(s, a, ticks), actions[1..], ticks, id, ms);
      } else {
        RunKeepsEvery(s, actions[1..], ticks, id, ms);
      }
    }
  }

  lemma InitialIsSpaced(s: State, id: string, ms: int)
    requires Initial(s) && (id in s.born ==> s.born[id] == Every(Some(ms)))
    ensures WellFormed(s) && EveryFine(s, id, ms)
  {
  }

  /** Successive starts are at least the interval apart, across ticks, enabling, removal, crash and
      restart, when finishing and removing save and no sum wraps around. */
  lemma IntervalIsKept(s: State, actions: seq<Action>, ticks: Ticks, id: string, ms: int)
    requires Initial(s) && 0 < ms && (id in s.born ==> s.born[id] == Every(Some(ms)))
    requires forall a <- actions :: NoWrap(a, ms) && Gives(a, id, ms) && (a.Finish? || a.Remove? ==> a.saved)
    ensures id in Run(s, actions, ticks).born ==> SpacedBy(Run(s, actions, ticks).starts, id, ms)
  {
    hide Run;
    InitialIsSpaced(s, id, ms);
    RunKeepsEvery(s, actions, ticks, id, ms);
  }

  /** The next run of an interval lies the interval ahead exactly when the 64-bit sum does not wrap. */
  lemma NextRunAheadIffNoWrap(now: int, ms: int, ticks: Ticks)
    requires 0 <= now < TWO63 && 0 < ms < TWO63
    ensures var next := ComputeNextRun(Every(Some(ms)), now, ticks);
            && next.Some? && (next.value == now + ms <==> now + ms < TWO63)
            && (next.value > now <==> now + ms < TWO63)
  {
  }
}
