/** Which saves of the store file the scheduler's promises rest on: exactly. */
module CronPolicy {
  import opened Common
  import opened Cron
  import opened CronInterval
  import opened CronOneShot
  import opened CronRuns

  datatype SaveKind = StartSave | TickSave | FinishSave | AddSave | EnableSave | RemoveSave

  /** The save an action attempts did not go through. */
  predicate Loses(a: Action, kind: SaveKind) {
    match a
    case StartLoop(_, _, saved) => kind == StartSave && !saved
    case Tick(_, _, saved) => kind == TickSave && !saved
    case Finish(_, _, saved) => kind == FinishSave && !saved
    case Add(_, _, _, saved) => kind == AddSave && !saved
    case Enable(_, _, _, saved) => kind == EnableSave && !saved
    case Remove(_, saved) => kind == RemoveSave && !saved
    case _ => false
  }

  /** Saves of the kinds in `kept` always go through; the others may be lost. */
  ghost predicate Obeys(actions: seq<Action>, kept: set<SaveKind>) {
    forall a <- actions, kind <- kept :: !Loses(a, kind)
  }

  /** Every run under this policy starts every one-shot job at most once. */
  ghost predicate NeverTwice(kept: set<SaveKind>, ticks: Ticks) {
    forall s, actions, id :: Initial(s) && Obeys(actions, kept) ==> RanOnce(Run(s, actions, ticks), id)
  }

  ghost predicate IntervalRun(s: State, actions: seq<Action>, id: string, ms: int) {
    && Initial(s) && 0 < ms && (id in s.born ==> s.born[id] == Every(Some(ms)))
    && forall a <- actions :: NoWrap(a, ms) && Gives(a, id, ms)
  }

  ghost predicate Spaced(s: State, id: string, ms: int) { id in s.born ==> SpacedBy(s.starts, id, ms) }

  /** Every run under this policy, without wrap-around, keeps every interval. */
  ghost predicate KeepsIntervals(kept: set<SaveKind>, ticks: Ticks) {
    forall s, actions, id, ms :: IntervalRun(s, actions, id, ms) && Obeys(actions, kept) ==> Spaced(Run(s, actions, ticks), id, ms)
  }

  predicate FinishAndRemove(kept: set<SaveKind>) { FinishSave in kept && RemoveSave in kept }

  // ---------------------------------------------------------------- the saves that suffice

  lemma SufficesOnce(kept: set<SaveKind>, ticks: Ticks, s: State, actions: seq<Action>, id: string)
    requires TickSave in kept || FinishAndRemove(kept)
    requires Initial(s) && Obeys(actions, kept)
    ensures RanOnce(Run(s, actions, ticks), id)
  {
    hide Run, RanOnce, Initial;
    forall a | a in actions
      ensures TickSave in kept ==> (a.Tick? ==> a.saved)
      ensures FinishAndRemove(kept) ==> (a.Finish? || a.Remove? ==> a.saved)
    {
      assert TickSave in kept ==> !Loses(a, TickSave);
      assert FinishAndRemove(kept) ==> !Loses(a, FinishSave) && !Loses(a, RemoveSave);
    }
    OneShotRunsAtMostOnce(s, actions, ticks, id);
  }

  lemma SufficesSpaced(kept: set<SaveKind>, ticks: Ticks, s: State, actions: seq<Action>, id: string, ms: int)
    requires FinishAndRemove(kept) && IntervalRun(s, actions, id, ms) && Obeys(actions, kept)
    ensures Spaced(Run(s, actions, ticks), id, ms)
  {
    hide Run, Initial, SpacedBy;
    forall a | a in actions ensures a.Finish? || a.Remove? ==> a.saved {
      assert !Loses(a, FinishSave) && !Loses(a, RemoveSave);
    }
    IntervalIsKept(s, actions, ticks, id, ms);
  }

  // ---------------------------------------------------------------- the saves that are needed

  lemma {:induction false} RunConcat(s: State, a: seq<Action>, b: seq<Action>, ticks: Ticks)
    ensures Run(s, a + b, ticks) == Run(Run(s, a, ticks), b, ticks)
    decreases |a|
  {
    hide Step, Possible;
    if a == [] {
      assert a + b == b;
    } else {
      assert (a + b)[1..] == a[1..] + b;
      RunConcat(if Possible(s, a[0]) then Step(s, a[0], ticks) else s, a[1..], b, ticks);
    }
  }

  lemma RunOne(s: State, a: Action, ticks: Ticks)
    requires Possible(s, a)
    ensures Run(s, [a], ticks) == Step(s, a, ticks)
  {
    hide Step, Possible;
  }

  lemma RunTwo(s: State, a: Action, b: Action, ticks: Ticks)
    requires Possible(s, a) && Possible(Step(s, a, ticks), b)
    ensures Run(s, [a, b], ticks) == Step(Step(s, a, ticks), b, ticks)
  {
    hide Step, Possible;
    RunOne(s, a, ticks);
    RunOne(Step(s, a, ticks), b, ticks);
    RunConcat(s, [a], [b], ticks);
    assert [a] + [b] == [a, b];
  }

  /** The loop runs, nothing is being dealt with, and the file holds this job alone. */
  predicate Idle(s: State, job: Job, now: int) {
    s.up && s.alive && s.queue == [] && s.current == None && s.disk == [job] && s.clock <= now
  }

  /** The job's handler is running. */
  predicate Running(s: State, job: Job, now: int, starts: seq<HandlerStart>) {
    && s.up && s.alive && s.queue == [] && s.current == Some(HandlerStart(job.id, now)) && s.clock == now
    && s.starts == starts + [HandlerStart(job.id, now)]
  }

  /** From a file of earlier days with one enabled job to a running loop. */
  lemma Started(s: State, job: Job, ticks: Ticks)
    requires Initial(s) && s.disk == [job] && job.enabled && s.clock <= 0
    requires ComputeNextRun(job.schedule, 0, ticks) == job.nextRun
    ensures var s' := Run(s, [Boot(true), StartLoop(0, true, true)], ticks); Idle(s', job, 0) && s'.starts == [] && s'.born == s.born
  {
    assert Recomputed([job], 0, ticks) == [job];
    RunTwo(s, Boot(true), StartLoop(0, true, true), ticks);
  }

  lemma OneDue(job: Job, now: int)
    requires Due(job, now)
    ensures DueIDs([job], now) == [job.id] && Has(ClearNext([job], [job.id]), job.id)
  {
    assert [job][..0] == [];
  }

  /** A due job is collected and its handler starts. */
  lemma Collected(s: State, job: Job, now: int, saved: bool, ticks: Ticks)
    requires Idle(s, job, now) && Due(job, now)
    ensures var s' := Run(s, [Tick(now, true, saved), Begin(now)], ticks);
            && Running(s', job, now, s.starts) && s'.born == s.born && (!saved ==> s'.disk == [job])
            && Has(s'.jobs, job.id) && |s'.jobs| == 1
  {
    hide Run;
    OneDue(job, now);
    CollectedByTick(s, job, now, saved, ticks);
    RunTwo(s, Tick(now, true, saved), Begin(now), ticks);
  }

  lemma CollectedByTick(s: State, job: Job, now: int, saved: bool, ticks: Ticks)
    requires Idle(s, job, now) && Due(job, now)
    ensures var a := Tick(now, true, saved);
            Possible(s, a) &&
            var s' := Step(s, a, ticks);
            && s'.up && s'.alive && s'.queue == [job.id] && s'.current == None && s'.clock == now && s'.starts == s.starts
            && s'.born == s.born && s'.jobs == ClearNext([job], [job.id]) && (!saved ==> s'.disk == [job])
  {
    hide ClearNext, DueIDs;
    OneDue(job, now);
  }

  /** The end of a handler's run whose save is lost: of finishing itself, or of removing the job before. */
  function Ending(kept: set<SaveKind>, id: string, now: int): seq<Action> {
    if FinishSave !in kept then [Finish(now, true, false)] else [Remove(id, false), Finish(now, true, true)]
  }

  /** Either way the file still holds the job as it was. */
  lemma Forgotten(s: State, kept: set<SaveKind>, job: Job, now: int, starts: seq<HandlerStart>, ticks: Ticks)
    requires Running(s, job, now, starts) && s.disk == [job] && |s.jobs| == 1 && s.jobs[0].id == job.id
    ensures var s' := Run(s, Ending(kept, job.id, now), ticks);
            Idle(s', job, now) && s'.starts == s.starts && s'.born == s.born
  {
    hide Finished;
    if FinishSave !in kept {
      RunOne(s, Finish(now, true, false), ticks);
    } else {
      var gone := Step(s, Remove(job.id, false), ticks);
      RemovedOnly(s.jobs, job.id);
      AbsentStays(job.id, now, ticks);
      RunTwo(s, Remove(job.id, false), Finish(now, true, true), ticks);
    }
  }

  lemma RemovedOnly(jobs: seq<Job>, id: string)
    requires |jobs| == 1 && jobs[0].id == id
    ensures Without(jobs, id) == []
  {
    assert jobs[..0] == [];
  }

  lemma AbsentStays(id: string, start: int, ticks: Ticks)
    ensures !Has([], id) && Finished([], id, start, true, start, ticks) == []
  {
  }

  lemma EndingObeys(kept: set<SaveKind>, id: string, now: int)
    requires !FinishAndRemove(kept)
    ensures Obeys(Ending(kept, id, now), kept)
  {
  }

  lemma ObeysConcat(a: seq<Action>, b: seq<Action>, kept: set<SaveKind>)
    requires Obeys(a, kept) && Obeys(b, kept)
    ensures Obeys(a + b, kept)
  {
    hide Loses;
  }

  const ONESHOT: Job := Job("j", true, AtTime(Some(5)), Some(5), None, "", true)
  const REPEAT: Job := Job("j", true, Every(Some(2)), Some(2), None, "", false)

  function FileOf(job: Job): State {
    State([job], [], false, false, [], None, 0, [], map[job.id := job.schedule])
  }

  /** With a lost tick and a lost ending, a one-shot job starts twice. */
  lemma StartsTwice(kept: set<SaveKind>, ticks: Ticks)
    requires TickSave !in kept && !FinishAndRemove(kept)
    ensures !NeverTwice(kept, ticks)
  {
    hide Run, Step, Loses;
    var s0, job := FileOf(ONESHOT), ONESHOT;
    var a, b := [Boot(true), StartLoop(0, true, true)], [Tick(5, true, false), Begin(5)];
    var c, d := Ending(kept, "j", 5), [Tick(6, true, true), Begin(6)];
    Started(s0, job, ticks);
    var s1 := Run(s0, a, ticks);
    Collected(s1, job, 5, false, ticks);
    var s2 := Run(s1, b, ticks);
    OnlyJob(s2.jobs, job.id);
    Forgotten(s2, kept, job, 5, s1.starts, ticks);
    var s3 := Run(s2, c, ticks);
    Collected(s3, job, 6, true, ticks);
    FourRuns(s0, a, b, c, d, ticks);
    EndingObeys(kept, "j", 5);
    RoutineObeys(kept);
    FourObey(a, b, c, d, kept);
    var end := Run(s0, a + b + c + d, ticks);
    assert end.starts[0].id == "j" && end.starts[1].id == "j";
    assert !RanOnce(end, "j");
  }

  lemma OnlyJob(jobs: seq<Job>, id: string)
    requires |jobs| == 1 && Has(jobs, id)
    ensures jobs[0].id == id
  {
  }

  lemma RoutineObeys(kept: set<SaveKind>)
    ensures Obeys([Boot(true), StartLoop(0, true, true)], kept)
    ensures TickSave !in kept ==> Obeys([Tick(5, true, false), Begin(5)], kept)
    ensures Obeys([Tick(6, true, true), Begin(6)], kept)
    ensures Obeys([Tick(2, true, true), Enable("j", true, 2, true), Begin(3)], kept)
    ensures Obeys([Tick(4, true, true), Begin(4)], kept)
  {
  }

  lemma FourRuns(s: State, a: seq<Action>, b: seq<Action>, c: seq<Action>, d: seq<Action>, ticks: Ticks)
    ensures Run(s, a + b + c + d, ticks) == Run(Run(Run(Run(s, a, ticks), b, ticks), c, ticks), d, ticks)
  {
    hide Run;
    RunConcat(s, a, b, ticks);
    RunConcat(s, a + b, c, ticks);
    RunConcat(s, a + b + c, d, ticks);
  }

  lemma FourObey(a: seq<Action>, b: seq<Action>, c: seq<Action>, d: seq<Action>, kept: set<SaveKind>)
    requires Obeys(a, kept) && Obeys(b, kept) && Obeys(c, kept) && Obeys(d, kept)
    ensures Obeys(a + b + c + d, kept)
  {
    hide Obeys;
    ObeysConcat(a, b, kept);
    ObeysConcat(a + b, c, kept);
    ObeysConcat(a + b + c, d, kept);
  }

  /** Enabling a collected job gives it a next run that its late start overtakes; if the ending is
      then lost, the next start comes too early. Every other save went through. */
  lemma StartsEarly(kept: set<SaveKind>, ticks: Ticks)
    requires !FinishAndRemove(kept)
    ensures !KeepsIntervals(kept, ticks)
  {
    hide Run, Step, Loses, NoWrap, Gives;
    var s0, job, again := FileOf(REPEAT), REPEAT, REPEAT.(nextRun := Some(4));
    var a, b := [Boot(true), StartLoop(0, true, true)], [Tick(2, true, true), Enable("j", true, 2, true), Begin(3)];
    var c, d := Ending(kept, "j", 3), [Tick(4, true, true), Begin(4)];
    Started(s0, job, ticks);
    var s1 := Run(s0, a, ticks);
    EnabledMeanwhile(s1, ticks);
    var s2 := Run(s1, b, ticks);
    Forgotten(s2, kept, again, 3, [], ticks);
    var s3 := Run(s2, c, ticks);
    Collected(s3, again, 4, true, ticks);
    FourRuns(s0, a, b, c, d, ticks);
    EndingObeys(kept, "j", 3);
    RoutineObeys(kept);
    FourObey(a, b, c, d, kept);
    EarlyIsInterval(s0, kept);
    var end := Run(s0, a + b + c + d, ticks);
    assert end.starts[1].at - end.starts[0].at == 1 && end.starts[0].id == "j" && end.starts[1].id == "j";
    assert !Spaced(end, "j", 2);
  }

  lemma EarlyIsInterval(s: State, kept: set<SaveKind>)
    requires s == FileOf(REPEAT)
    ensures IntervalRun(s, [Boot(true), StartLoop(0, true, true)] + [Tick(2, true, true), Enable("j", true, 2, true), Begin(3)]
                        + Ending(kept, "j", 3) + [Tick(4, true, true), Begin(4)], "j", 2)
  {
  }

  lemma EnabledMeanwhile(s: State, ticks: Ticks)
    requires Idle(s, REPEAT, 0) && s.starts == []
    ensures var s' := Run(s, [Tick(2, true, true), Enable("j", true, 2, true), Begin(3)], ticks);
            var again := REPEAT.(nextRun := Some(4));
            Running(s', again, 3, []) && s'.born == s.born && s'.disk == [again] && s'.jobs == [again]
  {
    OneDue(REPEAT, 2);
    var a, b, c := Tick(2, true, true), Enable("j", true, 2, true), Begin(3);
    var s1 := Step(s, a, ticks);
    assert s1.jobs == [REPEAT.(nextRun := None)];
    var s2 := Step(s1, b, ticks);
    assert s2.jobs == [REPEAT.(nextRun := Some(4))];
    RunTwo(s, a, b, ticks);
    RunOne(s2, c, ticks);
    RunConcat(s, [a, b], [c], ticks);
    assert [a, b] + [c] == [a, b, c];
  }

  // ---------------------------------------------------------------- the exact conditions

  /** One-shot jobs start at most once in every run if and only if ticks always save, or finishing
      and removing always do. */
  lemma OnceExactly(kept: set<SaveKind>, ticks: Ticks)
    ensures NeverTwice(kept, ticks) <==> TickSave in kept || FinishAndRemove(kept)
  {
    hide Run, RanOnce, Initial, Obeys;
    if TickSave in kept || FinishAndRemove(kept) {
      forall s, actions, id | Initial(s) && Obeys(actions, kept) ensures RanOnce(Run(s, actions, ticks), id) {
        SufficesOnce(kept, ticks, s, actions, id);
      }
    } else {
      StartsTwice(kept, ticks);
    }
  }

  /** Interval jobs keep their distance in every run if and only if finishing and removing always save. */
  lemma IntervalsExactly(kept: set<SaveKind>, ticks: Ticks)
    ensures KeepsIntervals(kept, ticks) <==> FinishAndRemove(kept)
  {
    hide Run, Spaced, IntervalRun, Obeys;
    if FinishAndRemove(kept) {
      forall s, actions, id, ms | IntervalRun(s, actions, id, ms) && Obeys(actions, kept)
        ensures Spaced(Run(s, actions, ticks), id, ms)
      {
        SufficesSpaced(kept, ticks, s, actions, id, ms);
      }
    } else {
      StartsEarly(kept, ticks);
    }
  }

  // ---------------------------------------------------------------- what a restart finds

  /** The action writes the list to the store file. */
  predicate Writes(s: State, a: Action)
    requires Possible(s, a)
  {
    match a
    case StartLoop(_, loaded, saved) => loaded && saved
    case Tick(now, loaded, saved) => saved && DueIDs(Found(s, loaded), now) != []
    case Finish(_, _, saved) => saved && Has(s.jobs, s.current.value.id)
    case Add(_, _, _, saved) => saved
    case Enable(id, _, _, saved) => saved && Has(s.jobs, id)
    case Remove(id, saved) => saved && Has(s.jobs, id)
    case _ => false
  }

  lemma WritesTheList(s: State, a: Action, ticks: Ticks)
    requires Possible(s, a)
    ensures Writes(s, a) ==> Step(s, a, ticks).disk == Step(s, a, ticks).jobs
    ensures !Writes(s, a) && !a.RemoveOnDisk? ==> Step(s, a, ticks).disk == s.disk
  {
    hide Finished, WithEnabled, Recomputed, ClearNext, DueIDs, Without, Find;
  }

  /** Nothing in this run touches the store file. */
  ghost predicate LeavesFile(s: State, actions: seq<Action>, ticks: Ticks)
    decreases |actions|
  {
    actions != [] ==>
      if Possible(s, actions[0])
      then !Writes(s, actions[0]) && !actions[0].RemoveOnDisk? && LeavesFile(Step(s, actions[0], ticks), actions[1..], ticks)
      else LeavesFile(s, actions[1..], ticks)
  }

  lemma {:induction false} FileStays(s: State, actions: seq<Action>, ticks: Ticks)
    requires LeavesFile(s, actions, ticks)
    ensures Run(s, actions, ticks).disk == s.disk
    decreases |actions|
  {
    hide Step, Possible, Writes;
    if actions != [] {
      if Possible(s, actions[0]) {
        WritesTheList(s, actions[0], ticks);
        FileStays(Step(s, actions[0], ticks), actions[1..], ticks);
      } else {
        FileStays(s, actions[1..], ticks);
      }
    }
  }

  /** A restart finds the list as it was when it was last saved, whatever happened since without a save. */
  lemma RestartLoadsLastSave(s: State, a: Action, since: seq<Action>, ticks: Ticks)
    requires Possible(s, a) && Writes(s, a) && LeavesFile(Step(s, a, ticks), since, ticks)
    ensures Run(Step(s, a, ticks), since + [Crash, Boot(true)], ticks).jobs == Step(s, a, ticks).jobs
  {
    hide Step, Writes, Run;
    var saved := Step(s, a, ticks);
    WritesTheList(s, a, ticks);
    FileStays(saved, since, ticks);
    RunConcat(saved, since, [Crash, Boot(true)], ticks);
    Restarted(Run(saved, since, ticks), ticks);
  }

  lemma Restarted(s: State, ticks: Ticks)
    ensures Run(s, [Crash, Boot(true)], ticks).jobs == s.disk
  {
    var s' := if s.alive then Step(s, Crash, ticks) else s;
    RunConcat(s, [Crash], [Boot(true)], ticks);
    assert [Crash] + [Boot(true)] == [Crash, Boot(true)];
    assert Run(s, [Crash], ticks) == s';
    RunOne(s', Boot(true), ticks);
  }
}
