/** The cron service: job lists, the schedule arithmetic, and the operations that change the
    list in memory and the store file behind it. */
module Cron {
  import opened Common

  /** A schedule's kind with its optional parameter, as stored. */
  datatype Schedule = AtTime(atMs: Option<int>) | Every(everyMs: Option<int>) | CronExpr(expr: string) | OtherKind(kind: string)

  datatype Job = Job(
    id: string, enabled: bool, schedule: Schedule, nextRun: Option<int>, lastRun: Option<int>, lastStatus: string, deleteAfterRun: bool)

  /** The next tick of a cron expression after a time, or none: the expression library. */
  type Ticks = (string, int) -> Option<int>

  const TWO63: int := 0x8000_0000_0000_0000

  /** 64-bit signed addition, which wraps around. */
  function Add64(a: int, b: int): int {
    var sum := a + b;
    if sum >= TWO63 then sum - 2 * TWO63 else if sum < -TWO63 then sum + 2 * TWO63 else sum
  }

  function ComputeNextRun(s: Schedule, now: int, ticks: Ticks): Option<int> {
    match s
    case AtTime(at) => if at.Some? && at.value > now then at else None
    case Every(ms) => if ms == None || ms.value <= 0 then None else Some(Add64(now, ms.value))
    case CronExpr(expr) => if expr == "" then None else ticks(expr, now)
    case OtherKind(_) => None
  }

  // ---------------------------------------------------------------- job lists

  predicate Due(j: Job, now: int) {
    j.enabled && j.nextRun.Some? && j.nextRun.value <= now
  }

  function DueIDs(jobs: seq<Job>, now: int): seq<string> {
    if jobs == [] then []
    else DueIDs(jobs[..|jobs| - 1], now) + if Due(jobs[|jobs| - 1], now) then [jobs[|jobs| - 1].id] else []
  }

  function ClearNext(jobs: seq<Job>, ids: seq<string>): seq<Job> {
    seq(|jobs|, i requires 0 <= i < |jobs| => if jobs[i].id in ids then jobs[i].(nextRun := None) else jobs[i])
  }

  /** The first job with this id, or the length of the list. */
  function Find(jobs: seq<Job>, id: string): (i: nat)
    ensures i <= |jobs| && (i < |jobs| ==> jobs[i].id == id)
    ensures forall k :: 0 <= k < i ==> jobs[k].id != id
  {
    if jobs == [] then 0 else if jobs[0].id == id then 0 else 1 + Find(jobs[1..], id)
  }

  predicate Has(jobs: seq<Job>, id: string) { Find(jobs, id) < |jobs| }

  function Without(jobs: seq<Job>, id: string): seq<Job> {
    if jobs == [] then []
    else Without(jobs[..|jobs| - 1], id) + if jobs[|jobs| - 1].id == id then [] else [jobs[|jobs| - 1]]
  }

  function Recomputed(jobs: seq<Job>, now: int, ticks: Ticks): seq<Job> {
    seq(|jobs|, i requires 0 <= i < |jobs| =>
      if jobs[i].enabled then jobs[i].(nextRun := ComputeNextRun(jobs[i].schedule, now, ticks)) else jobs[i])
  }

  function WithEnabled(jobs: seq<Job>, id: string, enabled: bool, now: int, ticks: Ticks): seq<Job> {
    var i := Find(jobs, id);
    if i == |jobs| then jobs
    else jobs[i := jobs[i].(enabled := enabled, nextRun := if enabled then ComputeNextRun(jobs[i].schedule, now, ticks) else None)]
  }

  function NewJob(id: string, s: Schedule, now: int, ticks: Ticks): Job {
    Job(id, true, s, ComputeNextRun(s, now, ticks), None, "", s.AtTime?)
  }

  /** The list after the job that started at `start` has finished. */
  function Finished(jobs: seq<Job>, id: string, start: int, ok: bool, now: int, ticks: Ticks): seq<Job> {
    var i := Find(jobs, id);
    if i == |jobs| then jobs
    else
      var job := jobs[i].(lastRun := Some(start), lastStatus := if ok then "ok" else "error");
      if job.schedule.AtTime? then
        if job.deleteAfterRun then Without(jobs[i := job], id)
        else jobs[i := job.(enabled := false, nextRun := None)]
      else jobs[i := job.(nextRun := ComputeNextRun(job.schedule, now, ticks))]
  }

  // ---------------------------------------------------------------- the service

  class CronService {
    var jobs: seq<Job>
    /** The store file. */
    var disk: seq<Job>
    var running: bool
    const ticks: Ticks

    /** Loading on creation ignores an unreadable file. */
    constructor (disk: seq<Job>, readable: bool, ticks: Ticks)
      ensures this.disk == disk && jobs == (if readable then disk else []) && !running && this.ticks == ticks
    {
      this.disk, running, this.ticks := disk, false, ticks;
      jobs := if readable then disk else [];
    }

    /** The list is emptied before the store file is read into it. */
    method LoadStore(readable: bool)
      modifies this`jobs
      ensures jobs == if readable then disk else []
    {
      jobs := [];
      if readable {
        jobs := disk;
      }
    }

    /** Write the list to the store file, if the file system lets us. */
    method SaveStore(writable: bool)
      modifies this`disk
      ensures disk == if writable then jobs else old(disk)
    {
      if writable {
        disk := jobs;
      }
    }

    method RecomputeNextRuns(now: int)
      modifies this`jobs
      ensures jobs == Recomputed(old(jobs), now, ticks)
    {
      for i := 0 to |jobs|
        invariant |jobs| == |old(jobs)|
        invariant forall k :: 0 <= k < i ==> jobs[k] == Recomputed(old(jobs), now, ticks)[k]
        invariant forall k :: i <= k < |jobs| ==> jobs[k] == old(jobs)[k]
      {
        var job := jobs[i];
        if job.enabled {
          jobs := jobs[i := job.(nextRun := ComputeNextRun(job.schedule, now, ticks))];
        }
      }
    }

    method Start(now: int, readable: bool, writable: bool) returns (ok: bool)
      modifies this
      ensures old(running) ==> ok && running && jobs == old(jobs) && disk == old(disk)
      ensures !old(running) ==> ok == (readable && writable) && running == ok
      ensures !old(running) && !readable ==> jobs == [] && disk == old(disk)
      ensures !old(running) && readable ==>
                jobs == Recomputed(old(disk), now, ticks) && disk == if writable then jobs else old(disk)
    {
      if running {
        return true;
      }
      LoadStore(readable);
      if !readable {
        return false;
      }
      RecomputeNextRuns(now);
      SaveStore(writable);
      if !writable {
        return false;
      }
      running := true;
      ok := true;
    }

    /** The locked half of `checkJobs`: reload, collect what is due, clear it, save. */
    method CollectDue(now: int, readable: bool, writable: bool) returns (dueJobIDs: seq<string>)
      modifies this`jobs, this`disk
      ensures !running ==> dueJobIDs == [] && jobs == old(jobs) && disk == old(disk)
      ensures running ==> var found := if readable then old(disk) else [];
                          dueJobIDs == DueIDs(found, now) && jobs == ClearNext(found, dueJobIDs)
      ensures running ==> disk == if dueJobIDs != [] && writable then jobs else old(disk)
    {
      dueJobIDs := [];
      if !running {
        return;
      }
      LoadStore(readable);
      ghost var found := jobs;
      for i := 0 to |jobs|
        invariant dueJobIDs == DueIDs(jobs[..i], now)
      {
        assert jobs[..i + 1][..i] == jobs[..i];
        if jobs[i].enabled && jobs[i].nextRun != None && jobs[i].nextRun.value <= now {
          dueJobIDs := dueJobIDs + [jobs[i].id];
        }
      }
      assert jobs[..|jobs|] == jobs;
      if |dueJobIDs| > 0 {
        for i := 0 to |jobs|
          invariant |jobs| == |found| && disk == old(disk)
          invariant forall k :: 0 <= k < i ==> jobs[k] == ClearNext(found, dueJobIDs)[k]
          invariant forall k :: i <= k < |jobs| ==> jobs[k] == found[k]
        {
          if jobs[i].id in dueJobIDs {
            jobs := jobs[i := jobs[i].(nextRun := None)];
          }
        }
        SaveStore(writable);
      } else {
        assert ClearNext(jobs, dueJobIDs) == jobs;
      }
    }

    /** The copy handed to the job handler, if the job is still there. */
    method Lookup(jobID: string) returns (job: Option<Job>)
      ensures job == if Has(jobs, jobID) then Some(jobs[Find(jobs, jobID)]) else None
    {
      for i := 0 to |jobs|
        invariant forall k :: 0 <= k < i ==> jobs[k].id != jobID
      {
        if jobs[i].id == jobID {
          return Some(jobs[i]);
        }
      }
      return None;
    }

    /** The locked half of `executeJobByID`, after the handler returned. */
    method FinishJob(jobID: string, startTime: int, handlerOk: bool, now: int, writable: bool)
      modifies this`jobs, this`disk
      ensures jobs == Finished(old(jobs), jobID, startTime, handlerOk, now, ticks)
      ensures disk == if Has(old(jobs), jobID) && writable then jobs else old(disk)
    {
      var i := 0;
      while i < |jobs| && jobs[i].id != jobID
        invariant i <= |jobs| && forall k :: 0 <= k < i ==> jobs[k].id != jobID
      {
        i := i + 1;
      }
      if i == |jobs| {
        return;
      }
      assert i == Find(jobs, jobID);
      var job := jobs[i].(lastRun := Some(startTime), lastStatus := if handlerOk then "ok" else "error");
      jobs := jobs[i := job];
      if job.schedule.AtTime? {
        if job.deleteAfterRun {
          var _ := RemoveJobUnsafe(jobID, writable);
        } else {
          jobs := jobs[i := job.(enabled := false, nextRun := None)];
        }
      } else {
        jobs := jobs[i := job.(nextRun := ComputeNextRun(job.schedule, now, ticks))];
      }
      SaveStore(writable);
    }

    method RemoveJobUnsafe(jobID: string, writable: bool) returns (removed: bool)
      modifies this`jobs, this`disk
      ensures jobs == Without(old(jobs), jobID) && removed == Has(old(jobs), jobID)
      ensures disk == if removed && writable then jobs else old(disk)
    {
      var kept: seq<Job> := [];
      for i := 0 to |jobs|
        invariant kept == Without(jobs[..i], jobID)
        invariant |kept| <= i && (|kept| < i <==> exists k :: 0 <= k < i && jobs[k].id == jobID)
      {
        assert jobs[..i + 1][..i] == jobs[..i];
        if jobs[i].id != jobID {
          kept := kept + [jobs[i]];
        }
      }
      assert jobs[..|jobs|] == jobs;
      removed := |kept| < |jobs|;
      jobs := kept;
      if removed {
        SaveStore(writable);
      }
    }

    method AddJob(id: string, schedule: Schedule, now: int, writable: bool) returns (ok: bool)
      modifies this`jobs, this`disk
      ensures jobs == old(jobs) + [NewJob(id, schedule, now, ticks)] && ok == writable
      ensures disk == if writable then jobs else old(disk)
    {
      var job := Job(id, true, schedule, ComputeNextRun(schedule, now, ticks), None, "", schedule.AtTime?);
      jobs := jobs + [job];
      SaveStore(writable);
      ok := writable;
    }

    method EnableJob(jobID: string, enabled: bool, now: int, writable: bool) returns (found: bool)
      modifies this`jobs, this`disk
      ensures jobs == WithEnabled(old(jobs), jobID, enabled, now, ticks) && found == Has(old(jobs), jobID)
      ensures disk == if found && writable then jobs else old(disk)
    {
      for i := 0 to |jobs|
        invariant jobs == old(jobs) && disk == old(disk)
        invariant forall k :: 0 <= k < i ==> jobs[k].id != jobID
      {
        if jobs[i].id == jobID {
          assert i == Find(jobs, jobID);
          var job := jobs[i].(enabled := enabled);
          if enabled {
            job := job.(nextRun := ComputeNextRun(job.schedule, now, ticks));
          } else {
            job := job.(nextRun := None);
          }
          jobs := jobs[i := job];
          SaveStore(writable);
          return true;
        }
      }
      return false;
    }
  }
}
