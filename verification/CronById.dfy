/** What the operations of the scheduler do to each job, by its id. */
module CronById {
  import opened Common
  import opened Cron
  import opened CronRuns

  /** The job with this id. */
  function JobOf(jobs: seq<Job>, id: string): Option<Job> {
    if Has(jobs, id) then Some(jobs[Find(jobs, id)]) else None
  }

  lemma IsJobOf(jobs: seq<Job>, j: Job)
    requires Unique(jobs) && j in jobs
    ensures JobOf(jobs, j.id) == Some(j)
  {
    FindIs(jobs, j.id);
    UniqueMembers(jobs, jobs[Find(jobs, j.id)], j);
  }

  lemma JobOfIs(jobs: seq<Job>, id: string)
    ensures JobOf(jobs, id).Some? ==> JobOf(jobs, id).value in jobs && JobOf(jobs, id).value.id == id
    ensures JobOf(jobs, id) == None ==> forall j <- jobs :: j.id != id
  {
    FindIs(jobs, id);
  }

  /** Lists whose jobs with this id are the same have the same job of it. */
  lemma SameJobOf(jobs: seq<Job>, jobs': seq<Job>, id: string)
    requires Unique(jobs) && Unique(jobs') && forall j: Job :: j.id == id ==> (j in jobs <==> j in jobs')
    ensures JobOf(jobs, id) == JobOf(jobs', id)
  {
    JobOfIs(jobs, id);
    JobOfIs(jobs', id);
    if JobOf(jobs, id).Some? {
      IsJobOf(jobs', JobOf(jobs, id).value);
    }
  }

  lemma ReplacedJobOf(jobs: seq<Job>, i: nat, job: Job, x: string)
    requires i < |jobs| && Unique(jobs) && job.id == jobs[i].id
    ensures Unique(jobs[i := job])
    ensures JobOf(jobs[i := job], x) == if x == job.id then Some(job) else JobOf(jobs, x)
  {
    UpdateFacts(jobs, i, job);
    assert jobs[i := job][i] == job;
    if x == job.id {
      IsJobOf(jobs[i := job], job);
    } else {
      hide Unique;
      SameJobOf(jobs, jobs[i := job], x);
    }
  }

  /** Finishing: a one-shot job is gone, or disabled if it is to be kept; any other gets its next run from now on.
      When it was started and how it went is on record. Nothing else changes. */
  lemma AfterFinishing(jobs: seq<Job>, id: string, start: int, ok: bool, now: int, ticks: Ticks, x: string)
    requires Unique(jobs)
    ensures var was, later, status := JobOf(jobs, x), JobOf(Finished(jobs, id, start, ok, now, ticks), x), if ok then "ok" else "error";
            && (x != id || was == None ==> later == was)
            && (x == id && was.Some? ==>
                  match was.value.schedule
                  case AtTime(when) =>
                    later == if was.value.deleteAfterRun then None
                    else Some(Job(id, false, AtTime(when), None, Some(start), status, false))
                  case other =>
                    later == Some(Job(id, was.value.enabled, other, ComputeNextRun(other, now, ticks), Some(start), status, was.value.deleteAfterRun)))
  {
    hide ComputeNextRun, Unique;
    var i := Find(jobs, id);
    if i < |jobs| {
      var job := jobs[i].(lastRun := Some(start), lastStatus := if ok then "ok" else "error");
      ReplacedJobOf(jobs, i, job, x);
      ReplacedJobOf(jobs, i, job.(enabled := false, nextRun := None), x);
      ReplacedJobOf(jobs, i, job.(nextRun := ComputeNextRun(job.schedule, now, ticks)), x);
      AfterRemoving(jobs[i := job], id, x);
    } else {
      JobOfIs(jobs, id);
    }
  }

  /** Enabling gives the job its next run from now on, disabling takes it away. */
  lemma AfterEnabling(jobs: seq<Job>, id: string, enabled: bool, now: int, ticks: Ticks, x: string)
    requires Unique(jobs)
    ensures var was, later := JobOf(jobs, x), JobOf(WithEnabled(jobs, id, enabled, now, ticks), x);
            && (x != id || was == None ==> later == was)
            && (x == id && was.Some? ==>
                  later == Some(was.value.(enabled := enabled,
                                nextRun := if enabled then ComputeNextRun(was.value.schedule, now, ticks) else None)))
  {
    hide ComputeNextRun, Unique;
    var i := Find(jobs, id);
    if i < |jobs| {
      ReplacedJobOf(jobs, i, jobs[i].(enabled := enabled, nextRun := if enabled then ComputeNextRun(jobs[i].schedule, now, ticks) else None), x);
    } else {
      JobOfIs(jobs, id);
    }
  }

  lemma AfterRemoving(jobs: seq<Job>, id: string, x: string)
    requires Unique(jobs)
    ensures JobOf(Without(jobs, id), x) == if x == id then None else JobOf(jobs, x)
  {
    WithoutFacts(jobs, id);
    JobOfIs(Without(jobs, id), x);
    if x != id {
      hide Unique;
      SameJobOf(jobs, Without(jobs, id), x);
    }
  }

  /** A new job is enabled, has its next run, has not run yet, and is to be deleted afterwards if it is a one-shot. */
  lemma AfterAdding(jobs: seq<Job>, id: string, s: Schedule, now: int, ticks: Ticks, x: string)
    requires Unique(jobs) && JobOf(jobs, id) == None
    ensures JobOf(jobs + [NewJob(id, s, now, ticks)], x) ==
            if x == id then Some(Job(id, true, s, ComputeNextRun(s, now, ticks), None, "", s.AtTime?)) else JobOf(jobs, x)
  {
    hide ComputeNextRun;
    var job := NewJob(id, s, now, ticks);
    var l := jobs + [job];
    JobOfIs(jobs, id);
    UniqueGrown(jobs, job);
    assert forall j :: j in l <==> j in jobs || j == job;
    if x == id {
      IsJobOf(l, job);
    } else {
      hide Unique;
      SameJobOf(jobs, l, x);
    }
  }

  /** Collecting takes the next run from every due job, and only from those. */
  lemma AfterCollecting(jobs: seq<Job>, now: int, x: string)
    requires Unique(jobs)
    ensures var was, later := JobOf(jobs, x), JobOf(ClearNext(jobs, DueIDs(jobs, now)), x);
            if was.Some? && was.value.enabled && was.value.nextRun.Some? && was.value.nextRun.value <= now
            then later == Some(was.value.(nextRun := None)) else later == was
  {
    hide Unique, DueIDs;
    var ids := DueIDs(jobs, now);
    DueFacts(jobs, now);
    ClearFacts(jobs, ids);
    JobOfIs(jobs, x);
    JobOfIs(ClearNext(jobs, ids), x);
    if JobOf(jobs, x).Some? {
      var j := JobOf(jobs, x).value;
      DueIffSo(jobs, now, j);
      ClearedIsIn(jobs, ids, j);
      IsJobOf(ClearNext(jobs, ids), if j.id in ids then j.(nextRun := None) else j);
    }
  }

  lemma DueIffSo(jobs: seq<Job>, now: int, j: Job)
    requires Unique(jobs) && j in jobs
    ensures DueIn(jobs, now, j.id) <==> Due(j, now)
  {
    forall k | k in jobs && k.id == j.id ensures k == j {
      UniqueMembers(jobs, k, j);
    }
  }

  lemma ClearedIsIn(jobs: seq<Job>, ids: seq<string>, j: Job)
    requires j in jobs
    ensures (if j.id in ids then j.(nextRun := None) else j) in ClearNext(jobs, ids)
  {
    var k :| 0 <= k < |jobs| && jobs[k] == j;
    assert ClearNext(jobs, ids)[k] == if j.id in ids then j.(nextRun := None) else j;
  }
}
