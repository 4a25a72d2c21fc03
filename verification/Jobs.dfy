/** Kubernetes jobs as the scan controller sees them. Models operator/controllers/execution/scans/job.go. */
module Jobs {
  datatype JobLabel = Scanner | Parser | Hook(jobType: string, hookName: string)

  /** The counters and condition reasons of a job's status. */
  datatype JobStatus = JobStatus(succeeded: nat, failed: nat, reasons: seq<string>)

  datatype Job = Job(name: string, jobLabel: JobLabel, status: JobStatus)

  datatype Completion = JobsCompleted | JobsFailed | JobsIncomplete

  const FRESH := JobStatus(0, 0, [])
  const BACKOFF_LIMIT_EXCEEDED := "BackoffLimitExceeded"

  predicate BackoffLimitExceeded(status: JobStatus) {
    status.failed > 0 && BACKOFF_LIMIT_EXCEEDED in status.reasons
  }

  predicate Unfinished(job: Job) {
    job.status.succeeded == 0 && !BackoffLimitExceeded(job.status)
  }

  predicate HasJob(jobs: seq<Job>, jobLabel: JobLabel) {
    exists i :: 0 <= i < |jobs| && jobs[i].jobLabel == jobLabel
  }

  function Labelled(jobs: seq<Job>, jobLabel: JobLabel): seq<Job> {
    if jobs == [] then []
    else (if jobs[0].jobLabel == jobLabel then [jobs[0]] else []) + Labelled(jobs[1..], jobLabel)
  }

  /** One failed job outweighs all others; an empty list counts as completed. */
  function Outcome(jobs: seq<Job>): Completion {
    if exists i :: 0 <= i < |jobs| && BackoffLimitExceeded(jobs[i].status) then JobsFailed
    else if forall i :: 0 <= i < |jobs| ==> jobs[i].status.succeeded != 0 then JobsCompleted
    else JobsIncomplete
  }

  /** Job counters only grow into a final state: a job that succeeded, or ran out of retries, stays so. */
  predicate Progresses(before: JobStatus, after: JobStatus) {
    && (before.succeeded > 0 ==> after.succeeded > 0)
    && (BackoffLimitExceeded(before) ==> BackoffLimitExceeded(after))
  }

  method IsBackoffLimitExceeded(job: Job) returns (exceeded: bool)
    ensures exceeded <==> BackoffLimitExceeded(job.status)
    ensures exceeded <==> job.status.failed > 0 && "BackoffLimitExceeded" in job.status.reasons
  {
    if job.status.failed > 0 {
      for i := 0 to |job.status.reasons|
        invariant BACKOFF_LIMIT_EXCEEDED !in job.status.reasons[..i]
      {
        if job.status.reasons[i] == BACKOFF_LIMIT_EXCEEDED { return true; }
      }
    }
    return false;
  }

  method CheckIfAllJobsCompleted(jobs: seq<Job>) returns (completion: Completion)
    ensures completion == Outcome(jobs)
    ensures completion == JobsFailed <==> exists j <- jobs :: BackoffLimitExceeded(j.status)
    ensures completion == JobsCompleted <==>
            forall j <- jobs :: j.status.succeeded > 0 && !BackoffLimitExceeded(j.status)
  {
    var hasCompleted := true;
    for i := 0 to |jobs|
      invariant forall k :: 0 <= k < i ==> !BackoffLimitExceeded(jobs[k].status)
      invariant hasCompleted <==> forall k :: 0 <= k < i ==> jobs[k].status.succeeded != 0
    {
      var exceeded := IsBackoffLimitExceeded(jobs[i]);
      if exceeded {
        return JobsFailed;
      } else if jobs[i].status.succeeded == 0 {
        hasCompleted := false;
      }
    }
    return if hasCompleted then JobsCompleted else JobsIncomplete;
  }

  method GetJobsForScan(jobs: seq<Job>, jobLabel: JobLabel) returns (matching: seq<Job>)
    ensures matching == Labelled(jobs, jobLabel)
  {
    matching := [];
    for i := 0 to |jobs|
      invariant matching == Labelled(jobs[..i], jobLabel)
    {
      assert jobs[..i + 1] == jobs[..i] + [jobs[i]];
      LabelledAppend(jobs[..i], jobs[i], jobLabel);
      if jobs[i].jobLabel == jobLabel { matching := matching + [jobs[i]]; }
    }
    assert jobs[..|jobs|] == jobs;
  }

  lemma {:induction false} LabelledAppend(jobs: seq<Job>, job: Job, jobLabel: JobLabel)
    ensures Labelled(jobs + [job], jobLabel) ==
            Labelled(jobs, jobLabel) + (if job.jobLabel == jobLabel then [job] else [])
  {
    if jobs != [] {
      assert (jobs + [job])[1..] == jobs[1..] + [job];
      LabelledAppend(jobs[1..], job, jobLabel);
    }
  }

  /** The jobs found for a label are exactly the jobs that carry it. */
  lemma {:induction false} LabelledMembers(jobs: seq<Job>, jobLabel: JobLabel)
    ensures forall j :: j in Labelled(jobs, jobLabel) <==> j in jobs && j.jobLabel == jobLabel
    ensures Labelled(jobs, jobLabel) != [] <==> HasJob(jobs, jobLabel)
  {
    LabelledContents(jobs, jobLabel);
    if HasJob(jobs, jobLabel) {
      var i :| 0 <= i < |jobs| && jobs[i].jobLabel == jobLabel;
      assert jobs[i] in Labelled(jobs, jobLabel);
    }
    if Labelled(jobs, jobLabel) != [] {
      var j := Labelled(jobs, jobLabel)[0];
      assert j in Labelled(jobs, jobLabel);
      var i :| 0 <= i < |jobs| && jobs[i] == j;
    }
  }

  lemma {:induction false} LabelledContents(jobs: seq<Job>, jobLabel: JobLabel)
    ensures forall j :: j in Labelled(jobs, jobLabel) <==> j in jobs && j.jobLabel == jobLabel
  {
    if jobs != [] {
      LabelledContents(jobs[1..], jobLabel);
      assert jobs == [jobs[0]] + jobs[1..];
    }
  }
}
