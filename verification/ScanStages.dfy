/** What one reconcile of a scan does outside hook execution, effect by effect: which answers lead to a new job, to a
    new
    state, and to an error. */
module ScanStages {
  import opened Options
  import opened HookGroups
  import opened Jobs
  import opened ScanLifecycle

  ghost predicate Started(jobs: seq<Job>, jobLabel: JobLabel) { exists j <- jobs :: j.jobLabel == jobLabel }

  /** The final state with its time. */
  function Ended(status: ScanStatus, state: ScanState, now: int): ScanStatus {
    ScanStatus(state, status.groups, if status.finishedAt.None? then Some(now) else status.finishedAt)
  }

  /** A suspended scan that is not finished keeps its status and its jobs, and is no error. */
  lemma SuspendedScanWaits(w: World, hooks: seq<HookSpec>, a: Answers)
    requires a.suspended && w.status.state != Done && w.status.state != Errored
    ensures Reconcile(w, hooks, a) == Reply(w, false)
  {}

  /** Without a stored write the status stays as it is; only a write that lost a conflict is no error by itself. */
  lemma OnlyStoredWritesCount(w: World, hooks: seq<HookSpec>, a: Answers)
    requires a.write != Stored
    ensures Reconcile(w, hooks, a).world.status == w.status
  {
    hide Labelled, Outcome, RunHooks, CurrentGroup, OrderedGroups;
  }

  lemma NoneLabelled(jobs: seq<Job>, jobLabel: JobLabel)
    ensures Labelled(jobs, jobLabel) == [] <==> !Started(jobs, jobLabel)
  {
    LabelledMembers(jobs, jobLabel);
    var found := Labelled(jobs, jobLabel);
    hide Labelled;
    if found != [] { assert found[0] in found; }
    if j :| j in jobs && j.jobLabel == jobLabel { assert j in found; }
  }

  /** A new scan: the scanner job is created if none exists, its creation is not refused and the scan type is known; the
      scan moves to Scanning if everything worked, and is Errored if the scan type is missing. */
  lemma ScannerStage(w: World, hooks: seq<HookSpec>, a: Answers)
    requires (w.status.state == Unset || w.status.state == Init) && !a.suspended
    ensures var after, free := Reconcile(w, hooks, a), a.jobsListed && !Started(w.jobs, Scanner) && a.finalizerStored;
      && after.world.jobs == (if free && a.definitionFound && a.create != NotCreated
                              then w.jobs + [Job(a.jobName, Scanner, JobStatus(0, 0, []))] else w.jobs)
      && (after.world.status != w.status ==> a.write == Stored && free)
      && (a.write == Stored && free && a.definitionFound && a.create == Created && a.urlsSigned ==>
            after.world.status == ScanStatus(Scanning, w.status.groups, w.status.finishedAt))
      && (a.write == Stored && free && a.definitionFound && (a.create != Created || !a.urlsSigned) ==>
            after.world.status == w.status)
      && (a.write == Stored && free && !a.definitionFound ==>
            after.world.status == Ended(w.status, Errored, a.now))
      && (after.err <==>
            !a.jobsListed || (!Started(w.jobs, Scanner) && !(
              a.finalizerStored && a.definitionFound && a.create == Created && a.urlsSigned && a.write != Crashed)))
  {
    NoneLabelled(w.jobs, Scanner);
    hide Labelled, Started;
  }

  /** After the scanner: the same for the parser job, except that signing comes first and a refused write is an
      error. */
  lemma ParserStage(w: World, hooks: seq<HookSpec>, a: Answers)
    requires w.status.state == ScanCompleted && !a.suspended
    ensures var after, free := Reconcile(w, hooks, a), a.jobsListed && !Started(w.jobs, Parser);
      && after.world.jobs == (if free && a.definitionFound && a.urlsSigned && a.create != NotCreated
                              then w.jobs + [Job(a.jobName, Parser, JobStatus(0, 0, []))] else w.jobs)
      && (after.world.status != w.status ==> a.write == Stored && free)
      && (a.write == Stored && free && a.definitionFound && a.urlsSigned && a.create == Created ==>
            after.world.status == ScanStatus(Parsing, w.status.groups, w.status.finishedAt))
      && (a.write == Stored && free && a.definitionFound && (a.create != Created || !a.urlsSigned) ==>
            after.world.status == w.status)
      && (a.write == Stored && free && !a.definitionFound ==>
            after.world.status == Ended(w.status, Errored, a.now))
      && (after.err <==>
            !a.jobsListed || (!Started(w.jobs, Parser) && !(
              a.definitionFound && a.urlsSigned && a.create == Created &&
              (a.write == Stored || a.write == Conflict))))
  {
    NoneLabelled(w.jobs, Parser);
    hide Labelled, Started;
  }

  lemma OutcomeOfStage(jobs: seq<Job>, jobLabel: JobLabel)
    ensures Outcome(Labelled(jobs, jobLabel)) == JobsFailed <==>
            exists j <- jobs :: j.jobLabel == jobLabel && BackoffLimitExceeded(j.status)
    ensures Outcome(Labelled(jobs, jobLabel)) == JobsCompleted <==>
            forall j <- jobs :: j.jobLabel == jobLabel ==> j.status.succeeded > 0 && !BackoffLimitExceeded(j.status)
  {
    LabelledMembers(jobs, jobLabel);
    var found := Labelled(jobs, jobLabel);
    hide Labelled;
    if j :| j in jobs && j.jobLabel == jobLabel && (BackoffLimitExceeded(j.status) || j.status.succeeded == 0) {
      var i :| 0 <= i < |found| && found[i] == j;
    }
    if j :| j in jobs && j.jobLabel == jobLabel && BackoffLimitExceeded(j.status) {
      var i :| 0 <= i < |found| && found[i] == j;
      assert BackoffLimitExceeded(found[i].status);
    }
    forall i | 0 <= i < |found| ensures found[i] in jobs && found[i].jobLabel == jobLabel { assert found[i] in found; }
  }

  /** While the scanner or the parser runs: no job is created; a job out of retries makes the scan Errored, success of
      all of them moves it on, and otherwise it waits. */
  lemma WaitingStages(w: World, hooks: seq<HookSpec>, a: Answers)
    requires (w.status.state == Scanning || w.status.state == Parsing) && !a.suspended
    ensures var jobLabel, after := if w.status.state == Scanning then Scanner else Parser, Reconcile(w, hooks, a);
            var failed := exists j <- w.jobs :: j.jobLabel == jobLabel && BackoffLimitExceeded(j.status);
            var succeeded := forall j <- w.jobs :: j.jobLabel == jobLabel ==>
                j.status.succeeded > 0 && !BackoffLimitExceeded(j.status);
      && after.world.jobs == w.jobs
      && after.world.status ==
         (if a.write != Stored || !a.jobsListed then w.status
          else if failed then Ended(w.status, Errored, a.now)
          else if succeeded
              then w.status.(state := if w.status.state == Scanning then ScanCompleted else ParseCompleted)
          else w.status)
      && (after.err <==>
            !a.jobsListed || ((failed || succeeded) && (a.write == Refused || a.write == Crashed)))
  {
    OutcomeOfStage(w.jobs, if w.status.state == Scanning then Scanner else Parser);
    hide Labelled, Outcome, BackoffLimitExceeded;
  }

  /** After the parser the schedule of the hooks is stored, if the hooks can be read. */
  lemma ScheduleStage(w: World, hooks: seq<HookSpec>, a: Answers)
    requires w.status.state == ParseCompleted && !a.suspended
    ensures var after := Reconcile(w, hooks, a);
      && after.world.jobs == w.jobs
      && (a.write == Stored && a.definitionFound ==>
            after.world.status ==
            ScanStatus(HookProcessing, OrderedGroups(InitialStatuses(hooks)), w.status.finishedAt))
      && (a.write != Stored || !a.definitionFound ==> after.world.status == w.status)
      && (after.err <==> !a.definitionFound || a.write == Refused || a.write == Crashed)
  {
    hide OrderedGroups, InitialStatuses;
  }

  ghost predicate Completes(groups: seq<seq<HookStatus>>) {
    forall g, k :: 0 <= g < |groups| && 0 <= k < |groups[g]| ==> groups[g][k].state == Completed
  }

  /** The first hook that is not Completed, in the order of the schedule, has this state. */
  ghost predicate FirstOpenIs(groups: seq<seq<HookStatus>>, g: nat, k: nat) {
    && g < |groups| && k < |groups[g]| && groups[g][k].state != Completed
    && (forall l :: 0 <= l < k ==> groups[g][l].state == Completed)
    && (forall f, l :: 0 <= f < g && 0 <= l < |groups[f]| ==> groups[f][l].state == Completed)
  }

  lemma {:induction false} FirstOpenAt(group: seq<HookStatus>, k: nat)
    requires k < |group| && group[k].state != Completed && forall l :: 0 <= l < k ==> group[l].state == Completed
    ensures FirstOpen(group) == Some(group[k])
  {
    if k > 0 { FirstOpenAt(group[1..], k - 1); }
  }

  lemma {:induction false} SelectedBy(groups: seq<seq<HookStatus>>, from: nat, g: nat, k: nat)
    requires FirstOpenIs(groups, g, k) && from <= g
    ensures CurrentGroup(groups, from) == match groups[g][k].state
              case Failed => HookFailed(groups[g][k].hookName)
              case Cancelled => HookCancelled(groups[g][k].hookName)
              case _ => Work(g)
    decreases g - from
  {
    if from == g {
      FirstOpenAt(groups[g], k);
    } else {
      FirstOpenMeaning(groups[from]);
      SelectedBy(groups, from + 1, g, k);
    }
  }

  /** Without an open hook: no job is created, and a stored write ends the scan, as Done if every hook is Completed, as
      Errored if the first one that is not has failed or was cancelled. */
  lemma ClosedGroups(w: World, hooks: seq<HookSpec>, a: Answers, g: nat, k: nat)
    requires w.status.state == HookProcessing && !a.suspended
    requires Completes(w.status.groups) ||
             (FirstOpenIs(w.status.groups, g, k) && w.status.groups[g][k].state in {Failed, Cancelled})
    ensures var after, completed := Reconcile(w, hooks, a), Completes(w.status.groups);
      && after.world.jobs == w.jobs
      && after.world.status ==
         (if a.write == Stored then Ended(w.status, if completed then Done else Errored, a.now) else w.status)
      && (after.err <==> !completed || a.write == Refused || a.write == Crashed)
  {
    CurrentGroupMeaning(w.status.groups, 0);
    if !Completes(w.status.groups) { SelectedBy(w.status.groups, 0, g, k); }
    hide CurrentGroup, RunHooks;
  }
}
