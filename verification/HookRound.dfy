/** What one round over the hooks of the current group does, hook by hook, in the conditions a caller can read. */
module HookRound {
  import opened Options
  import opened HookGroups
  import opened Jobs
  import opened ScanLifecycle
  import R = ScanRuns

  /** The job of a hook: its type and its name. */
  ghost predicate IsJobOf(job: Job, hook: HookStatus) {
    match hook.hookType
    case ReadOnly => job.jobLabel == Hook("read-only-hook", hook.hookName)
    case ReadAndWrite => job.jobLabel == Hook("read-and-write-hook", hook.hookName)
    case Unsupported => job.jobLabel == Hook("", hook.hookName)
  }

  ghost predicate JobExists(jobs: seq<Job>, hook: HookStatus) { exists j <- jobs :: IsJobOf(j, hook) }

  ghost predicate JobNamed(jobs: seq<Job>, hook: HookStatus, name: string) {
    exists j <- jobs :: IsJobOf(j, hook) && j.name == name
  }

  /** No retry is left for one of the hook's jobs. */
  ghost predicate SomeFailed(jobs: seq<Job>, hook: HookStatus) {
    exists j <- jobs :: IsJobOf(j, hook) && BackoffLimitExceeded(j.status)
  }

  ghost predicate AllSucceeded(jobs: seq<Job>, hook: HookStatus) {
    forall j <- jobs :: IsJobOf(j, hook) ==> j.status.succeeded > 0 && !BackoffLimitExceeded(j.status)
  }

  /** The hook cannot be handled: its definition is gone, its jobs cannot be listed, or a job for it is missing and
      cannot be created for certain. */
  ghost predicate MeetsError(jobs: seq<Job>, hook: HookStatus, a: HookAnswer) {
    match hook.state
    case Pending =>
      !a.hookFound || !a.jobsListed || (!JobExists(jobs, hook) && (!a.urlsSigned || a.create != Created))
    case InProgress => !a.jobsListed
    case _ => false
  }

  /** A job for the hook is created, whether or not the controller learns of it. */
  ghost predicate CreatesJob(jobs: seq<Job>, hook: HookStatus, a: HookAnswer) {
    hook.state == Pending && a.hookFound && a.jobsListed && !JobExists(jobs, hook) && a.urlsSigned &&
    a.create != NotCreated
  }

  /** The states of a hook before and after it is handled. */
  ghost predicate Moves(jobs: seq<Job>, before: HookStatus, a: HookAnswer, after: HookStatus) {
    && after.hookName == before.hookName && after.priority == before.priority && after.hookType == before.hookType
    && (if MeetsError(jobs, before, a) then after == before
        else match before.state
          case Pending =>
            && after.state == InProgress
            && if JobExists(jobs, before) then JobNamed(jobs, before, after.jobName) else after.jobName == a.jobName
          case InProgress =>
            && after.jobName == before.jobName
            && after.state == (if SomeFailed(jobs, before) then Failed
                               else if AllSucceeded(jobs, before) then Completed else InProgress)
          case _ => after == before)
  }

  // ---------------------------------------------------------------- one hook

  lemma LabelMeaning(job: Job, hook: HookStatus)
    ensures job.jobLabel == LabelOf(hook) <==> IsJobOf(job, hook)
  {}

  lemma JobsOfHook(jobs: seq<Job>, hook: HookStatus)
    ensures Labelled(jobs, LabelOf(hook)) != [] <==> JobExists(jobs, hook)
    ensures forall j :: j in Labelled(jobs, LabelOf(hook)) <==> j in jobs && IsJobOf(j, hook)
  {
    LabelledMembers(jobs, LabelOf(hook));
    var found := Labelled(jobs, LabelOf(hook));
    forall j: Job ensures j.jobLabel == LabelOf(hook) <==> IsJobOf(j, hook) { LabelMeaning(j, hook); }
    hide Labelled, IsJobOf, LabelOf;
    if found != [] { assert found[0] in found; }
    if j :| j in jobs && IsJobOf(j, hook) { assert j in found; }
  }

  lemma OutcomeOfHook(jobs: seq<Job>, hook: HookStatus)
    ensures Outcome(Labelled(jobs, LabelOf(hook))) ==
            if SomeFailed(jobs, hook) then JobsFailed
            else if AllSucceeded(jobs, hook) then JobsCompleted else JobsIncomplete
  {
    JobsOfHook(jobs, hook);
    var found := Labelled(jobs, LabelOf(hook));
    hide Labelled, IsJobOf, LabelOf;
    if j :| j in jobs && IsJobOf(j, hook) && BackoffLimitExceeded(j.status) {
      var i :| 0 <= i < |found| && found[i] == j;
      assert BackoffLimitExceeded(found[i].status);
    }
    if i :| 0 <= i < |found| && BackoffLimitExceeded(found[i].status) { assert found[i] in found; }
    forall i | 0 <= i < |found| ensures found[i] in jobs && IsJobOf(found[i], hook) { assert found[i] in found; }
    if !SomeFailed(jobs, hook) && !AllSucceeded(jobs, hook) {
      var j :| j in jobs && IsJobOf(j, hook) && j.status.succeeded == 0;
      var i :| 0 <= i < |found| && found[i] == j;
    }
  }

  /** One hook handled: its move, its error, and the job created for it. */
  ghost predicate Handles(jobs: seq<Job>, hook: HookStatus, a: HookAnswer, run: HookRun) {
    && Moves(jobs, hook, a, run.hook)
    && (run.err <==> MeetsError(jobs, hook, a))
    && run.jobs == if CreatesJob(jobs, hook, a) then jobs + [Job(a.jobName, LabelOf(hook), JobStatus(0, 0, []))]
                   else jobs
  }

  lemma StepMeaning(jobs: seq<Job>, hook: HookStatus, a: HookAnswer)
    ensures Handles(jobs, hook, a, HookStep(jobs, hook, a))
  {
    match hook.state
    case Pending => StartMeaning(jobs, hook, a);
    case InProgress => AwaitMeaning(jobs, hook, a);
    case _ => hide JobExists, SomeFailed, AllSucceeded, LabelOf;
  }

  lemma StartMeaning(jobs: seq<Job>, hook: HookStatus, a: HookAnswer)
    requires hook.state == Pending
    ensures Handles(jobs, hook, a, StartHook(jobs, hook, a))
  {
    JobsOfHook(jobs, hook);
    var found := Labelled(jobs, LabelOf(hook));
    hide JobExists, Labelled, LabelOf, IsJobOf, SomeFailed, AllSucceeded;
    if found != [] { assert found[0] in found && JobNamed(jobs, hook, found[0].name); }
    hide JobNamed;
  }

  lemma AwaitMeaning(jobs: seq<Job>, hook: HookStatus, a: HookAnswer)
    requires hook.state == InProgress
    ensures Handles(jobs, hook, a, AwaitHook(jobs, hook, a))
  {
    OutcomeOfHook(jobs, hook);
    hide JobExists, JobNamed, SomeFailed, AllSucceeded, Labelled, Outcome, LabelOf;
  }

  // ---------------------------------------------------------------- the hooks of a group

  /** No two hooks of the group share their jobs. */
  ghost predicate DistinctHooks(group: seq<HookStatus>) {
    forall i, k :: 0 <= i < k < |group| ==>
      group[i].hookName != group[k].hookName || group[i].hookType != group[k].hookType
  }

  /** The jobs created while the first n hooks are handled, in order. */
  ghost function NewJobs(jobs: seq<Job>, group: seq<HookStatus>, answer: string -> HookAnswer, n: nat): seq<Job>
    requires n <= |group|
  {
    if n == 0 then []
    else
      var hook, a := group[n - 1], answer(group[n - 1].hookName);
      NewJobs(jobs, group, answer, n - 1) +
      (if CreatesJob(jobs, hook, a) then [Job(a.jobName, LabelOf(hook), JobStatus(0, 0, []))] else [])
  }

  lemma {:induction false} NewJobsAreOfEarlier(jobs: seq<Job>, group: seq<HookStatus>, answer: string -> HookAnswer,
                                               n: nat, hook: HookStatus)
    requires n <= |group|
    requires forall k :: 0 <= k < n ==> group[k].hookName != hook.hookName || group[k].hookType != hook.hookType
    ensures forall j <- NewJobs(jobs, group, answer, n) :: !IsJobOf(j, hook)
  {
    if n > 0 {
      NewJobsAreOfEarlier(jobs, group, answer, n - 1, hook);
      hide CreatesJob;
    }
  }

  /** Jobs of other hooks make no difference. */
  lemma OtherJobsDoNotMatter(jobs: seq<Job>, more: seq<Job>, hook: HookStatus)
    requires forall j <- more :: !IsJobOf(j, hook)
    ensures JobExists(jobs + more, hook) <==> JobExists(jobs, hook)
    ensures SomeFailed(jobs + more, hook) <==> SomeFailed(jobs, hook)
    ensures AllSucceeded(jobs + more, hook) <==> AllSucceeded(jobs, hook)
    ensures forall name :: JobNamed(jobs + more, hook, name) <==> JobNamed(jobs, hook, name)
  {
    hide IsJobOf, BackoffLimitExceeded;
    assert forall j :: j in jobs + more <==> j in jobs || j in more;
  }

  /** The hooks of a group do not influence each other: each moves as it would alone, and an error of one does not keep
      the others from being handled. */
  lemma {:induction false} RoundMeaning(jobs: seq<Job>, group: seq<HookStatus>, answer: string -> HookAnswer, n: nat)
    requires DistinctHooks(group) && n <= |group|
    ensures var run := RunHooks(jobs, group, answer, n);
      && (forall k :: 0 <= k < n ==> Moves(jobs, group[k], answer(group[k].hookName), run.group[k]))
      && (forall k :: n <= k < |group| ==> run.group[k] == group[k])
      && (run.failed <==> exists k :: 0 <= k < n && MeetsError(jobs, group[k], answer(group[k].hookName)))
      && (run.err <==> n > 0 && MeetsError(jobs, group[n - 1], answer(group[n - 1].hookName)))
      && run.jobs == jobs + NewJobs(jobs, group, answer, n)
  {
    hide HookStep, RunHooks, MeetsError, Moves, CreatesJob;
    if n == 0 {
      RunHooksNone(jobs, group, answer);
      assert jobs + [] == jobs;
    } else {
      RoundMeaning(jobs, group, answer, n - 1);
      RunHooksNext(jobs, group, answer, n - 1);
      var before := RunHooks(jobs, group, answer, n - 1);
      var hook, a := group[n - 1], answer(group[n - 1].hookName);
      StepAlone(jobs, group, answer, n - 1);
      assert jobs + NewJobs(jobs, group, answer, n - 1) + [Job(a.jobName, LabelOf(hook), JobStatus(0, 0, []))] ==
             jobs + (NewJobs(jobs, group, answer, n - 1) + [Job(a.jobName, LabelOf(hook), JobStatus(0, 0, []))]);
      assert NewJobs(jobs, group, answer, n - 1) + [] == NewJobs(jobs, group, answer, n - 1);
    }
  }

  lemma StepAlone(jobs: seq<Job>, group: seq<HookStatus>, answer: string -> HookAnswer, k: nat)
    requires DistinctHooks(group) && k < |group|
    ensures var hook, a, now := group[k], answer(group[k].hookName), jobs + NewJobs(jobs, group, answer, k);
      var run := HookStep(now, hook, a);
      && Moves(jobs, hook, a, run.hook) && (run.err <==> MeetsError(jobs, hook, a))
      && run.jobs == if CreatesJob(jobs, hook, a) then now + [Job(a.jobName, LabelOf(hook), JobStatus(0, 0, []))]
                     else now
  {
    var hook, a, more := group[k], answer(group[k].hookName), NewJobs(jobs, group, answer, k);
    NewJobsAreOfEarlier(jobs, group, answer, k, hook);
    OtherJobsDoNotMatter(jobs, more, hook);
    StepMeaning(jobs + more, hook, a);
    SameMoves(jobs, jobs + more, hook, a, HookStep(jobs + more, hook, a).hook);
    hide HookStep, MeetsError, Moves, CreatesJob, NewJobs;
  }

  lemma SameMoves(jobs: seq<Job>, more: seq<Job>, hook: HookStatus, a: HookAnswer, after: HookStatus)
    requires JobExists(more, hook) <==> JobExists(jobs, hook)
    requires SomeFailed(more, hook) <==> SomeFailed(jobs, hook)
    requires AllSucceeded(more, hook) <==> AllSucceeded(jobs, hook)
    requires forall name :: JobNamed(more, hook, name) <==> JobNamed(jobs, hook, name)
    ensures MeetsError(more, hook, a) <==> MeetsError(jobs, hook, a)
    ensures CreatesJob(more, hook, a) <==> CreatesJob(jobs, hook, a)
    ensures Moves(more, hook, a, after) <==> Moves(jobs, hook, a, after)
  {
    hide JobExists, SomeFailed, AllSucceeded, JobNamed;
  }

  // ---------------------------------------------------------------- one reconcile

  /** How many hooks of the group are handled before the controller dies, if it does. */
  function Reached(group: seq<HookStatus>, a: Answers): nat {
    if a.write == Crashed && a.hooksBeforeCrash < |group| then a.hooksBeforeCrash else |group|
  }

  /** While hooks of the current group are open: jobs are created whatever becomes of the write; with the write, every
      hook's move is stored, and the scan is Errored exactly if some hook of the group meets an error. */
  lemma OpenGroupRound(hooks: seq<HookSpec>, w: World, a: Answers, g: nat)
    requires w.status.state == HookProcessing && !a.suspended && CurrentGroup(w.status.groups) == Work(g)
    requires g < |w.status.groups| && DistinctHooks(w.status.groups[g])
    ensures var group, reply := w.status.groups[g], Reconcile(w, hooks, a);
      && reply.world.jobs == w.jobs + NewJobs(w.jobs, group, a.hook, Reached(group, a))
      && (a.write != Stored ==> reply.world.status == w.status)
      && (a.write == Stored ==>
            var s, failed := reply.world.status,
                             exists k :: 0 <= k < |group| && MeetsError(w.jobs, group[k], a.hook(group[k].hookName));
            && s.state == (if failed then Errored else HookProcessing)
            && s.finishedAt == (if failed && w.status.finishedAt.None? then Some(a.now) else w.status.finishedAt)
            && |s.groups| == |w.status.groups| && |s.groups[g]| == |group|
            && (forall f :: 0 <= f < |s.groups| && f != g ==> s.groups[f] == w.status.groups[f])
            && (forall k :: 0 <= k < |group| ==>
                  Moves(w.jobs, group[k], a.hook(group[k].hookName), s.groups[g][k]))
            && (reply.err <==>
                group != [] && MeetsError(w.jobs, group[|group| - 1], a.hook(group[|group| - 1].hookName))))
  {
    hide *;
    var group := w.status.groups[g];
    var n := Reached(group, a);
    OpenGroupReply(hooks, w, a, g);
    RoundMeaning(w.jobs, group, a.hook, n);
    if a.write == Stored { AllReached(group, a); }
  }

  lemma AllReached(group: seq<HookStatus>, a: Answers)
    requires a.write == Stored
    ensures Reached(group, a) == |group|
  {}

  /** The round of the reconcile, and what of it is stored. */
  lemma OpenGroupReply(hooks: seq<HookSpec>, w: World, a: Answers, g: nat)
    requires w.status.state == HookProcessing && !a.suspended && CurrentGroup(w.status.groups) == Work(g)
    requires g < |w.status.groups|
    ensures Reached(w.status.groups[g], a) <= |w.status.groups[g]|
    ensures var reply := Reconcile(w, hooks, a);
            var run := RunHooks(w.jobs, w.status.groups[g], a.hook, Reached(w.status.groups[g], a));
      && reply.world.jobs == run.jobs
      && (a.write != Stored ==> reply.world.status == w.status)
      && (a.write == Stored ==>
            var s := reply.world.status;
            && s.state == (if run.failed then Errored else HookProcessing)
            && s.finishedAt == (if run.failed && w.status.finishedAt.None? then Some(a.now) else w.status.finishedAt)
            && s.groups == w.status.groups[g := run.group] && |run.group| == |w.status.groups[g]|
            && reply.err == run.err)
  {
    hide RunHooks, CurrentGroup;
  }

  /** In every run from submission the groups are of distinct hooks. */
  lemma ReachedGroupsAreDistinct(hooks: seq<HookSpec>, w: World, events: seq<R.Event>, g: nat)
    requires R.DistinctNames(hooks) && R.Submitted(w) && g < |R.Run(hooks, w, events).status.groups|
    ensures DistinctHooks(R.Run(hooks, w, events).status.groups[g])
  {
    R.ReachedInv(hooks, w, events);
    var groups := R.Run(hooks, w, events).status.groups;
    hide R.Run, R.HooksInv, R.PipelineInv;
    assert R.Aligned(groups, R.Schedule(hooks));
    hide R.StatusInv, R.Inv, R.DistinctNames, R.Aligned, R.Schedule;
    forall i, k | 0 <= i < k < |groups[g]| && groups[g][i].hookName == groups[g][k].hookName &&
                  groups[g][i].hookType == groups[g][k].hookType
      ensures false
    {
      R.SamePlace(hooks, groups, g, i, g, k);
    }
  }
}
