/** Progress of a scan: a bound on the number of status changes, the worlds from which the controller can never
    advance again, and completion of every other scan when nothing fails. */
module ScanProgress {
  import opened HookGroups
  import opened HookOrder
  import opened Jobs
  import opened ScanLifecycle
  import opened ScanRuns

  // ---------------------------------------------------------------- a bound on status changes

  function Rank(state: HookState): nat {
    match state
    case Pending => 2
    case InProgress => 1
    case _ => 0
  }

  function GroupRank(group: seq<HookStatus>): nat {
    if group == [] then 0 else Rank(group[0].state) + GroupRank(group[1..])
  }

  function GroupsRank(groups: seq<seq<HookStatus>>): nat {
    if groups == [] then 0 else GroupRank(groups[0]) + GroupsRank(groups[1..])
  }

  /** How many stored status changes a scan can still undergo, at most. */
  function Potential(hooks: seq<HookSpec>, status: ScanStatus): nat {
    match status.state
    case Unset => 6 + 2 * |hooks|
    case Init => 6 + 2 * |hooks|
    case Scanning => 5 + 2 * |hooks|
    case ScanCompleted => 4 + 2 * |hooks|
    case Parsing => 3 + 2 * |hooks|
    case ParseCompleted => 2 + 2 * |hooks|
    case HookProcessing => 1 + GroupsRank(status.groups)
    case _ => 0
  }

  function StatusChanges(hooks: seq<HookSpec>, w: World, events: seq<Event>): nat
    decreases |events|
  {
    if events == [] then 0
    else
      var next := Step(hooks, w, events[0]);
      (if next.status != w.status then 1 else 0) + StatusChanges(hooks, next, events[1..])
  }

  /** Any stored change uses up potential: there is no way back and no way to loop. */
  lemma ChangeUsesPotential(hooks: seq<HookSpec>, w: World, e: Event)
    ensures var w' := Step(hooks, w, e);
      w'.status == w.status || Potential(hooks, w'.status) < Potential(hooks, w.status)
  {
    if e.Reconciled? {
      var a := e.answers;
      hide Reconcile, Potential;
      match w.status.state
      case Unset => StartUsesPotential(hooks, w, a);
      case Init => StartUsesPotential(hooks, w, a);
      case ScanCompleted => StartUsesPotential(hooks, w, a);
      case Scanning => AwaitUsesPotential(hooks, w, a);
      case Parsing => AwaitUsesPotential(hooks, w, a);
      case ParseCompleted => SetHooksUsesPotential(hooks, w, a);
      case HookProcessing => HooksUsePotential(hooks, w, a);
      case Done => TerminalIsKept(hooks, w, a);
      case Errored => TerminalIsKept(hooks, w, a);
    }
  }

  lemma SetHooksUsesPotential(hooks: seq<HookSpec>, w: World, a: Answers)
    requires w.status.state == ParseCompleted
    ensures var status := Reconcile(w, hooks, a).world.status;
      status == w.status || Potential(hooks, status) < Potential(hooks, w.status)
  {
    ScheduleRank(hooks);
    SetHooksIsOneOf(hooks, w, a);
    hide Reconcile, Schedule, GroupsRank;
  }

  lemma HooksUsePotential(hooks: seq<HookSpec>, w: World, a: Answers)
    requires w.status.state == HookProcessing
    ensures var status := Reconcile(w, hooks, a).world.status;
      status == w.status || Potential(hooks, status) < Potential(hooks, w.status)
  {
    hide ExecuteHooks, Potential;
    ExecuteUsesPotential(hooks, w, a);
  }

  lemma TerminalIsKept(hooks: seq<HookSpec>, w: World, a: Answers)
    requires Terminal(w.status.state)
    ensures Reconcile(w, hooks, a).world.status == w.status
  {}

  lemma StartUsesPotential(hooks: seq<HookSpec>, w: World, a: Answers)
    requires w.status.state in {Unset, Init, ScanCompleted}
    ensures var status := Reconcile(w, hooks, a).world.status;
      status == w.status || Potential(hooks, status) < Potential(hooks, w.status)
  {
    var jobLabel := if w.status.state == ScanCompleted then Parser else Scanner;
    StartIsOneOf(hooks, w, a, jobLabel, Job(a.jobName, jobLabel, FRESH));
    hide Reconcile, Labelled, GroupsRank;
  }

  lemma AwaitUsesPotential(hooks: seq<HookSpec>, w: World, a: Answers)
    requires w.status.state in {Scanning, Parsing}
    ensures var status := Reconcile(w, hooks, a).world.status;
      status == w.status || Potential(hooks, status) < Potential(hooks, w.status)
  {
    hide Labelled, Outcome, GroupsRank, ExecuteHooks, StartScan, StartParser, SetHookStatus;
  }

  /** However often a scan is reconciled, its stored status changes at most 6 + 2 * |hooks| times. */
  lemma {:induction false} StatusChangesAreBounded(hooks: seq<HookSpec>, w: World, events: seq<Event>)
    ensures StatusChanges(hooks, w, events) +
            Potential(hooks, Run(hooks, w, events).status) <= Potential(hooks, w.status)
    ensures Submitted(w) ==> StatusChanges(hooks, w, events) <= 6 + 2 * |hooks|
    decreases |events|
  {
    if events != [] {
      ChangeUsesPotential(hooks, w, events[0]);
      StatusChangesAreBounded(hooks, Step(hooks, w, events[0]), events[1..]);
    }
  }

  lemma {:induction false} GroupRankUpdate(group: seq<HookStatus>, k: nat, hook: HookStatus)
    requires k < |group|
    ensures GroupRank(group[k := hook]) == GroupRank(group) - Rank(group[k].state) + Rank(hook.state)
  {
    if k > 0 {
      assert group[k := hook][1..] == group[1..][k - 1 := hook];
      GroupRankUpdate(group[1..], k - 1, hook);
    } else {
      assert group[k := hook][1..] == group[1..];
    }
  }

  lemma {:induction false} GroupsRankUpdate(groups: seq<seq<HookStatus>>, g: nat, group: seq<HookStatus>)
    requires g < |groups|
    ensures GroupsRank(groups[g := group]) == GroupsRank(groups) - GroupRank(groups[g]) + GroupRank(group)
  {
    if g > 0 {
      assert groups[g := group][1..] == groups[1..][g - 1 := group];
      GroupsRankUpdate(groups[1..], g - 1, group);
    } else {
      assert groups[g := group][1..] == groups[1..];
    }
  }

  lemma HookStepRank(jobs: seq<Job>, hook: HookStatus, a: HookAnswer)
    ensures var after := HookStep(jobs, hook, a).hook; after == hook || Rank(after.state) < Rank(hook.state)
  {}

  lemma {:induction false} RunHooksRank(jobs: seq<Job>, group: seq<HookStatus>, answer: string -> HookAnswer, n: nat)
    requires n <= |group|
    ensures var after := RunHooks(jobs, group, answer, n).group; after == group || GroupRank(after) < GroupRank(group)
    decreases n
  {
    hide *;
    if n == 0 {
      RunHooksNone(jobs, group, answer);
    } else {
      RunHooksNext(jobs, group, answer, n - 1);
      RunHooksRank(jobs, group, answer, n - 1);
      var before := RunHooks(jobs, group, answer, n - 1);
      var hook := HookStep(before.jobs, group[n - 1], answer(group[n - 1].hookName)).hook;
      HookStepRank(before.jobs, group[n - 1], answer(group[n - 1].hookName));
      GroupRankUpdate(before.group, n - 1, hook);
      assert before.group[n - 1] == group[n - 1];
      assert before.group[n - 1 := group[n - 1]] == before.group;
    }
  }

  lemma ExecuteUsesPotential(hooks: seq<HookSpec>, w: World, a: Answers)
    requires w.status.state == HookProcessing
    ensures var w' := ExecuteHooks(w, w.status, a).world;
      w'.status == w.status || Potential(hooks, w'.status) < Potential(hooks, w.status)
  {
    hide RunHooks;
    var groups := w.status.groups;
    if CurrentGroup(groups).Work? {
      var g := CurrentGroup(groups).index;
      ExecuteWork(w, a, g);
      hide ExecuteHooks;
      var n := HooksHandled(groups[g], a);
      RunHooksRank(w.jobs, groups[g], a.hook, n);
      GroupsRankUpdate(groups, g, RunHooks(w.jobs, groups[g], a.hook, n).group);
      assert groups[g := groups[g]] == groups;
    }
  }

  lemma {:induction false} GroupRankAtMost(group: seq<HookStatus>)
    ensures GroupRank(group) <= 2 * |group|
  {
    if group != [] { GroupRankAtMost(group[1..]); }
  }

  lemma {:induction false} GroupsRankAtMost(groups: seq<seq<HookStatus>>)
    ensures GroupsRank(groups) <= 2 * |Flatten(groups)|
  {
    if groups != [] {
      GroupRankAtMost(groups[0]);
      GroupsRankAtMost(groups[1..]);
    }
  }

  lemma {:induction false} SupportedAtMost(hooks: seq<HookStatus>)
    ensures |Supported(hooks)| <= |hooks|
  {
    if hooks != [] { SupportedAtMost(hooks[1..]); }
  }

  lemma ScheduleRank(hooks: seq<HookSpec>)
    ensures GroupsRank(Schedule(hooks)) <= 2 * |hooks|
  {
    var statuses := InitialStatuses(hooks);
    GroupsRankAtMost(Schedule(hooks));
    HooksAreConserved(statuses);
    assert |multiset(Flatten(Schedule(hooks)))| == |Flatten(Schedule(hooks))|;
    assert |multiset(Supported(statuses))| == |Supported(statuses)|;
    SupportedAtMost(statuses);
  }

  // ---------------------------------------------------------------- stuck scans

  /** The job of a stage was created, but the status that says so was never stored. */
  ghost predicate Wedged(w: World) {
    || (w.status.state in {Unset, Init} && HasJob(w.jobs, Scanner))
    || (w.status.state == ScanCompleted && HasJob(w.jobs, Parser))
  }

  /** A wedged scan never changes its status again, whatever happens. */
  lemma {:induction false} WedgedForever(hooks: seq<HookSpec>, w: World, events: seq<Event>)
    requires Wedged(w)
    ensures Wedged(Run(hooks, w, events)) && Run(hooks, w, events).status == w.status
    decreases |events|
  {
    hide *;
    RunNext(hooks, w, events);
    if events != [] {
      WedgedStep(hooks, w, events[0]);
      WedgedForever(hooks, Step(hooks, w, events[0]), events[1..]);
    }
  }

  lemma WedgedStep(hooks: seq<HookSpec>, w: World, e: Event)
    requires Wedged(w)
    ensures Wedged(Step(hooks, w, e)) && Step(hooks, w, e).status == w.status
  {
    LabelledMembers(w.jobs, Scanner);
    LabelledMembers(w.jobs, Parser);
    hide HasJob, Labelled;
    match e {
      case JobMoved(i, after) =>
        if i < |w.jobs| && Progresses(w.jobs[i].status, after) { JobProgressed(w.jobs, i, after); }
      case Reconciled(a) =>
    }
  }

  /** An environment in which nothing fails. */
  ghost predicate FaultFree(a: Answers) {
    && !a.suspended && a.jobsListed && a.finalizerStored && a.definitionFound && a.urlsSigned
    && a.create == Created && a.write == Stored
    && (forall name :: var h := a.hook(name);
          h.hookFound && h.jobsListed && h.urlsSigned && h.create == Created)
  }

  /** One lost write is enough: a conflict on the very first status update wedges the scan. */
  lemma ConflictAtStartWedges(hooks: seq<HookSpec>, w: World, a: Answers)
    requires Submitted(w) && FaultFree(a.(write := Stored)) && a.write == Conflict
    ensures Wedged(Reconcile(w, hooks, a).world) && !Reconcile(w, hooks, a).err
  {
    var w' := Reconcile(w, hooks, a).world;
    assert w'.jobs == [Job(a.jobName, Scanner, FRESH)];
    assert w'.jobs[0].jobLabel == Scanner;
  }

  ghost predicate NoneUnfinished(jobs: seq<Job>) {
    forall i :: 0 <= i < |jobs| ==> !Unfinished(jobs[i])
  }

  /** Once its jobs are finished, an unfinished scan can still advance exactly when it is not wedged. */
  lemma AdvancesUnlessWedged(hooks: seq<HookSpec>, w: World, a: Answers)
    requires Inv(hooks, w) && !Terminal(w.status.state) && NoneUnfinished(w.jobs) && FaultFree(a)
    ensures Reconcile(w, hooks, a).world.status != w.status <==> !Wedged(w)
  {
    hide ExecuteHooks, HooksInv, Labelled;
    if w.status.state == HookProcessing {
      HooksAdvance(w, a);
    } else {
      LabelledMembers(w.jobs, Scanner);
      LabelledMembers(w.jobs, Parser);
      FinishedOutcome(w.jobs, Scanner);
      FinishedOutcome(w.jobs, Parser);
    }
  }

  lemma FinishedOutcome(jobs: seq<Job>, jobLabel: JobLabel)
    requires NoneUnfinished(jobs)
    ensures Outcome(Labelled(jobs, jobLabel)) != JobsIncomplete
  {
    LabelledMembers(jobs, jobLabel);
    var found := Labelled(jobs, jobLabel);
    forall i | 0 <= i < |found| ensures !Unfinished(found[i]) {
      assert found[i] in found;
      var n :| 0 <= n < |jobs| && jobs[n] == found[i];
    }
  }

  lemma HooksAdvance(w: World, a: Answers)
    requires w.status.state == HookProcessing && NoneUnfinished(w.jobs) && FaultFree(a)
    ensures ExecuteHooks(w, w.status, a).world.status != w.status
  {
    hide RunHooks;
    var groups := w.status.groups;
    CurrentGroupMeaning(groups, 0);
    if CurrentGroup(groups).Work? {
      var g := CurrentGroup(groups).index;
      ExecuteWork(w, a, g);
      OpenHookChanges(w.jobs, groups[g], a);
      assert groups[g := RunHooks(w.jobs, groups[g], a.hook, |groups[g]|).group][g] != groups[g];
    }
  }

  lemma OpenHookMoves(jobs: seq<Job>, hook: HookStatus, a: Answers)
    requires NoneUnfinished(jobs) && FaultFree(a) && hook.state in {Pending, InProgress}
    ensures HookStep(jobs, hook, a.hook(hook.hookName)).hook.state != hook.state
  {
    FinishedOutcome(jobs, LabelOf(hook));
    var h := a.hook(hook.hookName);
    assert h.hookFound && h.jobsListed && h.urlsSigned && h.create == Created;
  }

  lemma OpenHookChanges(jobs: seq<Job>, group: seq<HookStatus>, a: Answers)
    requires NoneUnfinished(jobs) && FaultFree(a)
    requires exists k :: 0 <= k < |group| && group[k].state in {Pending, InProgress} && AllCompleted(group[..k])
    ensures RunHooks(jobs, group, a.hook, |group|).group != group
  {
    hide RunHooks, HookStep;
    var k :| 0 <= k < |group| && group[k].state in {Pending, InProgress} && AllCompleted(group[..k]);
    CompletedHooksAreSkipped(jobs, group, a.hook, k);
    OpenHookMoves(jobs, group[k], a);
    HookKeepsItsStep(jobs, group, a.hook, k, |group|);
  }

  lemma {:induction false} CompletedHooksAreSkipped(jobs: seq<Job>, group: seq<HookStatus>,
                                                    answer: string -> HookAnswer, n: nat)
    requires n <= |group| && AllCompleted(group[..n])
    ensures RunHooks(jobs, group, answer, n).jobs == jobs && RunHooks(jobs, group, answer, n).group == group
    decreases n
  {
    if n > 0 {
      assert group[..n][n - 1] == group[n - 1];
      assert group[..n - 1] == group[..n][..n - 1];
      CompletedHooksAreSkipped(jobs, group, answer, n - 1);
    }
  }

  /** A hook of the group ends up as its own step left it. */
  lemma {:induction false} HookKeepsItsStep(jobs: seq<Job>, group: seq<HookStatus>, answer: string -> HookAnswer,
                                            k: nat, n: nat)
    requires k < n <= |group|
    ensures RunHooks(jobs, group, answer, n).group[k] ==
            HookStep(RunHooks(jobs, group, answer, k).jobs, group[k], answer(group[k].hookName)).hook
    decreases n
  {
    hide HookStep, RunHooks;
    RunHooksNext(jobs, group, answer, n - 1);
    if k < n - 1 {
      HookKeepsItsStep(jobs, group, answer, k, n - 1);
    }
  }

  // ---------------------------------------------------------------- completion

  const SUCCESS := JobStatus(1, 0, [])

  /** Every job from the `i`-th on succeeds. */
  function Successes(i: nat, n: nat): seq<Event>
    requires i <= n
    decreases n - i
  {
    if i == n then [] else [JobMoved(i, SUCCESS)] + Successes(i + 1, n)
  }

  /** Rounds in which all jobs succeed and then one reconcile runs. */
  function Rounds(hooks: seq<HookSpec>, w: World, rounds: seq<Answers>): World
    decreases |rounds|
  {
    if rounds == [] then w
    else Rounds(hooks, Run(hooks, w, Successes(0, |w.jobs|) + [Reconciled(rounds[0])]), rounds[1..])
  }

  ghost predicate NoneFailed(group: seq<HookStatus>) {
    forall k :: 0 <= k < |group| ==> group[k].state in {Pending, InProgress, Completed}
  }

  ghost predicate NoneExceeded(jobs: seq<Job>) {
    forall i :: 0 <= i < |jobs| ==> !BackoffLimitExceeded(jobs[i].status)
  }

  /** Nothing has failed so far. */
  ghost predicate Healthy(w: World) {
    && w.status.state != Errored
    && NoneExceeded(w.jobs)
    && forall g :: 0 <= g < |w.status.groups| ==> NoneFailed(w.status.groups[g])
  }

  /** A healthy scan that is not wedged reaches Done within as many fault-free rounds as it has potential. */
  lemma {:induction false} FaultFreeRoundsFinish(hooks: seq<HookSpec>, w: World, rounds: seq<Answers>)
    requires DistinctNames(hooks) && Inv(hooks, w) && Healthy(w) && !Wedged(w)
    requires forall a <- rounds :: FaultFree(a)
    requires |rounds| >= Potential(hooks, w.status)
    ensures Rounds(hooks, w, rounds).status.state == Done
    decreases |rounds|
  {
    if rounds != [] {
      assert rounds[0] in rounds;
      var next := Run(hooks, w, Successes(0, |w.jobs|) + [Reconciled(rounds[0])]);
      RunKeepsInv(hooks, w, Successes(0, |w.jobs|) + [Reconciled(rounds[0])]);
      HealthyRound(hooks, w, rounds[0]);
      FaultFreeRoundsFinish(hooks, next, rounds[1..]);
    }
  }

  /** From submission, 6 + 2 * |hooks| fault-free rounds are enough. */
  lemma SubmittedScansFinish(hooks: seq<HookSpec>, w: World, rounds: seq<Answers>)
    requires DistinctNames(hooks) && Submitted(w)
    requires forall a <- rounds :: FaultFree(a)
    requires |rounds| >= 6 + 2 * |hooks|
    ensures Rounds(hooks, w, rounds).status.state == Done
  {
    FaultFreeRoundsFinish(hooks, w, rounds);
  }

  lemma {:induction false} RunAppend(hooks: seq<HookSpec>, w: World, first: seq<Event>, last: Event)
    ensures Run(hooks, w, first + [last]) == Step(hooks, Run(hooks, w, first), last)
    decreases |first|
  {
    if first == [] {
      assert first + [last] == [last];
      assert Run(hooks, w, [last]) == Run(hooks, Step(hooks, w, last), [last][1..]);
    } else {
      assert (first + [last])[1..] == first[1..] + [last];
      RunAppend(hooks, Step(hooks, w, first[0]), first[1..], last);
    }
  }

  lemma {:induction false} SuccessesMeaning(hooks: seq<HookSpec>, w: World, i: nat)
    requires i <= |w.jobs| && NoneExceeded(w.jobs)
    ensures var end := Run(hooks, w, Successes(i, |w.jobs|));
      && end.status == w.status && |end.jobs| == |w.jobs|
      && (forall n :: 0 <= n < |w.jobs| ==> end.jobs[n].jobLabel == w.jobs[n].jobLabel)
      && (forall n :: 0 <= n < i ==> end.jobs[n] == w.jobs[n])
      && (forall n :: i <= n < |w.jobs| ==> end.jobs[n].status == SUCCESS)
    decreases |w.jobs| - i
  {
    hide *;
    SuccessesNext(i, |w.jobs|);
    RunNext(hooks, w, Successes(i, |w.jobs|));
    if i < |w.jobs| {
      var next := Step(hooks, w, JobMoved(i, SUCCESS));
      JobSucceeds(hooks, w, i);
      assert Successes(i, |w.jobs|)[1..] == Successes(i + 1, |w.jobs|);
      SuccessesMeaning(hooks, next, i + 1);
    }
  }

  lemma SuccessesNext(i: nat, n: nat)
    requires i <= n
    ensures Successes(i, n) == if i == n then [] else [JobMoved(i, SUCCESS)] + Successes(i + 1, n)
  {}

  lemma RunNext(hooks: seq<HookSpec>, w: World, events: seq<Event>)
    ensures Run(hooks, w, events) == if events == [] then w else Run(hooks, Step(hooks, w, events[0]), events[1..])
  {
    hide Step;
  }

  lemma JobSucceeds(hooks: seq<HookSpec>, w: World, i: nat)
    requires i < |w.jobs| && NoneExceeded(w.jobs)
    ensures Step(hooks, w, JobMoved(i, SUCCESS)) == w.(jobs := w.jobs[i := w.jobs[i].(status := SUCCESS)])
    ensures NoneExceeded(Step(hooks, w, JobMoved(i, SUCCESS)).jobs)
  {
    hide Reconcile;
  }

  /** One round moves a healthy, unwedged scan strictly forward and leaves it healthy and unwedged. */
  lemma HealthyRound(hooks: seq<HookSpec>, w: World, a: Answers)
    requires DistinctNames(hooks) && Inv(hooks, w) && Healthy(w) && !Wedged(w) && FaultFree(a)
    ensures var next := Run(hooks, w, Successes(0, |w.jobs|) + [Reconciled(a)]);
      && Healthy(next) && !Wedged(next)
      && (next.status.state == Done || Potential(hooks, next.status) < Potential(hooks, w.status))
  {
    var settled := Run(hooks, w, Successes(0, |w.jobs|));
    RunAppend(hooks, w, Successes(0, |w.jobs|), Reconciled(a));
    JobsSettle(hooks, w);
    assert Step(hooks, settled, Reconciled(a)) == Reconcile(settled, hooks, a).world;
    if w.status.state != Done {
      assert !Terminal(settled.status.state);
      hide *;
      AdvancesUnlessWedged(hooks, settled, a);
      ChangeUsesPotential(hooks, settled, Reconciled(a));
      HealthyReconcile(hooks, settled, a);
    } else {
      hide Inv, Wedged, Potential, Run, FaultFree, DistinctNames;
      HealthyReconcile(hooks, settled, a);
      TerminalIsKept(hooks, settled, a);
    }
  }

  /** All jobs succeed: the scan stays healthy and unwedged. */
  lemma JobsSettle(hooks: seq<HookSpec>, w: World)
    requires DistinctNames(hooks) && Inv(hooks, w) && Healthy(w) && !Wedged(w)
    ensures var settled := Run(hooks, w, Successes(0, |w.jobs|));
      && Inv(hooks, settled) && Healthy(settled) && !Wedged(settled)
      && NoneUnfinished(settled.jobs) && settled.status == w.status
  {
    SuccessesMeaning(hooks, w, 0);
    var settled := Run(hooks, w, Successes(0, |w.jobs|));
    SameLabels(w.jobs, settled.jobs);
    hide Inv, HasJob, Run;
    RunKeepsInv(hooks, w, Successes(0, |w.jobs|));
  }

  lemma SameLabels(before: seq<Job>, after: seq<Job>)
    requires |before| == |after| && forall n :: 0 <= n < |before| ==> after[n].jobLabel == before[n].jobLabel
    ensures forall l :: HasJob(after, l) <==> HasJob(before, l)
  {}

  lemma HealthyOutcome(jobs: seq<Job>, jobLabel: JobLabel)
    requires NoneExceeded(jobs)
    ensures Outcome(Labelled(jobs, jobLabel)) != JobsFailed
  {
    LabelledMembers(jobs, jobLabel);
    var found := Labelled(jobs, jobLabel);
    forall i | 0 <= i < |found| ensures !BackoffLimitExceeded(found[i].status) {
      assert found[i] in found;
      var n :| 0 <= n < |jobs| && jobs[n] == found[i];
    }
  }

  lemma HealthyReconcile(hooks: seq<HookSpec>, w: World, a: Answers)
    requires Inv(hooks, w) && Healthy(w) && !Wedged(w) && FaultFree(a)
    ensures Healthy(Reconcile(w, hooks, a).world) && !Wedged(Reconcile(w, hooks, a).world)
  {
    hide HooksInv;
    if w.status.state in {Unset, Init, ScanCompleted} {
      HealthyStart(hooks, w, a);
    } else if w.status.state in {Scanning, Parsing} {
      HealthyAwait(hooks, w, a);
    } else if w.status.state == HookProcessing {
      hide ExecuteHooks;
      HealthyHooks(w, a);
    } else if w.status.state == ParseCompleted {
      HealthySetHooks(hooks, w, a);
    }
  }

  lemma HealthySetHooks(hooks: seq<HookSpec>, w: World, a: Answers)
    requires w.status.state == ParseCompleted && Healthy(w) && FaultFree(a)
    ensures Healthy(Reconcile(w, hooks, a).world) && !Wedged(Reconcile(w, hooks, a).world)
  {
    ScheduleIsHealthy(hooks);
    assert Reconcile(w, hooks, a).world == w.(status := w.status.(groups := Schedule(hooks), state := HookProcessing));
    hide Schedule, NoneFailed;
  }

  lemma HealthyStart(hooks: seq<HookSpec>, w: World, a: Answers)
    requires w.status.state in {Unset, Init, ScanCompleted} && Healthy(w) && !Wedged(w) && FaultFree(a)
    ensures Healthy(Reconcile(w, hooks, a).world) && !Wedged(Reconcile(w, hooks, a).world)
  {
    LabelledMembers(w.jobs, Scanner);
    LabelledMembers(w.jobs, Parser);
    assert w.status.state == ScanCompleted ==> Reconcile(w, hooks, a) == StartParser(w, w.status, a);
    hide Labelled;
  }

  lemma HealthyAwait(hooks: seq<HookSpec>, w: World, a: Answers)
    requires w.status.state in {Scanning, Parsing} && Healthy(w) && FaultFree(a)
    requires w.status.state == Scanning ==> !HasJob(w.jobs, Parser)
    ensures Healthy(Reconcile(w, hooks, a).world) && !Wedged(Reconcile(w, hooks, a).world)
  {
    var jobLabel := if w.status.state == Scanning then Scanner else Parser;
    HealthyOutcome(w.jobs, jobLabel);
    hide Labelled, Outcome;
  }

  lemma ScheduleIsHealthy(hooks: seq<HookSpec>)
    ensures forall g :: 0 <= g < |Schedule(hooks)| ==> NoneFailed(Schedule(hooks)[g])
  {
    forall g, k | 0 <= g < |Schedule(hooks)| && 0 <= k < |Schedule(hooks)[g]|
      ensures Schedule(hooks)[g][k].state == Pending
    {
      PlacedHooksAreGiven(InitialStatuses(hooks), g, k);
    }
  }

  lemma HealthyHooks(w: World, a: Answers)
    requires w.status.state == HookProcessing && Healthy(w) && FaultFree(a)
    ensures Healthy(ExecuteHooks(w, w.status, a).world)
    ensures ExecuteHooks(w, w.status, a).world.status.state in {HookProcessing, Done}
  {
    hide RunHooks;
    var groups := w.status.groups;
    CurrentGroupMeaning(groups, 0);
    if CurrentGroup(groups).Work? {
      var g := CurrentGroup(groups).index;
      ExecuteWork(w, a, g);
      HealthyRunHooks(w.jobs, groups[g], a, |groups[g]|);
    } else if !CurrentGroup(groups).Finished? {
      assert false;
    }
  }

  lemma HealthyHookStep(jobs: seq<Job>, hook: HookStatus, a: Answers)
    requires FaultFree(a) && NoneExceeded(jobs) && hook.state in {Pending, InProgress, Completed}
    ensures var run := HookStep(jobs, hook, a.hook(hook.hookName));
      !run.err && NoneExceeded(run.jobs) && run.hook.state in {Pending, InProgress, Completed}
  {
    HealthyOutcome(jobs, LabelOf(hook));
    var h := a.hook(hook.hookName);
    assert h.hookFound && h.jobsListed && h.urlsSigned && h.create == Created;
  }

  lemma {:induction false} HealthyRunHooks(jobs: seq<Job>, group: seq<HookStatus>, a: Answers, n: nat)
    requires FaultFree(a) && NoneExceeded(jobs) && NoneFailed(group) && n <= |group|
    ensures var run := RunHooks(jobs, group, a.hook, n);
      !run.failed && NoneExceeded(run.jobs) && NoneFailed(run.group)
    decreases n
  {
    hide HookStep, RunHooks, FaultFree, NoneExceeded;
    if n == 0 {
      RunHooksNone(jobs, group, a.hook);
    } else {
      HealthyRunHooks(jobs, group, a, n - 1);
      RunHooksNext(jobs, group, a.hook, n - 1);
      HealthyHookStep(RunHooks(jobs, group, a.hook, n - 1).jobs, group[n - 1], a);
    }
  }
}
