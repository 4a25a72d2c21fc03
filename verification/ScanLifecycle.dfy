/** One reconcile of a Scan as a step on what the cluster stores: the scan's status and its jobs.
    Specifies operator/controllers/execution/scans: scan_controller.go, scan_reconciler.go,
    parse_reconciler.go and hook_reconciler.go. ScanReconciler.dfy holds the program. */
module ScanLifecycle {
  import opened Options
  import opened HookGroups
  import opened Jobs

  datatype ScanState =
    Unset | Init | Scanning | ScanCompleted | Parsing | ParseCompleted | HookProcessing | Errored | Done

  datatype ScanStatus = ScanStatus(state: ScanState, groups: seq<seq<HookStatus>>, finishedAt: Option<int>)

  datatype World = World(status: ScanStatus, jobs: seq<Job>)

  /** A status write is stored, loses an optimistic-locking conflict (which the controller swallows),
      is refused with another error, or is never reached because the controller died. */
  datatype WriteOutcome = Stored | Conflict | Refused | Crashed

  /** A job creation can also take effect without the controller learning of it. */
  datatype CreateOutcome = Created | NotCreated | CreatedUnacknowledged

  datatype HookAnswer = HookAnswer(hookFound: bool, jobsListed: bool, urlsSigned: bool, create: CreateOutcome,
                                   jobName: string)

  /** Everything the environment decides during one reconcile. A controller that dies (`Crashed`) while
      it runs hooks has handled the first `hooksBeforeCrash` hooks of the current group. */
  datatype Answers = Answers(
    suspended: bool, now: int,
    jobsListed: bool, finalizerStored: bool, definitionFound: bool, urlsSigned: bool,
    create: CreateOutcome, jobName: string,
    write: WriteOutcome, hooksBeforeCrash: nat, hook: string -> HookAnswer)

  datatype Reply = Reply(world: World, err: bool)

  predicate Terminal(state: ScanState) { state == Done || state == Errored }

  function Stamp(status: ScanStatus, now: int): ScanStatus {
    if Terminal(status.state) && status.finishedAt.None? then status.(finishedAt := Some(now)) else status
  }

  function Persist(w: World, status: ScanStatus, a: Answers): Reply {
    match a.write
    case Stored => Reply(w.(status := Stamp(status, a.now)), false)
    case Conflict => Reply(w, false)
    case _ => Reply(w, true)
  }

  function PersistError(w: World, status: ScanStatus, a: Answers): Reply {
    Reply(Persist(w, status.(state := Errored), a).world, true)
  }

  // ---------------------------------------------------------------- scanner and parser stage

  function StartScan(w: World, status: ScanStatus, a: Answers): Reply {
    if !a.jobsListed then Reply(w, true)
    else if Labelled(w.jobs, Scanner) != [] then Reply(w, false)
    else if !a.finalizerStored then Reply(w, true)
    else if !a.definitionFound then PersistError(w, status, a)
    else if a.create.NotCreated? then Reply(w, true)
    else
      var w' := w.(jobs := w.jobs + [Job(a.jobName, Scanner, FRESH)]);
      if a.create.CreatedUnacknowledged? || !a.urlsSigned then Reply(w', true)
      else Reply(Persist(w', status.(state := Scanning), a).world, a.write == Crashed)
  }

  function StartParser(w: World, status: ScanStatus, a: Answers): Reply {
    if !a.jobsListed then Reply(w, true)
    else if Labelled(w.jobs, Parser) != [] then Reply(w, false)
    else if !a.definitionFound then PersistError(w, status, a)
    else if !a.urlsSigned || a.create.NotCreated? then Reply(w, true)
    else
      var w' := w.(jobs := w.jobs + [Job(a.jobName, Parser, FRESH)]);
      if a.create.CreatedUnacknowledged? then Reply(w', true)
      else Persist(w', status.(state := Parsing), a)
  }

  /** Shared by checkIfScanIsCompleted and checkIfParsingIsCompleted. */
  function AwaitJob(w: World, status: ScanStatus, jobLabel: JobLabel, next: ScanState, a: Answers): Reply {
    if !a.jobsListed then Reply(w, true)
    else match Outcome(Labelled(w.jobs, jobLabel))
      case JobsCompleted => Persist(w, status.(state := next), a)
      case JobsFailed => Persist(w, status.(state := Errored), a)
      case JobsIncomplete => Reply(w, false)
  }

  // ---------------------------------------------------------------- hooks

  function SetHookStatus(w: World, status: ScanStatus, hooks: seq<HookSpec>, a: Answers): Reply {
    if !a.definitionFound then Reply(w, true)
    else Persist(w, status.(groups := OrderedGroups(InitialStatuses(hooks)), state := HookProcessing), a)
  }

  function JobType(hookType: HookType): string {
    match hookType
    case ReadOnly => "read-only-hook"
    case ReadAndWrite => "read-and-write-hook"
    case Unsupported => ""
  }

  function LabelOf(hook: HookStatus): JobLabel { Hook(JobType(hook.hookType), hook.hookName) }

  datatype HookRun = HookRun(jobs: seq<Job>, hook: HookStatus, err: bool)

  function StartHook(jobs: seq<Job>, hook: HookStatus, a: HookAnswer): HookRun {
    if !a.hookFound || !a.jobsListed then HookRun(jobs, hook, true)
    else if Labelled(jobs, LabelOf(hook)) != [] then
      HookRun(jobs, hook.(jobName := Labelled(jobs, LabelOf(hook))[0].name, state := InProgress), false)
    else if !a.urlsSigned || a.create.NotCreated? then HookRun(jobs, hook, true)
    else
      var jobs' := jobs + [Job(a.jobName, LabelOf(hook), FRESH)];
      if a.create.CreatedUnacknowledged? then HookRun(jobs', hook, true)
      else HookRun(jobs', hook.(jobName := a.jobName, state := InProgress), false)
  }

  function AwaitHook(jobs: seq<Job>, hook: HookStatus, a: HookAnswer): HookRun {
    if !a.jobsListed then HookRun(jobs, hook, true)
    else match Outcome(Labelled(jobs, LabelOf(hook)))
      case JobsCompleted => HookRun(jobs, hook.(state := Completed), false)
      case JobsFailed => HookRun(jobs, hook.(state := if hook.state == Pending then Cancelled else Failed), false)
      case JobsIncomplete => HookRun(jobs, hook, false)
  }

  function HookStep(jobs: seq<Job>, hook: HookStatus, a: HookAnswer): HookRun {
    match hook.state
    case Pending => StartHook(jobs, hook, a)
    case InProgress => AwaitHook(jobs, hook, a)
    case _ => HookRun(jobs, hook, false)
  }

  /** `err` is the outcome of the last hook handled, `failed` whether any hook was in error. */
  datatype GroupRun = GroupRun(jobs: seq<Job>, group: seq<HookStatus>, failed: bool, err: bool)

  /** The effect of handling the first `n` hooks of a group, in order. */
  function RunHooks(jobs: seq<Job>, group: seq<HookStatus>, answer: string -> HookAnswer, n: nat): (r: GroupRun)
    requires n <= |group|
    ensures |r.group| == |group|
    ensures forall k :: n <= k < |group| ==> r.group[k] == group[k]
  {
    if n == 0 then GroupRun(jobs, group, false, false)
    else
      var before := RunHooks(jobs, group, answer, n - 1);
      var step := HookStep(before.jobs, group[n - 1], answer(group[n - 1].hookName));
      GroupRun(step.jobs, before.group[n - 1 := step.hook], before.failed || step.err, step.err)
  }

  function HooksHandled(group: seq<HookStatus>, a: Answers): nat {
    if a.write == Crashed && a.hooksBeforeCrash < |group| then a.hooksBeforeCrash else |group|
  }

  /** The in-memory status once a group has run that far. */
  function AfterHooks(status: ScanStatus, g: nat, run: GroupRun): ScanStatus
    requires g < |status.groups|
  {
    status.(groups := status.groups[g := run.group], state := if run.failed then Errored else status.state)
  }

  function ExecuteHooks(w: World, status: ScanStatus, a: Answers): Reply {
    CurrentGroupMeaning(status.groups, 0);
    match CurrentGroup(status.groups)
    case Finished => Persist(w, status.(state := Done), a)
    case Work(g) =>
      var group := status.groups[g];
      var run := RunHooks(w.jobs, group, a.hook, HooksHandled(group, a));
      var reply := Persist(w.(jobs := run.jobs), AfterHooks(status, g, run), a);
      Reply(reply.world, reply.err || run.err)
    case _ => if status.state == Errored then Reply(w, false) else PersistError(w, status, a)
  }

  lemma RunHooksNone(jobs: seq<Job>, group: seq<HookStatus>, answer: string -> HookAnswer)
    ensures RunHooks(jobs, group, answer, 0) == GroupRun(jobs, group, false, false)
  {}

  lemma RunHooksNext(jobs: seq<Job>, group: seq<HookStatus>, answer: string -> HookAnswer, k: nat)
    requires k < |group|
    ensures var run := RunHooks(jobs, group, answer, k);
      var step := HookStep(run.jobs, group[k], answer(group[k].hookName));
      RunHooks(jobs, group, answer, k + 1) ==
        GroupRun(step.jobs, run.group[k := step.hook], run.failed || step.err, step.err)
  {
    hide HookStep;
  }

  /** The in-memory status once one more hook is handled. */
  function AfterHook(status: ScanStatus, g: nat, k: nat, step: HookRun): ScanStatus
    requires g < |status.groups| && k < |status.groups[g]|
  {
    status.(groups := status.groups[g := status.groups[g][k := step.hook]],
            state := if step.err then Errored else status.state)
  }

  /** The jobs, the error and the in-memory status once the first n hooks of the g-th group are handled. */
  ghost predicate Handled(jobs: seq<Job>, status: ScanStatus, g: nat, answer: string -> HookAnswer, n: nat,
                          jobs': seq<Job>, err: bool, status': ScanStatus)
    requires g < |status.groups| && n <= |status.groups[g]|
  {
    var run := RunHooks(jobs, status.groups[g], answer, n);
    jobs' == run.jobs && err == run.err && status' == AfterHooks(status, g, run)
  }

  lemma NoneHandled(jobs: seq<Job>, status: ScanStatus, g: nat, answer: string -> HookAnswer)
    requires g < |status.groups|
    ensures Handled(jobs, status, g, answer, 0, jobs, false, status)
  {}

  lemma HandledMeaning(jobs: seq<Job>, status: ScanStatus, g: nat, answer: string -> HookAnswer, n: nat,
                       jobs': seq<Job>, err: bool, status': ScanStatus)
    requires g < |status.groups| && n <= |status.groups[g]| && Handled(jobs, status, g, answer, n, jobs', err, status')
    ensures |status'.groups| == |status.groups| && |status'.groups[g]| == |status.groups[g]|
    ensures var run := RunHooks(jobs, status.groups[g], answer, n);
      jobs' == run.jobs && err == run.err && status' == AfterHooks(status, g, run)
  {}

  lemma NextHandled(jobs: seq<Job>, status: ScanStatus, g: nat, answer: string -> HookAnswer, n: nat,
                    jobs': seq<Job>, err: bool, status': ScanStatus)
    requires g < |status.groups| && n < |status.groups[g]| && Handled(jobs, status, g, answer, n, jobs', err, status')
    ensures |status'.groups| == |status.groups| && |status'.groups[g]| == |status.groups[g]|
    ensures var step := HookStep(jobs', status'.groups[g][n], answer(status.groups[g][n].hookName));
      Handled(jobs, status, g, answer, n + 1, step.jobs, step.err, AfterHook(status', g, n, step))
  {
    hide HookStep, RunHooks;
    RunHooksNext(jobs, status.groups[g], answer, n);
  }

  lemma ExecuteWork(w: World, a: Answers, g: nat)
    requires CurrentGroup(w.status.groups) == Work(g)
    ensures g < |w.status.groups|
    ensures var run := RunHooks(w.jobs, w.status.groups[g], a.hook, HooksHandled(w.status.groups[g], a));
      ExecuteHooks(w, w.status, a).world == Persist(w.(jobs := run.jobs), AfterHooks(w.status, g, run), a).world
  {
    hide RunHooks;
    CurrentGroupMeaning(w.status.groups, 0);
  }

  // ---------------------------------------------------------------- dispatch

  /** An empty state in the stored object is treated as Init in memory. */
  function Loaded(status: ScanStatus): ScanStatus {
    if status.state == Unset then status.(state := Init) else status
  }

  function Reconcile(w: World, hooks: seq<HookSpec>, a: Answers): Reply {
    var status := Loaded(w.status);
    if a.suspended && !Terminal(status.state) then Reply(w, false)
    else match status.state
      case Init => StartScan(w, status, a)
      case Scanning => AwaitJob(w, status, Scanner, ScanCompleted, a)
      case ScanCompleted => StartParser(w, status, a)
      case Parsing => AwaitJob(w, status, Parser, ParseCompleted, a)
      case ParseCompleted => SetHookStatus(w, status, hooks, a)
      case HookProcessing => ExecuteHooks(w, status, a)
      case _ => Reply(w, false)
  }
}
