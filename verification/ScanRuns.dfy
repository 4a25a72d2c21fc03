/** Runs of the scan controller: any sequence of reconciles, with lost or refused status writes and crashes,
    interleaved with any progress of the jobs. Every list call sees all earlier creations. */
module ScanRuns {
  import opened Options
  import opened HookGroups
  import opened HookOrder
  import opened Jobs
  import opened ScanLifecycle

  datatype Event = Reconciled(answers: Answers) | JobMoved(index: nat, after: JobStatus)

  function Step(hooks: seq<HookSpec>, w: World, e: Event): World {
    match e
    case Reconciled(a) => Reconcile(w, hooks, a).world
    case JobMoved(i, after) =>
      if i < |w.jobs| && Progresses(w.jobs[i].status, after) then
        w.(jobs := w.jobs[i := w.jobs[i].(status := after)])
      else w
  }

  function Run(hooks: seq<HookSpec>, w: World, events: seq<Event>): World
    decreases |events|
  {
    if events == [] then w else Run(hooks, Step(hooks, w, events[0]), events[1..])
  }

  /** A scan as it is first submitted. */
  ghost predicate Submitted(w: World) {
    w.status.state in {Unset, Init} && w.status.groups == [] && w.status.finishedAt == None && w.jobs == []
  }

  ghost predicate DistinctNames(hooks: seq<HookSpec>) {
    forall i, j :: 0 <= i < j < |hooks| ==> hooks[i].name != hooks[j].name
  }

  function Schedule(hooks: seq<HookSpec>): seq<seq<HookStatus>> { OrderedGroups(InitialStatuses(hooks)) }

  // ---------------------------------------------------------------- the invariant

  ghost predicate DistinctLabels(jobs: seq<Job>) {
    forall i, j :: 0 <= i < j < |jobs| ==> jobs[i].jobLabel != jobs[j].jobLabel
  }

  ghost predicate Succeeded(jobs: seq<Job>, jobLabel: JobLabel) {
    && HasJob(jobs, jobLabel)
    && forall i :: 0 <= i < |jobs| && jobs[i].jobLabel == jobLabel ==> jobs[i].status.succeeded > 0
  }

  ghost predicate SameHook(a: HookStatus, b: HookStatus) {
    a.hookName == b.hookName && a.priority == b.priority && a.hookType == b.hookType
  }

  /** The stored groups are the schedule, with states and job names filled in. */
  ghost predicate Aligned(groups: seq<seq<HookStatus>>, schedule: seq<seq<HookStatus>>) {
    && |groups| == |schedule|
    && (forall g :: 0 <= g < |groups| ==> |groups[g]| == |schedule[g]|)
    && (forall g, k :: 0 <= g < |groups| && 0 <= k < |groups[g]| ==> SameHook(groups[g][k], schedule[g][k]))
  }

  ghost predicate HookFact(jobs: seq<Job>, hook: HookStatus) {
    && hook.state != Cancelled
    && (hook.state != Pending ==> HasJob(jobs, LabelOf(hook)))
    && (hook.state == Completed ==> Succeeded(jobs, LabelOf(hook)))
  }

  ghost predicate EarlierCompleted(groups: seq<seq<HookStatus>>, g: nat)
    requires g <= |groups|
  {
    forall i :: 0 <= i < g ==> AllCompleted(groups[i])
  }

  ghost predicate Placed(groups: seq<seq<HookStatus>>, jobLabel: JobLabel) {
    exists g, k :: 0 <= g < |groups| && 0 <= k < |groups[g]| && LabelOf(groups[g][k]) == jobLabel
  }

  ghost predicate HooksInv(groups: seq<seq<HookStatus>>, jobs: seq<Job>) {
    && DistinctLabels(jobs)
    && (forall g, k :: 0 <= g < |groups| && 0 <= k < |groups[g]| ==> HookFact(jobs, groups[g][k]))
    && (forall g, k :: 0 <= g < |groups| && 0 <= k < |groups[g]| && HasJob(jobs, LabelOf(groups[g][k])) ==>
          EarlierCompleted(groups, g))
    && (forall i :: 0 <= i < |jobs| && jobs[i].jobLabel.Hook? ==> Placed(groups, jobs[i].jobLabel))
  }

  /** How far a state is along the pipeline; Errored gives no information. */
  function Stage(state: ScanState): nat {
    match state
    case Unset => 0
    case Init => 0
    case Scanning => 1
    case ScanCompleted => 2
    case Parsing => 3
    case ParseCompleted => 4
    case HookProcessing => 5
    case Done => 6
    case Errored => 0
  }

  ghost predicate PipelineInv(state: ScanState, jobs: seq<Job>) {
    && (Stage(state) >= 1 ==> HasJob(jobs, Scanner))
    && (Stage(state) >= 2 ==> Succeeded(jobs, Scanner))
    && (Stage(state) >= 3 ==> HasJob(jobs, Parser))
    && (Stage(state) >= 4 ==> Succeeded(jobs, Parser))
    && (HasJob(jobs, Parser) ==> Succeeded(jobs, Scanner) && (Stage(state) >= 2 || state == Errored))
    && (forall i :: 0 <= i < |jobs| && jobs[i].jobLabel.Hook? ==> Succeeded(jobs, Parser))
  }

  ghost predicate StatusInv(hooks: seq<HookSpec>, status: ScanStatus) {
    && (status.groups == [] || Aligned(status.groups, Schedule(hooks)))
    && (Stage(status.state) >= 5 ==> Aligned(status.groups, Schedule(hooks)))
    && (status.state != Errored && Stage(status.state) < 5 ==> status.groups == [])
    && (status.state == Done ==> EarlierCompleted(status.groups, |status.groups|))
    && (status.finishedAt.Some? <==> Terminal(status.state))
  }

  ghost predicate Inv(hooks: seq<HookSpec>, w: World) {
    StatusInv(hooks, w.status) && PipelineInv(w.status.state, w.jobs) && HooksInv(w.status.groups, w.jobs)
  }

  // ---------------------------------------------------------------- main results

  /** Everything below holds in every world a run can reach. */
  lemma {:induction false} RunKeepsInv(hooks: seq<HookSpec>, w: World, events: seq<Event>)
    requires DistinctNames(hooks) && Inv(hooks, w)
    ensures Inv(hooks, Run(hooks, w, events))
    decreases |events|
  {
    if events != [] {
      StepKeepsInv(hooks, w, events[0]);
      RunKeepsInv(hooks, Step(hooks, w, events[0]), events[1..]);
    }
  }

  lemma ReachedInv(hooks: seq<HookSpec>, w: World, events: seq<Event>)
    requires DistinctNames(hooks) && Submitted(w)
    ensures Inv(hooks, Run(hooks, w, events))
  {
    assert Inv(hooks, w);
    RunKeepsInv(hooks, w, events);
  }

  /** At most one scanner job, one parser job and one job per hook is ever created. */
  lemma AtMostOneJobEach(hooks: seq<HookSpec>, w: World, events: seq<Event>, i: nat, j: nat)
    requires DistinctNames(hooks) && Submitted(w)
    requires var jobs := Run(hooks, w, events).jobs; i < |jobs| && j < |jobs| && jobs[i].jobLabel == jobs[j].jobLabel
    ensures i == j
  {
    ReachedInv(hooks, w, events);
  }

  /** The documented order: once a hook has a job, every hook of higher priority, and every ReadAndWrite hook of
      its own priority if it is ReadOnly, has a job that succeeded. */
  lemma HooksRunInPriorityOrder(hooks: seq<HookSpec>, w: World, events: seq<Event>, first: HookStatus,
                                second: HookStatus)
    requires DistinctNames(hooks) && Submitted(w)
    requires first in InitialStatuses(hooks) && second in InitialStatuses(hooks)
    requires first.hookType != Unsupported && second.hookType != Unsupported && MustPrecede(first, second)
    requires HasJob(Run(hooks, w, events).jobs, LabelOf(second))
    ensures Succeeded(Run(hooks, w, events).jobs, LabelOf(first))
  {
    ReachedInv(hooks, w, events);
    var end := Run(hooks, w, events);
    var groups, schedule := end.status.groups, Schedule(hooks);
    var n :| 0 <= n < |end.jobs| && end.jobs[n].jobLabel == LabelOf(second);
    assert Placed(groups, LabelOf(second));
    var g, k :| 0 <= g < |groups| && 0 <= k < |groups[g]| && LabelOf(groups[g][k]) == LabelOf(second);
    GivenHooksArePlaced(InitialStatuses(hooks), first);
    var f, l :| 0 <= f < |schedule| && 0 <= l < |schedule[f]| && schedule[f][l] == first;
    HookIsScheduled(hooks, second, g, k, groups);
    PrecedingPlaceIsEarlier(hooks, f, l, g, k);
    assert EarlierCompleted(groups, g);
    assert SameHook(groups[f][l], schedule[f][l]);
    assert groups[f][l].state == Completed;
    assert HookFact(end.jobs, groups[f][l]);
  }

  /** Two hook jobs that are both unfinished belong to ReadOnly hooks of one priority; in particular a ReadAndWrite
      hook never runs beside another hook. */
  lemma OnlyReadOnlyHooksOverlap(hooks: seq<HookSpec>, w: World, events: seq<Event>, i: nat, j: nat)
    requires DistinctNames(hooks) && Submitted(w)
    requires var jobs := Run(hooks, w, events).jobs;
      i < j < |jobs| && jobs[i].jobLabel.Hook? && jobs[j].jobLabel.Hook? && Unfinished(jobs[i]) && Unfinished(jobs[j])
    ensures exists a, b ::
              && a in InitialStatuses(hooks) && b in InitialStatuses(hooks)
              && LabelOf(a) == Run(hooks, w, events).jobs[i].jobLabel &&
                 LabelOf(b) == Run(hooks, w, events).jobs[j].jobLabel
              && a.hookType == ReadOnly && b.hookType == ReadOnly && a.priority == b.priority
  {
    ReachedInv(hooks, w, events);
    var end := Run(hooks, w, events);
    var jobs, groups, schedule := end.jobs, end.status.groups, Schedule(hooks);
    assert Placed(groups, jobs[i].jobLabel) && Placed(groups, jobs[j].jobLabel);
    var g, k :| 0 <= g < |groups| && 0 <= k < |groups[g]| && LabelOf(groups[g][k]) == jobs[i].jobLabel;
    var f, l :| 0 <= f < |groups| && 0 <= l < |groups[f]| && LabelOf(groups[f][l]) == jobs[j].jobLabel;
    UnfinishedBlocksLater(groups, jobs, i, g, k, f, l);
    UnfinishedBlocksLater(groups, jobs, j, f, l, g, k);
    assert g == f && k != l;
    assert SameHook(groups[g][k], schedule[g][k]) && SameHook(groups[g][l], schedule[g][l]);
    SharedGroupIsReadOnly(hooks, g, k, l);
  }

  /** A scan that reached Done has a succeeded scanner job, a succeeded parser job, and a succeeded job for every
      selected hook of a supported type. */
  lemma DoneMeansEverythingSucceeded(hooks: seq<HookSpec>, w: World, events: seq<Event>)
    requires DistinctNames(hooks) && Submitted(w)
    requires Run(hooks, w, events).status.state == Done
    ensures Succeeded(Run(hooks, w, events).jobs, Scanner) && Succeeded(Run(hooks, w, events).jobs, Parser)
    ensures forall hook <- InitialStatuses(hooks) :: hook.hookType != Unsupported ==>
              Succeeded(Run(hooks, w, events).jobs, LabelOf(hook))
  {
    ReachedInv(hooks, w, events);
    var end := Run(hooks, w, events);
    var groups := end.status.groups;
    forall hook | hook in InitialStatuses(hooks) && hook.hookType != Unsupported
      ensures Succeeded(end.jobs, LabelOf(hook))
    {
      GivenHooksArePlaced(InitialStatuses(hooks), hook);
      var g, k :| 0 <= g < |Schedule(hooks)| && 0 <= k < |Schedule(hooks)[g]| && Schedule(hooks)[g][k] == hook;
      assert SameHook(groups[g][k], Schedule(hooks)[g][k]);
      assert HookFact(end.jobs, groups[g][k]);
    }
  }

  /** The parser only starts after the scanner succeeded, hooks only after the parser did, even on the way to
      Errored. */
  lemma PipelineOrder(hooks: seq<HookSpec>, w: World, events: seq<Event>, i: nat)
    requires DistinctNames(hooks) && Submitted(w)
    requires i < |Run(hooks, w, events).jobs|
    ensures var jobs := Run(hooks, w, events).jobs;
      && (jobs[i].jobLabel == Parser ==> Succeeded(jobs, Scanner))
      && (jobs[i].jobLabel.Hook? ==> Succeeded(jobs, Parser) && Succeeded(jobs, Scanner))
  {
    ReachedInv(hooks, w, events);
  }

  /** Done and Errored are final: no status change, no new job, whatever happens afterwards. */
  lemma {:induction false} TerminalIsAbsorbing(hooks: seq<HookSpec>, w: World, events: seq<Event>)
    requires Terminal(w.status.state)
    ensures Run(hooks, w, events).status == w.status
    ensures |Run(hooks, w, events).jobs| == |w.jobs|
    decreases |events|
  {
    if events != [] {
      TerminalIsAbsorbing(hooks, Step(hooks, w, events[0]), events[1..]);
    }
  }

  /** FinishedAt is stored exactly with the final state, and no hook is ever Cancelled. */
  lemma FinishedAtMarksTheEnd(hooks: seq<HookSpec>, w: World, events: seq<Event>)
    requires DistinctNames(hooks) && Submitted(w)
    ensures var s := Run(hooks, w, events).status;
      && (s.finishedAt.Some? <==> Terminal(s.state))
      && (forall g, k :: 0 <= g < |s.groups| && 0 <= k < |s.groups[g]| ==> s.groups[g][k].state != Cancelled)
  {
    ReachedInv(hooks, w, events);
    var end := Run(hooks, w, events);
    forall g, k | 0 <= g < |end.status.groups| && 0 <= k < |end.status.groups[g]|
      ensures end.status.groups[g][k].state != Cancelled
    {
      assert HookFact(end.jobs, end.status.groups[g][k]);
    }
  }

  // ---------------------------------------------------------------- placing hooks

  lemma NamesStayDistinct(hooks: seq<HookSpec>)
    requires DistinctNames(hooks)
    ensures forall i, j :: 0 <= i < j < |InitialStatuses(hooks)| ==>
            InitialStatuses(hooks)[i].hookName != InitialStatuses(hooks)[j].hookName
  {}

  lemma SamePlace(hooks: seq<HookSpec>, groups: seq<seq<HookStatus>>, g: nat, k: nat, f: nat, l: nat)
    requires DistinctNames(hooks) && Aligned(groups, Schedule(hooks))
    requires g < |groups| && k < |groups[g]| && f < |groups| && l < |groups[f]|
    requires LabelOf(groups[g][k]) == LabelOf(groups[f][l])
    ensures g == f && k == l
  {
    NamesStayDistinct(hooks);
    assert SameHook(groups[g][k], Schedule(hooks)[g][k]) && SameHook(groups[f][l], Schedule(hooks)[f][l]);
    PlacesAreDistinct(InitialStatuses(hooks), g, k, f, l);
  }

  lemma HookIsScheduled(hooks: seq<HookSpec>, hook: HookStatus, g: nat, k: nat, groups: seq<seq<HookStatus>>)
    requires DistinctNames(hooks) && Aligned(groups, Schedule(hooks))
    requires hook in InitialStatuses(hooks) && hook.hookType != Unsupported
    requires g < |groups| && k < |groups[g]| && LabelOf(groups[g][k]) == LabelOf(hook)
    ensures Schedule(hooks)[g][k] == hook
  {
    NamesStayDistinct(hooks);
    assert SameHook(groups[g][k], Schedule(hooks)[g][k]);
    PlacedHooksAreGiven(InitialStatuses(hooks), g, k);
    assert Schedule(hooks)[g][k].hookName == hook.hookName;
  }

  lemma PrecedingPlaceIsEarlier(hooks: seq<HookSpec>, f: nat, l: nat, g: nat, k: nat)
    requires f < |Schedule(hooks)| && l < |Schedule(hooks)[f]|
    requires g < |Schedule(hooks)| && k < |Schedule(hooks)[g]|
    requires MustPrecede(Schedule(hooks)[f][l], Schedule(hooks)[g][k])
    ensures f < g
  {
    hide Schedule, GroupPrecedes;
    ScheduledGroup(hooks, g);
    if g < f { ScheduledOrder(hooks, g, k, f, l); }
  }

  lemma ScheduledGroup(hooks: seq<HookSpec>, g: nat)
    requires g < |Schedule(hooks)|
    ensures GroupShape(Schedule(hooks)[g])
  {
    GroupsAreScheduled(InitialStatuses(hooks));
    hide OrderedGroups, GroupShape;
    assert Schedule(hooks)[g] in Schedule(hooks);
  }

  lemma ScheduledOrder(hooks: seq<HookSpec>, f: nat, l: nat, g: nat, k: nat)
    requires f < g < |Schedule(hooks)| && l < |Schedule(hooks)[f]| && k < |Schedule(hooks)[g]|
    ensures !MustPrecede(Schedule(hooks)[g][k], Schedule(hooks)[f][l])
  {
    GroupsAreScheduled(InitialStatuses(hooks));
    hide OrderedGroups;
    var earlier, later := Schedule(hooks)[f], Schedule(hooks)[g];
    assert GroupPrecedes(earlier, later);
    hide Schedule, InitialStatuses;
    assert earlier[l] in earlier && later[k] in later;
  }

  lemma SharedGroupIsReadOnly(hooks: seq<HookSpec>, g: nat, k: nat, l: nat)
    requires g < |Schedule(hooks)| && k < |Schedule(hooks)[g]| && l < |Schedule(hooks)[g]| && k != l
    ensures Schedule(hooks)[g][k] in InitialStatuses(hooks) && Schedule(hooks)[g][l] in InitialStatuses(hooks)
    ensures Schedule(hooks)[g][k].hookType == Schedule(hooks)[g][l].hookType == ReadOnly
    ensures Schedule(hooks)[g][k].priority == Schedule(hooks)[g][l].priority
  {
    GroupsAreScheduled(InitialStatuses(hooks));
    assert GroupShape(Schedule(hooks)[g]);
    PlacedHooksAreGiven(InitialStatuses(hooks), g, k);
    PlacedHooksAreGiven(InitialStatuses(hooks), g, l);
  }

  lemma UnfinishedBlocksLater(groups: seq<seq<HookStatus>>, jobs: seq<Job>, i: nat, g: nat, k: nat, f: nat, l: nat)
    requires HooksInv(groups, jobs)
    requires i < |jobs| && Unfinished(jobs[i])
    requires g < |groups| && k < |groups[g]| && LabelOf(groups[g][k]) == jobs[i].jobLabel
    requires f < |groups| && l < |groups[f]| && HasJob(jobs, LabelOf(groups[f][l]))
    ensures f <= g
  {
    assert HookFact(jobs, groups[g][k]);
    if g < f {
      assert false;
    }
  }

  // ---------------------------------------------------------------- one step

  lemma OutcomeOfLabel(jobs: seq<Job>, jobLabel: JobLabel)
    requires HasJob(jobs, jobLabel) && Outcome(Labelled(jobs, jobLabel)) == JobsCompleted
    ensures Succeeded(jobs, jobLabel)
  {
    LabelledMembers(jobs, jobLabel);
    var found := Labelled(jobs, jobLabel);
    forall i | 0 <= i < |jobs| && jobs[i].jobLabel == jobLabel ensures jobs[i].status.succeeded > 0 {
      assert jobs[i] in found;
      var n :| 0 <= n < |found| && found[n] == jobs[i];
    }
  }

  lemma HasJobWitness(jobs: seq<Job>, i: nat)
    requires i < |jobs|
    ensures HasJob(jobs, jobs[i].jobLabel)
  {}

  /** Adding one job under a new label keeps every earlier fact about jobs. */
  lemma JobAdded(jobs: seq<Job>, job: Job)
    requires !HasJob(jobs, job.jobLabel)
    ensures DistinctLabels(jobs) ==> DistinctLabels(jobs + [job])
    ensures forall l :: HasJob(jobs + [job], l) <==> HasJob(jobs, l) || l == job.jobLabel
    ensures forall l :: Succeeded(jobs, l) ==> Succeeded(jobs + [job], l)
  {
    var more := jobs + [job];
    forall l ensures HasJob(more, l) <==> HasJob(jobs, l) || l == job.jobLabel {
      if HasJob(jobs, l) {
        var i :| 0 <= i < |jobs| && jobs[i].jobLabel == l;
        assert more[i].jobLabel == l;
      }
      assert more[|jobs|].jobLabel == job.jobLabel;
    }
    forall i | 0 <= i < |jobs| ensures jobs[i].jobLabel != job.jobLabel { HasJobWitness(jobs, i); }
  }

  lemma JobProgressed(jobs: seq<Job>, i: nat, after: JobStatus)
    requires i < |jobs| && Progresses(jobs[i].status, after)
    ensures var moved := jobs[i := jobs[i].(status := after)];
      && (DistinctLabels(jobs) ==> DistinctLabels(moved))
      && (forall l :: HasJob(moved, l) <==> HasJob(jobs, l))
      && (forall l :: Succeeded(jobs, l) ==> Succeeded(moved, l))
  {
    var moved := jobs[i := jobs[i].(status := after)];
    assert forall n :: 0 <= n < |jobs| ==> moved[n].jobLabel == jobs[n].jobLabel;
  }

  lemma StepKeepsInv(hooks: seq<HookSpec>, w: World, e: Event)
    requires DistinctNames(hooks) && Inv(hooks, w)
    ensures Inv(hooks, Step(hooks, w, e))
  {
    match e {
      case JobMoved(i, after) =>
        if i < |w.jobs| && Progresses(w.jobs[i].status, after) {
          JobProgressed(w.jobs, i, after);
          MoveKeepsHooks(w.status.groups, w.jobs, i, after);
        }
      case Reconciled(a) =>
        if w.status.state in {Unset, Init, ScanCompleted} {
          StartKeepsInv(hooks, w, a);
        } else if w.status.state in {Scanning, Parsing} {
          AwaitKeepsInv(hooks, w, a);
        } else if w.status.state == ParseCompleted {
          SetHooksKeepsInv(hooks, w, a);
        } else if w.status.state == HookProcessing && !a.suspended {
          ExecuteKeepsInv(hooks, w, a);
        }
    }
  }

  lemma MoveKeepsHooks(groups: seq<seq<HookStatus>>, jobs: seq<Job>, i: nat, after: JobStatus)
    requires HooksInv(groups, jobs)
    requires i < |jobs| && Progresses(jobs[i].status, after)
    ensures HooksInv(groups, jobs[i := jobs[i].(status := after)])
  {
    JobProgressed(jobs, i, after);
    var moved := jobs[i := jobs[i].(status := after)];
    forall g, k | 0 <= g < |groups| && 0 <= k < |groups[g]|
      ensures HookFact(moved, groups[g][k])
    {
      assert HookFact(jobs, groups[g][k]);
    }
    assert forall n :: 0 <= n < |jobs| ==> moved[n].jobLabel == jobs[n].jobLabel;
  }

  /** A scanner or parser job does not disturb the hooks. */
  lemma AddPlainJob(groups: seq<seq<HookStatus>>, jobs: seq<Job>, job: Job)
    requires HooksInv(groups, jobs) && !HasJob(jobs, job.jobLabel) && !job.jobLabel.Hook?
    ensures HooksInv(groups, jobs + [job])
  {
    JobAdded(jobs, job);
    forall g, k | 0 <= g < |groups| && 0 <= k < |groups[g]|
      ensures HookFact(jobs + [job], groups[g][k])
    {
      assert HookFact(jobs, groups[g][k]);
    }
  }

  /** A scan can always be given up: Errored asks for nothing of the pipeline. */
  lemma ErroredKeepsInv(hooks: seq<HookSpec>, w: World, now: int)
    requires Inv(hooks, w) && !Terminal(w.status.state)
    ensures Inv(hooks, w.(status := Stamp(Loaded(w.status).(state := Errored), now)))
  {
    hide HooksInv, Aligned, HasJob, Succeeded, Schedule;
  }

  lemma StartKeepsInv(hooks: seq<HookSpec>, w: World, a: Answers)
    requires Inv(hooks, w) && w.status.state in {Unset, Init, ScanCompleted}
    ensures Inv(hooks, Reconcile(w, hooks, a).world)
  {
    var jobLabel := if w.status.state == ScanCompleted then Parser else Scanner;
    var job := Job(a.jobName, jobLabel, FRESH);
    StartIsOneOf(hooks, w, a, jobLabel, job);
    ErroredKeepsInv(hooks, w, a.now);
    if Labelled(w.jobs, jobLabel) == [] {
      LabelledMembers(w.jobs, jobLabel);
      AddPlainJob(w.status.groups, w.jobs, job);
      AddedToPipeline(w.status.state, w.jobs, job);
    }
    hide Reconcile, HooksInv, PipelineInv, Aligned, Labelled, Schedule;
  }

  /** Adding the scanner job in Init, or the parser job in ScanCompleted, allows the next state. */
  lemma AddedToPipeline(state: ScanState, jobs: seq<Job>, job: Job)
    requires PipelineInv(state, jobs) && !HasJob(jobs, job.jobLabel)
    requires state in {Unset, Init, ScanCompleted} && job.jobLabel == if state == ScanCompleted then Parser else Scanner
    ensures PipelineInv(state, jobs + [job]) &&
            PipelineInv(if state == ScanCompleted then Parsing else Scanning, jobs + [job])
  {
    JobAdded(jobs, job);
    assert !HasJob(jobs, Scanner) ==> !HasJob(jobs, Parser);
  }

  lemma StartIsOneOf(hooks: seq<HookSpec>, w: World, a: Answers, jobLabel: JobLabel, job: Job)
    requires w.status.state in {Unset, Init, ScanCompleted}
    requires jobLabel == if w.status.state == ScanCompleted then Parser else Scanner
    requires job == Job(a.jobName, jobLabel, FRESH)
    ensures var w' := Reconcile(w, hooks, a).world;
      || w' == w
      || w' == w.(status := Stamp(Loaded(w.status).(state := Errored), a.now))
      || (Labelled(w.jobs, jobLabel) == [] && w' == w.(jobs := w.jobs + [job]))
      || (Labelled(w.jobs, jobLabel) == [] &&
          w' == World(w.status.(state := if w.status.state == ScanCompleted then Parsing else Scanning),
                      w.jobs + [job]))
  {}

  lemma AwaitIsOneOf(hooks: seq<HookSpec>, w: World, a: Answers)
    requires w.status.state in {Scanning, Parsing}
    ensures var w' := Reconcile(w, hooks, a).world;
      || w' == w
      || w' == w.(status := Stamp(Loaded(w.status).(state := Errored), a.now))
      || (Outcome(Labelled(w.jobs, if w.status.state == Scanning then Scanner else Parser)) == JobsCompleted &&
          w' == w.(status := w.status.(state := if w.status.state == Scanning then ScanCompleted else ParseCompleted)))
  {
    hide Labelled, Outcome;
  }

  lemma AwaitKeepsInv(hooks: seq<HookSpec>, w: World, a: Answers)
    requires Inv(hooks, w) && w.status.state in {Scanning, Parsing}
    ensures Inv(hooks, Reconcile(w, hooks, a).world)
  {
    var jobLabel := if w.status.state == Scanning then Scanner else Parser;
    AwaitIsOneOf(hooks, w, a);
    ErroredKeepsInv(hooks, w, a.now);
    if Outcome(Labelled(w.jobs, jobLabel)) == JobsCompleted { CompletedKeepsInv(hooks, w, jobLabel); }
    hide Reconcile, Inv, Outcome, Labelled, Loaded, Stamp;
  }

  /** The succeeded scanner or parser job allows the next state. */
  lemma CompletedKeepsInv(hooks: seq<HookSpec>, w: World, jobLabel: JobLabel)
    requires Inv(hooks, w) && w.status.state in {Scanning, Parsing}
    requires jobLabel == if w.status.state == Scanning then Scanner else Parser
    requires Outcome(Labelled(w.jobs, jobLabel)) == JobsCompleted
    ensures Inv(hooks,
                w.(status := w.status.(state := if w.status.state == Scanning then ScanCompleted else ParseCompleted)))
  {
    OutcomeOfLabel(w.jobs, jobLabel);
    hide HooksInv, Aligned, Labelled, Outcome, Schedule, HasJob, Succeeded;
  }

  lemma SetHooksIsOneOf(hooks: seq<HookSpec>, w: World, a: Answers)
    requires w.status.state == ParseCompleted
    ensures var w' := Reconcile(w, hooks, a).world;
      w' == w || w' == w.(status := w.status.(groups := Schedule(hooks), state := HookProcessing))
  {
    hide OrderedGroups, InitialStatuses;
  }

  /** The schedule of a scan without hook jobs. */
  lemma FreshScheduleInv(hooks: seq<HookSpec>, jobs: seq<Job>)
    requires DistinctLabels(jobs) && forall i :: 0 <= i < |jobs| ==> !jobs[i].jobLabel.Hook?
    ensures HooksInv(Schedule(hooks), jobs) && Aligned(Schedule(hooks), Schedule(hooks))
  {
    var schedule: seq<seq<HookStatus>> := Schedule(hooks);
    forall g: int, k: int | 0 <= g < |schedule| && 0 <= k < |schedule[g]|
      ensures schedule[g][k].state == Pending && !HasJob(jobs, LabelOf(schedule[g][k]))
    {
      PlacedHooksAreGiven(InitialStatuses(hooks), g, k);
    }
    hide Schedule, OrderedGroups, InitialStatuses;
  }

  lemma SetHooksKeepsInv(hooks: seq<HookSpec>, w: World, a: Answers)
    requires Inv(hooks, w) && w.status.state == ParseCompleted
    ensures Inv(hooks, Reconcile(w, hooks, a).world)
  {
    SetHooksIsOneOf(hooks, w, a);
    forall i | 0 <= i < |w.jobs| ensures !w.jobs[i].jobLabel.Hook? {
      assert w.jobs[i].jobLabel.Hook? ==> Placed(w.status.groups, w.jobs[i].jobLabel);
    }
    FreshScheduleInv(hooks, w.jobs);
    hide Reconcile, HooksInv, Aligned, Schedule, HasJob, Succeeded;
  }

  // ---------------------------------------------------------------- hook execution

  lemma AddHookJob(hooks: seq<HookSpec>, groups: seq<seq<HookStatus>>, jobs: seq<Job>, g: nat, k: nat, job: Job)
    requires DistinctNames(hooks) && Aligned(groups, Schedule(hooks)) && HooksInv(groups, jobs)
    requires g < |groups| && k < |groups[g]| && EarlierCompleted(groups, g)
    requires job.jobLabel == LabelOf(groups[g][k]) && !HasJob(jobs, job.jobLabel)
    ensures HooksInv(groups, jobs + [job])
  {
    JobAdded(jobs, job);
    var more := jobs + [job];
    forall f, l | 0 <= f < |groups| && 0 <= l < |groups[f]|
      ensures HookFact(more, groups[f][l])
      ensures HasJob(more, LabelOf(groups[f][l])) ==> EarlierCompleted(groups, f)
    {
      assert HookFact(jobs, groups[f][l]);
      if LabelOf(groups[f][l]) == job.jobLabel {
        SamePlace(hooks, groups, g, k, f, l);
      }
    }
  }

  function Replace(groups: seq<seq<HookStatus>>, g: nat, k: nat, hook: HookStatus): seq<seq<HookStatus>>
    requires g < |groups| && k < |groups[g]|
  {
    groups[g := groups[g][k := hook]]
  }

  lemma ReplacedAt(groups: seq<seq<HookStatus>>, g: nat, k: nat, hook: HookStatus, f: nat)
    requires g < |groups| && k < |groups[g]| && f < |groups|
    ensures |Replace(groups, g, k, hook)| == |groups| && |Replace(groups, g, k, hook)[f]| == |groups[f]|
    ensures forall l :: 0 <= l < |groups[f]| ==>
              Replace(groups, g, k, hook)[f][l] == if f == g && l == k then hook else groups[f][l]
    ensures f != g ==> Replace(groups, g, k, hook)[f] == groups[f]
  {}

  lemma UpdateKeepsAligned(schedule: seq<seq<HookStatus>>, groups: seq<seq<HookStatus>>, g: nat, k: nat,
                           hook: HookStatus)
    requires Aligned(groups, schedule) && g < |groups| && k < |groups[g]| && SameHook(hook, groups[g][k])
    ensures Aligned(Replace(groups, g, k, hook), schedule)
  {
    var after := Replace(groups, g, k, hook);
    forall f | 0 <= f < |groups| ensures |after[f]| == |schedule[f]| &&
      forall l :: 0 <= l < |groups[f]| ==> SameHook(after[f][l], schedule[f][l])
    {
      ReplacedAt(groups, g, k, hook, f);
      assert forall l :: 0 <= l < |groups[f]| ==> SameHook(groups[f][l], schedule[f][l]);
      hide Replace;
    }
  }

  lemma UpdateKeepsFacts(groups: seq<seq<HookStatus>>, jobs: seq<Job>, g: nat, k: nat, hook: HookStatus, f: nat, l: nat)
    requires HooksInv(groups, jobs) && g < |groups| && k < |groups[g]| && f < |groups| && l < |groups[f]|
    requires HookFact(jobs, hook)
    ensures |Replace(groups, g, k, hook)| == |groups| && |Replace(groups, g, k, hook)[f]| == |groups[f]|
    ensures HookFact(jobs, Replace(groups, g, k, hook)[f][l])
  {
    assert HookFact(jobs, groups[f][l]);
    hide HooksInv, HookFact;
    ReplacedAt(groups, g, k, hook, f);
  }

  /** Whatever comes before a hook with a job is completed, so it is not the group that changes. */
  lemma UpdateKeepsEarlier(groups: seq<seq<HookStatus>>, jobs: seq<Job>, g: nat, k: nat, hook: HookStatus, f: nat,
                           l: nat)
    requires HooksInv(groups, jobs) && g < |groups| && k < |groups[g]| && f < |groups| && l < |groups[f]|
    requires groups[g][k].state != Completed && LabelOf(hook) == LabelOf(groups[g][k])
    ensures |Replace(groups, g, k, hook)| == |groups| && |Replace(groups, g, k, hook)[f]| == |groups[f]|
    ensures HasJob(jobs, LabelOf(Replace(groups, g, k, hook)[f][l])) ==>
              EarlierCompleted(Replace(groups, g, k, hook), f)
  {
    ReplacedAt(groups, g, k, hook, f);
    assert LabelOf(Replace(groups, g, k, hook)[f][l]) == LabelOf(groups[f][l]);
    assert HasJob(jobs, LabelOf(groups[f][l])) ==> EarlierCompleted(groups, f);
    hide HooksInv, HasJob, Replace;
    if HasJob(jobs, LabelOf(groups[f][l])) {
      assert !AllCompleted(groups[g]);
      assert g >= f;
      hide AllCompleted;
      forall i | 0 <= i < f ensures Replace(groups, g, k, hook)[i] == groups[i] { ReplacedAt(groups, g, k, hook, i); }
    }
  }

  lemma UpdateKeepsPlaces(groups: seq<seq<HookStatus>>, g: nat, k: nat, hook: HookStatus, jobLabel: JobLabel)
    requires g < |groups| && k < |groups[g]| && LabelOf(hook) == LabelOf(groups[g][k]) && Placed(groups, jobLabel)
    ensures Placed(Replace(groups, g, k, hook), jobLabel)
  {
    var f, l :| 0 <= f < |groups| && 0 <= l < |groups[f]| && LabelOf(groups[f][l]) == jobLabel;
    ReplacedAt(groups, g, k, hook, f);
    assert LabelOf(Replace(groups, g, k, hook)[f][l]) == jobLabel;
  }

  lemma UpdateHook(hooks: seq<HookSpec>, groups: seq<seq<HookStatus>>, jobs: seq<Job>, g: nat, k: nat, hook: HookStatus)
    requires Aligned(groups, Schedule(hooks)) && HooksInv(groups, jobs)
    requires g < |groups| && k < |groups[g]| && groups[g][k].state != Completed
    requires SameHook(hook, groups[g][k]) && HookFact(jobs, hook)
    ensures Aligned(Replace(groups, g, k, hook), Schedule(hooks))
    ensures HooksInv(Replace(groups, g, k, hook), jobs)
  {
    UpdateKeepsAligned(Schedule(hooks), groups, g, k, hook);
    var after := Replace(groups, g, k, hook);
    assert DistinctLabels(jobs);
    assert forall i :: 0 <= i < |jobs| && jobs[i].jobLabel.Hook? ==> Placed(groups, jobs[i].jobLabel);
    assert SameLengths(after, groups) by {
      forall f | 0 <= f < |groups| ensures |after[f]| == |groups[f]| { ReplacedAt(groups, g, k, hook, f); }
    }
    hide Schedule, Aligned, Replace, EarlierCompleted, HookFact, Placed, HasJob, DistinctLabels;
    forall f: nat, l: nat | f < |after| && l < |after[f]|
      ensures HookFact(jobs, after[f][l])
      ensures HasJob(jobs, LabelOf(after[f][l])) ==> EarlierCompleted(after, f)
    {
      UpdateKeepsFacts(groups, jobs, g, k, hook, f, l);
      UpdateKeepsEarlier(groups, jobs, g, k, hook, f, l);
    }
    forall i | 0 <= i < |jobs| && jobs[i].jobLabel.Hook? ensures Placed(after, jobs[i].jobLabel) {
      UpdateKeepsPlaces(groups, g, k, hook, jobs[i].jobLabel);
    }
  }

  ghost predicate SameLengths(a: seq<seq<HookStatus>>, b: seq<seq<HookStatus>>) {
    |a| == |b| && forall f :: 0 <= f < |b| ==> |a[f]| == |b[f]|
  }

  /** Handling one hook of the current group keeps the facts, for the groups as stored and as changed in memory. */
  lemma HookStepKeeps(hooks: seq<HookSpec>, stored: seq<seq<HookStatus>>, groups: seq<seq<HookStatus>>, jobs: seq<Job>,
                      g: nat, k: nat, a: HookAnswer)
    requires DistinctNames(hooks) && Aligned(stored, Schedule(hooks)) && Aligned(groups, Schedule(hooks))
    requires HooksInv(stored, jobs) && HooksInv(groups, jobs)
    requires g < |groups| && k < |groups[g]| && EarlierCompleted(stored, g) && EarlierCompleted(groups, g)
    ensures var run := HookStep(jobs, groups[g][k], a);
      && HooksInv(stored, run.jobs)
      && HooksInv(Replace(groups, g, k, run.hook), run.jobs)
      && Aligned(Replace(groups, g, k, run.hook), Schedule(hooks))
  {
    var hook := groups[g][k];
    var run := HookStep(jobs, hook, a);
    HookJobKeeps(hooks, stored, groups, jobs, g, k, a);
    assert HookFact(jobs, hook);
    HookStepFact(jobs, hook, a);
    hide HookStep, DistinctNames, Schedule, HookFact, EarlierCompleted;
    if run.hook != hook {
      assert hook.state != Completed by { CompletedStays(jobs, hook, a); }
      UpdateHook(hooks, groups, run.jobs, g, k, run.hook);
    } else {
      assert groups[g][k := run.hook] == groups[g];
      assert Replace(groups, g, k, run.hook) == groups;
    }
  }

  lemma CompletedStays(jobs: seq<Job>, hook: HookStatus, a: HookAnswer)
    ensures hook.state == Completed ==> HookStep(jobs, hook, a).hook == hook
  {}

  lemma HookStepFact(jobs: seq<Job>, hook: HookStatus, a: HookAnswer)
    requires HookFact(jobs, hook)
    ensures HookFact(HookStep(jobs, hook, a).jobs, HookStep(jobs, hook, a).hook) &&
            SameHook(HookStep(jobs, hook, a).hook, hook)
  {
    match hook.state
    case Pending => StartHookFact(jobs, hook, a);
    case InProgress => AwaitHookFact(jobs, hook, a);
    case _ =>
    hide HasJob, Succeeded, StartHook, AwaitHook;
  }

  lemma StartHookFact(jobs: seq<Job>, hook: HookStatus, a: HookAnswer)
    requires hook.state == Pending
    ensures HookFact(StartHook(jobs, hook, a).jobs, StartHook(jobs, hook, a).hook) &&
            SameHook(StartHook(jobs, hook, a).hook, hook)
  {
    LabelledIsEmpty(jobs, LabelOf(hook));
    hide HasJob, Succeeded, Labelled;
    if Labelled(jobs, LabelOf(hook)) == [] { JobAdded(jobs, Job(a.jobName, LabelOf(hook), FRESH)); }
  }

  lemma LabelledIsEmpty(jobs: seq<Job>, jobLabel: JobLabel)
    ensures Labelled(jobs, jobLabel) == [] <==> !HasJob(jobs, jobLabel)
  {
    LabelledMembers(jobs, jobLabel);
  }

  lemma AwaitHookFact(jobs: seq<Job>, hook: HookStatus, a: HookAnswer)
    requires HookFact(jobs, hook) && hook.state == InProgress
    ensures HookFact(AwaitHook(jobs, hook, a).jobs, AwaitHook(jobs, hook, a).hook) &&
            SameHook(AwaitHook(jobs, hook, a).hook, hook)
  {
    if Outcome(Labelled(jobs, LabelOf(hook))) == JobsCompleted { OutcomeOfLabel(jobs, LabelOf(hook)); }
    hide HasJob, Succeeded, Labelled, Outcome;
  }

  /** A hook of the current group may get its job. */
  lemma HookJobKeeps(hooks: seq<HookSpec>, stored: seq<seq<HookStatus>>, groups: seq<seq<HookStatus>>, jobs: seq<Job>,
                     g: nat, k: nat, a: HookAnswer)
    requires DistinctNames(hooks) && Aligned(stored, Schedule(hooks)) && Aligned(groups, Schedule(hooks))
    requires HooksInv(stored, jobs) && HooksInv(groups, jobs)
    requires g < |groups| && k < |groups[g]| && EarlierCompleted(stored, g) && EarlierCompleted(groups, g)
    ensures var run := HookStep(jobs, groups[g][k], a); HooksInv(stored, run.jobs) && HooksInv(groups, run.jobs)
  {
    var hook := groups[g][k];
    var run := HookStep(jobs, hook, a);
    LabelledMembers(jobs, LabelOf(hook));
    if run.jobs != jobs {
      var job := Job(a.jobName, LabelOf(hook), FRESH);
      assert SameHook(stored[g][k], Schedule(hooks)[g][k]) && SameHook(hook, Schedule(hooks)[g][k]);
      assert run.jobs == jobs + [job] && !HasJob(jobs, job.jobLabel);
      hide HooksInv, Aligned, Labelled;
      AddHookJob(hooks, stored, jobs, g, k, job);
      AddHookJob(hooks, groups, jobs, g, k, job);
    }
  }

  /** Changing a group leaves the earlier ones as they are. */
  lemma EarlierStayCompleted(groups: seq<seq<HookStatus>>, g: nat, group: seq<HookStatus>)
    requires g < |groups| && EarlierCompleted(groups, g)
    ensures EarlierCompleted(groups[g := group], g)
  {}

  lemma {:induction false} RunHooksKeeps(hooks: seq<HookSpec>, groups: seq<seq<HookStatus>>, jobs: seq<Job>,
                                         g: nat, answer: string -> HookAnswer, n: nat)
    requires DistinctNames(hooks) && Aligned(groups, Schedule(hooks)) && HooksInv(groups, jobs)
    requires g < |groups| && EarlierCompleted(groups, g) && n <= |groups[g]|
    ensures var run := RunHooks(jobs, groups[g], answer, n);
      && HooksInv(groups, run.jobs)
      && HooksInv(groups[g := run.group], run.jobs)
      && Aligned(groups[g := run.group], Schedule(hooks))
    decreases n
  {
    hide HooksInv, Aligned, HookStep, RunHooks, Schedule, DistinctNames, EarlierCompleted;
    if n == 0 {
      RunHooksNone(jobs, groups[g], answer);
      assert groups[g := groups[g]] == groups;
    } else {
      EarlierStayCompleted(groups, g, RunHooks(jobs, groups[g], answer, n - 1).group);
      RunHooksKeeps(hooks, groups, jobs, g, answer, n - 1);
      RunHooksNext(jobs, groups[g], answer, n - 1);
      var before := RunHooks(jobs, groups[g], answer, n - 1);
      var middle := groups[g := before.group];
      var a := answer(groups[g][n - 1].hookName);
      HookStepKeeps(hooks, groups, middle, before.jobs, g, n - 1, a);
      var after := before.group[n - 1 := HookStep(before.jobs, groups[g][n - 1], a).hook];
      assert middle[g := after] == groups[g := after];
    }
  }

  /** While hooks run, only hook jobs are added. */
  ghost predicate OnlyHookJobsAdded(before: seq<Job>, after: seq<Job>) {
    && (forall l: JobLabel :: !l.Hook? && HasJob(after, l) ==> HasJob(before, l))
    && (forall l :: Succeeded(before, l) ==> Succeeded(after, l))
  }

  lemma HookStepAddsHookJob(jobs: seq<Job>, hook: HookStatus, a: HookAnswer)
    ensures OnlyHookJobsAdded(jobs, HookStep(jobs, hook, a).jobs)
  {
    LabelledMembers(jobs, LabelOf(hook));
    if HookStep(jobs, hook, a).jobs != jobs {
      JobAdded(jobs, Job(a.jobName, LabelOf(hook), FRESH));
    }
  }

  lemma {:induction false} RunHooksAddsHookJobs(jobs: seq<Job>, group: seq<HookStatus>, answer: string -> HookAnswer,
                                                n: nat)
    requires n <= |group|
    ensures OnlyHookJobsAdded(jobs, RunHooks(jobs, group, answer, n).jobs)
    decreases n
  {
    hide *;
    if n == 0 {
      RunHooksNone(jobs, group, answer);
      OnlyHookJobsAddedSelf(jobs);
    } else {
      RunHooksNext(jobs, group, answer, n - 1);
      RunHooksAddsHookJobs(jobs, group, answer, n - 1);
      var before := RunHooks(jobs, group, answer, n - 1);
      HookStepAddsHookJob(before.jobs, group[n - 1], answer(group[n - 1].hookName));
      OnlyHookJobsAddedTrans(jobs, before.jobs,
                             HookStep(before.jobs, group[n - 1], answer(group[n - 1].hookName)).jobs);
    }
  }

  lemma OnlyHookJobsAddedSelf(jobs: seq<Job>)
    ensures OnlyHookJobsAdded(jobs, jobs)
  {}

  lemma OnlyHookJobsAddedTrans(a: seq<Job>, b: seq<Job>, c: seq<Job>)
    requires OnlyHookJobsAdded(a, b) && OnlyHookJobsAdded(b, c)
    ensures OnlyHookJobsAdded(a, c)
  {
    hide HasJob, Succeeded;
  }

  lemma HooksKeepPipeline(before: seq<Job>, after: seq<Job>)
    requires PipelineInv(HookProcessing, before) && OnlyHookJobsAdded(before, after)
    ensures PipelineInv(HookProcessing, after) && PipelineInv(Errored, after) && PipelineInv(Done, after)
  {}

  lemma ExecuteKeepsInv(hooks: seq<HookSpec>, w: World, a: Answers)
    requires DistinctNames(hooks) && Inv(hooks, w) && w.status.state == HookProcessing
    ensures Inv(hooks, ExecuteHooks(w, w.status, a).world)
  {
    hide *;
    if CurrentGroup(w.status.groups).Work? {
      var g := CurrentGroup(w.status.groups).index;
      ExecuteWork(w, a, g);
      CurrentIsOpen(w.status.groups, g);
      GroupKeepsInv(hooks, w, a, g);
    } else {
      WithoutWorkKeepsInv(hooks, w, a);
    }
  }

  lemma CurrentIsOpen(groups: seq<seq<HookStatus>>, g: nat)
    requires CurrentGroup(groups) == Work(g)
    ensures g < |groups| && EarlierCompleted(groups, g)
  {
    CurrentGroupMeaning(groups, 0);
    hide CurrentGroup, AllCompleted;
  }

  lemma WithoutWorkKeepsInv(hooks: seq<HookSpec>, w: World, a: Answers)
    requires Inv(hooks, w) && w.status.state == HookProcessing && !CurrentGroup(w.status.groups).Work?
    ensures Inv(hooks, ExecuteHooks(w, w.status, a).world)
  {
    assert !Terminal(w.status.state);
    hide *;
    WithoutWork(w, a);
    ErroredKeepsInv(hooks, w, a.now);
    if CurrentGroup(w.status.groups).Finished? {
      FinishedIsCompleted(w.status.groups);
      DoneKeepsInv(hooks, w, a.now);
    }
  }

  lemma FinishedIsCompleted(groups: seq<seq<HookStatus>>)
    requires CurrentGroup(groups).Finished?
    ensures EarlierCompleted(groups, |groups|)
  {
    CurrentGroupMeaning(groups, 0);
    hide CurrentGroup, AllCompleted;
  }

  lemma DoneKeepsInv(hooks: seq<HookSpec>, w: World, now: int)
    requires Inv(hooks, w) && w.status.state == HookProcessing && EarlierCompleted(w.status.groups, |w.status.groups|)
    ensures Inv(hooks, w.(status := Stamp(w.status.(state := Done), now)))
  {
    OnlyHookJobsAddedSelf(w.jobs);
    HooksKeepPipeline(w.jobs, w.jobs);
    hide HooksInv, PipelineInv, Aligned, Schedule, AllCompleted;
  }

  lemma WithoutWork(w: World, a: Answers)
    requires w.status.state == HookProcessing && !CurrentGroup(w.status.groups).Work?
    ensures var w' := ExecuteHooks(w, w.status, a).world;
      || w' == w
      || w' == w.(status := Stamp(Loaded(w.status).(state := Errored), a.now))
      || (CurrentGroup(w.status.groups).Finished? && w' == w.(status := Stamp(w.status.(state := Done), a.now)))
  {
    hide CurrentGroup;
  }

  lemma GroupKeepsInv(hooks: seq<HookSpec>, w: World, a: Answers, g: nat)
    requires DistinctNames(hooks) && Inv(hooks, w) && w.status.state == HookProcessing
    requires g < |w.status.groups| && EarlierCompleted(w.status.groups, g)
    ensures var run := RunHooks(w.jobs, w.status.groups[g], a.hook, HooksHandled(w.status.groups[g], a));
      Inv(hooks, Persist(w.(jobs := run.jobs), AfterHooks(w.status, g, run), a).world)
  {
    var n := HooksHandled(w.status.groups[g], a);
    RunHooksKeeps(hooks, w.status.groups, w.jobs, g, a.hook, n);
    RunHooksAddsHookJobs(w.jobs, w.status.groups[g], a.hook, n);
    HooksKeepPipeline(w.jobs, RunHooks(w.jobs, w.status.groups[g], a.hook, n).jobs);
    hide HooksInv, Aligned, RunHooks, PipelineInv, Schedule, OnlyHookJobsAdded, EarlierCompleted;
  }
}
