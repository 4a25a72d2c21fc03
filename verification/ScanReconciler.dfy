/** The scan controller: methods that read and change an in-memory copy of the scan, create jobs and
    write the status back. Each is proved to do what ScanLifecycle.dfy specifies.
    Models operator/controllers/execution/scans. */
module ScanController {
  import opened Options
  import opened HookGroups
  import opened Jobs
  import opened ScanLifecycle

  /** What the Kubernetes API stores about one scan. */
  class ApiServer {
    var status: ScanStatus
    var jobs: seq<Job>

    function World(): World
      reads this
    {
      ScanLifecycle.World(status, jobs)
    }
  }

  /** The controller's working copy of the scan object. */
  class Scan {
    var status: ScanStatus

    constructor (status: ScanStatus)
      ensures this.status == status
    {
      this.status := status;
    }
  }

  class ScanReconciler {
    const api: ApiServer
    const hooks: seq<HookSpec>

    constructor (api: ApiServer, hooks: seq<HookSpec>)
      ensures this.api == api && this.hooks == hooks
    {
      this.api := api;
      this.hooks := hooks;
    }

    method Reconcile(a: Answers) returns (err: bool)
      modifies api
      ensures Reply(api.World(), err) == ScanLifecycle.Reconcile(old(api.World()), hooks, a)
    {
      var scan := new Scan(api.status);
      if scan.status.state == Unset {
        scan.status := scan.status.(state := Init);
      }
      if a.suspended {
        if scan.status.state != Done && scan.status.state != Errored {
          return false;
        }
      }
      match scan.status.state {
        case Init => err := StartScan(scan, a);
        case Scanning => err := CheckIfScanIsCompleted(scan, a);
        case ScanCompleted => err := StartParser(scan, a);
        case Parsing => err := CheckIfParsingIsCompleted(scan, a);
        case ParseCompleted => err := SetHookStatus(scan, a);
        case HookProcessing => err := ExecuteHooks(scan, a);
        case _ => err := false;
      }
    }

    method UpdateScanStatus(scan: Scan, a: Answers) returns (err: bool)
      modifies api`status, scan
      ensures scan.status == Stamp(old(scan.status), a.now)
      ensures Reply(api.World(), err) == Persist(old(api.World()), old(scan.status), a)
    {
      if scan.status.state == Done || scan.status.state == Errored {
        if scan.status.finishedAt == None {
          scan.status := scan.status.(finishedAt := Some(a.now));
        }
      }
      match a.write {
        case Stored =>
          api.status := scan.status;
          err := false;
        case Conflict => err := false;
        case _ => err := true;
      }
    }

    /** Appends the job unless the API refuses it; the caller sees an error when no success was reported. */
    method CreateJob(jobLabel: JobLabel, jobName: string, outcome: CreateOutcome) returns (err: bool)
      modifies api`jobs
      ensures api.jobs == if outcome.NotCreated? then old(api.jobs) else old(api.jobs) + [Job(jobName, jobLabel, FRESH)]
      ensures err <==> !outcome.Created?
    {
      if outcome != NotCreated {
        api.jobs := api.jobs + [Job(jobName, jobLabel, FRESH)];
      }
      err := outcome != Created;
    }

    method StartScan(scan: Scan, a: Answers) returns (err: bool)
      modifies api, scan
      ensures Reply(api.World(), err) == ScanLifecycle.StartScan(old(api.World()), old(scan.status), a)
    {
      if !a.jobsListed { return true; }
      var jobs := GetJobsForScan(api.jobs, Scanner);
      if |jobs| > 0 { return false; }
      if !a.finalizerStored { return true; }
      if !a.definitionFound {
        scan.status := scan.status.(state := Errored);
        var _ := UpdateScanStatus(scan, a);
        return true;
      }
      var refused := CreateJob(Scanner, a.jobName, a.create);
      if refused { return true; }
      scan.status := scan.status.(state := Scanning);
      if !a.urlsSigned { return true; }
      // a refused status write is ignored here, unlike in every other stage
      var _ := UpdateScanStatus(scan, a);
      return a.write == Crashed;
    }

    method CheckIfScanIsCompleted(scan: Scan, a: Answers) returns (err: bool)
      modifies api, scan
      ensures Reply(api.World(), err) == AwaitJob(old(api.World()), old(scan.status), Scanner, ScanCompleted, a)
    {
      if !a.jobsListed { return true; }
      var jobs := GetJobsForScan(api.jobs, Scanner);
      var completion := CheckIfAllJobsCompleted(jobs);
      match completion {
        case JobsCompleted =>
          scan.status := scan.status.(state := ScanCompleted);
          err := UpdateScanStatus(scan, a);
        case JobsFailed =>
          scan.status := scan.status.(state := Errored);
          err := UpdateScanStatus(scan, a);
        case JobsIncomplete => err := false;
      }
    }

    method StartParser(scan: Scan, a: Answers) returns (err: bool)
      modifies api, scan
      ensures Reply(api.World(), err) == ScanLifecycle.StartParser(old(api.World()), old(scan.status), a)
    {
      if !a.jobsListed { return true; }
      var jobs := GetJobsForScan(api.jobs, Parser);
      if |jobs| > 0 { return false; }
      if !a.definitionFound {
        scan.status := scan.status.(state := Errored);
        var _ := UpdateScanStatus(scan, a);
        return true;
      }
      if !a.urlsSigned { return true; }
      var refused := CreateJob(Parser, a.jobName, a.create);
      if refused { return true; }
      scan.status := scan.status.(state := Parsing);
      err := UpdateScanStatus(scan, a);
    }

    method CheckIfParsingIsCompleted(scan: Scan, a: Answers) returns (err: bool)
      modifies api, scan
      ensures Reply(api.World(), err) == AwaitJob(old(api.World()), old(scan.status), Parser, ParseCompleted, a)
    {
      if !a.jobsListed { return true; }
      var jobs := GetJobsForScan(api.jobs, Parser);
      var completion := CheckIfAllJobsCompleted(jobs);
      match completion {
        case JobsCompleted =>
          scan.status := scan.status.(state := ParseCompleted);
          err := UpdateScanStatus(scan, a);
        case JobsFailed =>
          scan.status := scan.status.(state := Errored);
          err := UpdateScanStatus(scan, a);
        case JobsIncomplete => err := false;
      }
    }

    method SetHookStatus(scan: Scan, a: Answers) returns (err: bool)
      modifies api, scan
      ensures Reply(api.World(), err) == ScanLifecycle.SetHookStatus(old(api.World()), old(scan.status), hooks, a)
    {
      if !a.definitionFound { return true; }
      var hookStatuses := MapHooksToHookStatus(hooks);
      var orderedHookStatus := FromUnorderedList(hookStatuses);
      scan.status := scan.status.(groups := orderedHookStatus);
      scan.status := scan.status.(state := HookProcessing);
      err := UpdateScanStatus(scan, a);
    }

    method ExecuteHooks(scan: Scan, a: Answers) returns (err: bool)
      modifies api, scan
      ensures Reply(api.World(), err) == ScanLifecycle.ExecuteHooks(old(api.World()), old(scan.status), a)
    {
      hide RunHooks;
      var current := CurrentHookGroup(scan.status.groups);
      CurrentGroupMeaning(scan.status.groups, 0);
      err := false;
      match current {
        case Finished => scan.status := scan.status.(state := Done);
        case Work(g) =>
          var crashed;
          err, crashed := ExecuteGroup(scan, g, a);
          if crashed { return true; }
        case _ =>
          if scan.status.state == Errored { return false; }
          err := true;
          scan.status := scan.status.(state := Errored);
      }
      var writeErr := UpdateScanStatus(scan, a);
      if writeErr { return true; }
    }

    /** The loop over the hooks of the current group. */
    method ExecuteGroup(scan: Scan, g: nat, a: Answers) returns (err: bool, crashed: bool)
      requires g < |scan.status.groups|
      modifies api`jobs, scan
      ensures var group := old(scan.status.groups[g]);
              var run := RunHooks(old(api.jobs), group, a.hook, HooksHandled(group, a));
        api.jobs == run.jobs && err == run.err && scan.status == AfterHooks(old(scan.status), g, run)
      ensures crashed ==> a.write == Crashed
    {
      err, crashed := false, false;
      ghost var status, jobs := scan.status, api.jobs;
      var group := scan.status.groups[g];
      NoneHandled(jobs, status, g, a.hook);
      hide HookStep, RunHooks, Handled, AfterHooks, AfterHook;
      for k := 0 to |group|
        invariant k <= HooksHandled(group, a)
        invariant Handled(jobs, status, g, a.hook, k, api.jobs, err, scan.status)
      {
        if a.write == Crashed && k == a.hooksBeforeCrash {
          crashed := true;
          HandledMeaning(jobs, status, g, a.hook, k, api.jobs, err, scan.status);
          return;
        }
        NextHandled(jobs, status, g, a.hook, k, api.jobs, err, scan.status);
        var hook;
        hook, err := ProcessHook(scan.status.groups[g][k], a.hook(group[k].hookName));
        SetHook(scan, g, k, hook, err);
      }
      HandledMeaning(jobs, status, g, a.hook, |group|, api.jobs, err, scan.status);
    }

    /** The hook's new status in the working copy. */
    method SetHook(scan: Scan, g: nat, k: nat, hook: HookStatus, err: bool)
      requires g < |scan.status.groups| && k < |scan.status.groups[g]|
      modifies scan
      ensures scan.status == AfterHook(old(scan.status), g, k, HookRun(api.jobs, hook, err))
    {
      scan.status := scan.status.(groups := scan.status.groups[g := scan.status.groups[g][k := hook]]);
      if err {
        scan.status := scan.status.(state := Errored);
      }
    }

    method ProcessHook(hook: HookStatus, a: HookAnswer) returns (updated: HookStatus, err: bool)
      modifies api`jobs
      ensures HookRun(api.jobs, updated, err) == HookStep(old(api.jobs), hook, a)
    {
      match hook.state {
        case Pending => updated, err := ProcessPendingHook(hook, a);
        case InProgress => updated, err := ProcessInProgressHook(hook, a);
        case _ => updated, err := hook, false;
      }
    }

    method ProcessPendingHook(hook: HookStatus, a: HookAnswer) returns (updated: HookStatus, err: bool)
      modifies api`jobs
      ensures HookRun(api.jobs, updated, err) == StartHook(old(api.jobs), hook, a)
    {
      updated := hook;
      if !a.hookFound || !a.jobsListed { return updated, true; }
      var jobs := GetJobsForScan(api.jobs, LabelOf(hook));
      if |jobs| > 0 {
        return hook.(jobName := jobs[0].name, state := InProgress), false;
      }
      if !a.urlsSigned { return updated, true; }
      err := CreateJob(LabelOf(hook), a.jobName, a.create);
      if !err {
        updated := hook.(jobName := a.jobName, state := InProgress);
      }
    }

    method ProcessInProgressHook(hook: HookStatus, a: HookAnswer) returns (updated: HookStatus, err: bool)
      ensures HookRun(api.jobs, updated, err) == AwaitHook(api.jobs, hook, a)
    {
      if !a.jobsListed { return hook, true; }
      var jobs := GetJobsForScan(api.jobs, LabelOf(hook));
      var completion := CheckIfAllJobsCompleted(jobs);
      err := false;
      match completion {
        case JobsCompleted => updated := hook.(state := Completed);
        case JobsIncomplete => updated := hook;
        case JobsFailed => updated := hook.(state := if hook.state == Pending then Cancelled else Failed);
      }
    }
  }
}
