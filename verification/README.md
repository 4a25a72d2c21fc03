# secureCodeBox: scan lifecycle, cascades and schedules in Dafny

A model of the parts of secureCodeBox that carry state or recursion, with proofs of what they guarantee. `dafny verify dfyconfig.toml` checks everything.

**Scan lifecycle and hook scheduler** (`HookGroups`, `HookOrder`, `Jobs`, `ScanLifecycle`, `ScanReconciler`, `ScanStages`, `HookRound`, `ScanRuns`, `ScanProgress`). One reconcile of a Scan is a program over an API server object (`ScanController.ScanReconciler`), proved equal to the step functions of `ScanLifecycle`; `ScanStages` and `HookRound` say for all answers of the cluster when each job, state and error comes about. `ScanRuns` and `ScanProgress` are about all runs: any sequence of reconciles and job progress, where job creation can fail, succeed, or succeed unnoticed, and a status write can be stored, lose a conflict (which the controller swallows), be refused, or never be reached because the controller died. The order of hooks is the documented one, at most one job is created per stage and hook, and Done means that everything succeeded. A lost status write after the scanner or parser job was created leaves the scan stuck for good; `AdvancesUnlessWedged` says exactly when.

**Cascading scans** (`Text`, `Sequences`, `LabelSelector`, `ScopeLimiter`, `ScopeOperators`, `ScopeRendering`, `CascadingScans`, `FollowUpScan`, `FollowUpOrder`, `CascadeTree`, `CascadeScope`, `CascadePaths`, `CascadeInheritance`, `CascadeSettings`, `CascadeMetadata`, `CascadeView`, `CascadeDisplay`). The cascading-scans hook is modelled with arbitrary findings, matches, templating and libraries. Over the whole tree of scans a root can cause: the tree is finite and bounded, every scan has its root's scope annotations and limiter, and the inherited settings, labels and annotations have a closed form, so that the chain annotation alone determines all settings that templating does not touch. A finding has the same scope for all scans of a cascade whose parse definitions have the same aliases. Aliases belong to the parse definition of each scan's results, so scope can widen where they differ; `ScopeCanWiden` is a cascade in which it happens. There are two exact conditions: over all renderers, only equal aliases are enough (`ScopeIsSharedExactlyForEqualAliases`); for one renderer and one finding, every limiter decides alike if and only if each single template renders alike, up to what an operator can tell apart (`AliasesMatterExactlyWhereTheyRender`). The rule that a variable stops at the scan its rule starts is false for templated values, because the purge compares text before templating with text after it; `RuleStopsAtItsScan` gives the exact condition and `TemplatedEnvLeaks` the failing family. `CascadeView` is the tree printed by `scbctl cascade`, with the exact condition under which its recursion ends, and `CascadeDisplay` ties it to the scans that the hook creates.

**AWS container tracker** (`CloudTracker`, `CloudTrackerRuns`). The map of running containers and the ScheduledScans in the cluster, for any history of requests and any answers of the Kubernetes API, including failed calls that took effect. That the scans of an image exist if and only if a container runs does not follow from the success of the image's last request (`LastSuccessIsNotEnough`); `ScansMatchExactlyWhenKnown` says what it follows from.

**Schedules** (`ScheduledScans`, `ScheduledScanReconciler`, `ScheduledScanRuns`, `ScheduledScanEffects`, `Retrigger`). History clean-up, concurrency policies, and the hash protocol between the ScanType and the ScheduledScan controller under clock skew. A run whose time is not recorded, because the status write was lost, stalls the schedule until the scan of that run is gone (`StalledForever`), except for the first run of an interval, which is repeated (`LostFirstRunRepeats`). `StallsExactlyWhenTimeIsLost` is the exact condition, and one conflict is enough (`OneConflictStopsTheSchedule`). Each reconcile is atomic apart from lost or refused writes.

**GitHub repository scan** (`GithubScan`). The paging loop that stops early, compared with a plain filter. With both bounds given it can miss repositories; the exact condition and an input are proved.

## Assumptions

- Lists read from the API server show all earlier creations. The names of hooks are unique, and hooks do not change while a scan runs. Jobs are not deleted while a scan watches them: an empty job list counts as completed.
- Rule names are not empty, contain no comma and are unique, as Kubernetes names; the cascade selector finds the same rules throughout a cascade.
- Scans listed by `scbctl` have unique, non-empty names; `RepeatedNamesCanCycle` shows that skipping repeated names is not enough by itself.
- Names of auto-discovered ScheduledScans are distinct for distinct images or configurations, and nothing else creates or deletes them.
- Cron is known only by a Next function; where needed, Next(t) is later than t, and on a whole second.
- The hook runs once for each finished scan. A hook job that is retried starts its follow-up scans again, so the bound of `CascadesAreBounded` is per run of the hook.
- The histories of the container tracker are those of one process. A restart empties the map of running containers while the scans stay; `RestartForgets` says what that does to an image.
- Mustache, the rule matcher, parse-domain, ip-address and the hash of a scan type are functions about which nothing is assumed.

## Where code and documentation differ

The API documentation says that the limit for failed scans of a ScheduledScan defaults to 3 (operator/apis/execution/v1/scheduledscan_types.go:33); the code uses 1 (operator/controllers/execution/scheduledscan_controller.go:108), and so does the model.

## Model

| member | source | states |
|---|---|---|
| HookGroups.OrderHookStatusesInsideAPrioClass | operator/utils/orderedhookgroups.go:94-114 | every ReadAndWrite hook alone and in input order, then one group of all ReadOnly hooks, if any |
| HookGroups.FromUnorderedList | operator/utils/orderedhookgroups.go:35-62 | the classes in descending priority, each split into its groups: the schedule that the theorems below are about |
| HookGroups.CurrentHookGroup | operator/utils/orderedhookgroups.go:14-33 | which group runs next: the first one not completed, or that all are, or that an earlier one failed |
| HookGroups.CurrentGroupMeaning | operator/utils/orderedhookgroups.go:14-33 | the selected group has an open hook, and every group before it is completed |
| HookGroups.MapHooksToHookStatus | operator/utils/orderedhookgroups.go:64-92 | one pending status per hook, in order |
| HookOrder.OrderWithinKindIsKept | operator/utils/orderedhookgroups.go:35-62 | within a priority and a supported type the schedule is the input order, nothing lost or added |
| HookOrder.HooksAreConserved | operator/utils/orderedhookgroups.go:35-62 | grouping keeps the multiset of hooks of the two supported types and drops any other |
| HookOrder.GroupsAreScheduled | operator/apis/execution/v1/scancompletionhook_types.go:33 | groups are non-empty, uniform in priority and type, ReadAndWrite hooks alone; an earlier group precedes a later one by priority, then by type |
| HookOrder.PlacesAreDistinct | operator/utils/orderedhookgroups.go:35-62 | no hook occupies two places of the schedule |
| HookOrder.GivenHooksArePlaced | operator/utils/orderedhookgroups.go:35-62 | every hook of a supported type has a place |
| HookOrder.PlacedHooksAreGiven | operator/utils/orderedhookgroups.go:35-62 | every place holds a given hook of a supported type |
| Jobs.IsBackoffLimitExceeded | operator/controllers/execution/scans/job.go:116-125 | a job has failed pods and a condition with reason BackoffLimitExceeded |
| Jobs.CheckIfAllJobsCompleted | operator/controllers/execution/scans/job.go:28-44 | one failed job decides, whatever its position; otherwise completed iff all succeeded, in particular for no job |
| Jobs.GetJobsForScan | operator/controllers/execution/scans/job.go:46-63 | the jobs with the wanted label, in order |
| Jobs.LabelledMembers | operator/controllers/execution/scans/job.go:46-63 | exactly the jobs that carry the label are found |
| ScanController.ScanReconciler.Reconcile | operator/controllers/execution/scans/scan_controller.go:66-151 | dispatch on the state changes the stored status and the jobs as the step function says, and nothing else |
| ScanController.ScanReconciler.UpdateScanStatus | operator/controllers/execution/scans/scan_controller.go:316-338 | the finish time is set once; a conflict loses the write without an error |
| ScanController.ScanReconciler.StartScan | operator/controllers/execution/scans/scan_reconciler.go:29-172 | a scanner job is created only when none exists; the write that records it may be lost |
| ScanController.ScanReconciler.CheckIfScanIsCompleted | operator/controllers/execution/scans/scan_reconciler.go:175-201 | the outcome of the scanner jobs decides between waiting, the next state and Errored |
| ScanController.ScanReconciler.StartParser | operator/controllers/execution/scans/parse_reconciler.go:23-260 | a parser job is created only when none exists |
| ScanController.ScanReconciler.CheckIfParsingIsCompleted | operator/controllers/execution/scans/parse_reconciler.go:262-288 | the outcome of the parser jobs decides between waiting, the next state and Errored |
| ScanController.ScanReconciler.SetHookStatus | operator/controllers/execution/scans/hook_reconciler.go:25-70 | the hooks' schedule is stored together with the state HookProcessing |
| ScanController.ScanReconciler.ExecuteHooks | operator/controllers/execution/scans/hook_reconciler.go:136-166 | only the current group is worked on; all groups completed is Done, a failed one Errored |
| ScanController.ScanReconciler.ExecuteGroup | operator/controllers/execution/scans/hook_reconciler.go:151-160 | each hook of the group is handled in order; an error makes the scan Errored in memory but does not end the loop |
| ScanController.ScanReconciler.ProcessHook | operator/controllers/execution/scans/hook_reconciler.go:168-185 | pending hooks are started, running ones awaited, others left alone |
| ScanController.ScanReconciler.ProcessPendingHook | operator/controllers/execution/scans/hook_reconciler.go:187-281 | an existing job is taken over, otherwise one is created |
| ScanController.ScanReconciler.ProcessInProgressHook | operator/controllers/execution/scans/hook_reconciler.go:283-306 | the outcome of the hook's jobs decides its state |
| ScanStages.SuspendedScanWaits | operator/controllers/execution/scans/scan_controller.go:86-92 | a suspended scan that is not finished keeps its status and its jobs, without an error |
| ScanStages.OnlyStoredWritesCount | operator/controllers/execution/scans/scan_controller.go:316-338 | a status write that is not stored leaves the status of every stage as it was |
| ScanStages.ScannerStage | operator/controllers/execution/scans/scan_reconciler.go:29-172 | for all answers: exactly when a scanner job is created, when the scan moves to Scanning or is Errored, and when the reconcile is an error |
| ScanStages.ParserStage | operator/controllers/execution/scans/parse_reconciler.go:23-260 | the same for the parser job |
| ScanStages.WaitingStages | operator/controllers/execution/scans/scan_reconciler.go:175-201 | while scanner or parser run no job is created; one job out of retries makes the scan Errored, success of all moves it on, anything else waits |
| ScanStages.ScheduleStage | operator/controllers/execution/scans/hook_reconciler.go:25-70 | the schedule is stored exactly if the hooks can be read and the write is stored |
| ScanStages.ClosedGroups | operator/controllers/execution/scans/hook_reconciler.go:141-150 | without an open hook: Done if every hook is Completed, Errored if the first other one has failed or was cancelled, no new job |
| HookRound.StepMeaning | operator/controllers/execution/scans/hook_reconciler.go:168-306 | one hook for all answers: its next state and job name, whether it is an error, and whether its job is created |
| HookRound.RoundMeaning | operator/controllers/execution/scans/hook_reconciler.go:151-160 | the hooks of a group do not influence each other: each moves as it would alone, also after an error of another one |
| HookRound.OpenGroupRound | operator/controllers/execution/scans/hook_reconciler.go:136-166 | while a group is open: created jobs stay whatever becomes of the write; with it every hook's move is stored, and the scan is Errored iff some hook of the group meets an error |
| HookRound.ReachedGroupsAreDistinct | operator/controllers/execution/scans/hook_reconciler.go:136-166 | in every run the groups consist of distinct hooks, as the round needs |
| ScanRuns.ReachedInv | operator/controllers/execution/scans/scan_controller.go:110-138 | in every run from submission each state implies the jobs it needs, the stored groups are the schedule, and a hook with a job has all earlier groups completed |
| ScanRuns.AtMostOneJobEach | operator/controllers/execution/scans/scan_reconciler.go:34-41 | at most one scanner job, one parser job and one job per hook is ever created, whatever writes are lost |
| ScanRuns.HooksRunInPriorityOrder | operator/apis/execution/v1/scancompletionhook_types.go:33 | once a hook has a job, every hook that must precede it has a job that succeeded |
| ScanRuns.OnlyReadOnlyHooksOverlap | operator/apis/execution/v1/scancompletionhook_types.go:33 | two unfinished hook jobs belong to ReadOnly hooks of one priority; a ReadAndWrite hook never overlaps another hook |
| ScanRuns.DoneMeansEverythingSucceeded | operator/controllers/execution/scans/hook_reconciler.go:136-166 | a Done scan has a succeeded scanner job, parser job and job for every supported hook, so the empty job list never passed for success |
| ScanRuns.PipelineOrder | operator/controllers/execution/scans/scan_controller.go:110-138 | a parser job exists only after the scanner succeeded, hook jobs only after the parser did, also on the way to Errored |
| ScanRuns.TerminalIsAbsorbing | operator/controllers/execution/scans/scan_controller.go:110-138 | Done and Errored are final: no status change and no new job |
| ScanRuns.FinishedAtMarksTheEnd | operator/controllers/execution/scans/scan_controller.go:316-338 | a finish time is stored iff the state is final, and no hook is ever Cancelled |
| ScanProgress.ChangeUsesPotential | operator/controllers/execution/scans/scan_controller.go:110-138 | every change of the stored status strictly decreases a measure over stage and hook states |
| ScanProgress.StatusChangesAreBounded | operator/controllers/execution/scans/scan_controller.go:110-138 | however often it is reconciled, a scan's status changes at most 6 + 2 * hooks times |
| ScanProgress.WedgedForever | operator/controllers/execution/scans/scan_reconciler.go:34-41 | a scan whose job exists but whose status does not say so never changes again |
| ScanProgress.ConflictAtStartWedges | operator/controllers/execution/scans/scan_controller.go:324-337 | one conflict on the first status write is enough for that, and no error is reported |
| ScanProgress.AdvancesUnlessWedged | operator/controllers/execution/scans/parse_reconciler.go:28-35 | when its jobs are finished and nothing fails, an unfinished scan advances if and only if it is not in that situation |
| ScanProgress.FaultFreeRoundsFinish | operator/controllers/execution/scans/scan_controller.go:110-138 | any reachable healthy scan that is not stuck reaches Done when jobs succeed and nothing fails |
| ScanProgress.SubmittedScansFinish | operator/controllers/execution/scans/scan_controller.go:110-138 | a submitted scan reaches Done within 6 + 2 * hooks such rounds |
| ScopeLimiter.InScopeMeaning | hooks/cascading-scans/hook/scope-limiter.ts:176-189 | in scope iff all allOf hold, no noneOf holds and, unless empty, some anyOf holds before any error |
| ScopeOperators.TemplateMeaning | hooks/cascading-scans/hook/scope-limiter.ts:88-174 | a value is rendered through its alias or itself; a text is one value unless it is empty, a list is its items unless one is empty |
| ScopeOperators.TemplatesMeaning | hooks/cascading-scans/hook/scope-limiter.ts:66-79 | an error iff one template fails; otherwise the values are those of all templates together |
| ScopeOperators.RequirementMeaning | hooks/cascading-scans/hook/scope-limiter.ts:41-85 | which requirements are errors, and when the default for missing renderings applies instead of the operator |
| ScopeOperators.ListOperators | hooks/cascading-scans/hook/scope-limiter.ts:256-277 | In: the scope is one of the values; Contains: every value is one of the scope's comma-separated items |
| ScopeOperators.CIDROperator | hooks/cascading-scans/hook/scope-limiter.ts:288-320 | InCIDR holds iff all are addresses and those of the scope's version lie in it; an error iff the scope, or the first value that does not, is no address |
| ScopeOperators.SubdomainOperator | hooks/cascading-scans/hook/scope-limiter.ts:329-360 | SubdomainOf holds iff all are listed domains whose last labels are the scope's; an error iff the scope, or the first value that is not below it, is no listed domain |
| ScopeOperators.NegatedOperators | hooks/cascading-scans/hook/scope-limiter.ts:207-240 | the other four are the negations and fail with them; an unknown operator always fails |
| ScopeLimiter.ScopeDecidesAlone | hooks/cascading-scans/hook/scope-limiter.ts:32-85 | the decision depends on no annotation but the scope annotations |
| ScopeLimiter.AllOfOnlyNarrows | hooks/cascading-scans/hook/scope-limiter.ts:176-189 | a further allOf requirement, wherever inserted, brings nothing into scope |
| ScopeLimiter.NoneOfOnlyNarrows | hooks/cascading-scans/hook/scope-limiter.ts:176-189 | nor does a further noneOf requirement |
| ScopeLimiter.UnpackRecoversList | hooks/cascading-scans/hook/scope-limiter.ts:160-174 | a rendered list is recovered if and only if no item contains ";;;;" or ends in ";" |
| LabelSelector.RoundTrip | hooks/cascading-scans/hook/kubernetes-label-selector.ts:27-71 | an independent parser recovers labels and expressions, in order, from the selector string |
| LabelSelector.SelectorText | hooks/cascading-scans/hook/kubernetes-label-selector.ts:27-71 | the text of every label and expression, labels first, separated by commas |
| LabelSelector.Injective | hooks/cascading-scans/hook/kubernetes-label-selector.ts:27-71 | different well-formed selectors have different strings |
| LabelSelector.FailsForUnknownOperators | hooks/cascading-scans/hook/kubernetes-label-selector.ts:51-70 | printing throws iff some operator is none of the four |
| LabelSelector.EmptyValueListIsAmbiguous | hooks/cascading-scans/hook/kubernetes-label-selector.ts:52-54 | without the condition on value lists two selectors share a string |
| CascadingScans.ScanObject.PurgeCascadedRuleFromScan | hooks/cascading-scans/hook/scan-helpers.ts:236-309 | the parent loses the entries and labels of the rule that started it, and nothing else |
| CascadingScans.DeleteKeys | hooks/cascading-scans/hook/scan-helpers.ts:296-305 | exactly the rule's labels are deleted |
| CascadingScans.GetScansMatchingRule | hooks/cascading-scans/hook/hook.ts:133-180 | one scan per finding in scope that matches, in order; an error in the scope check loses all |
| CascadingScans.HasScopeAnnotation | hooks/cascading-scans/hook/hook.ts:98-105 | whether a rule sets an annotation of the scope domain |
| CascadingScans.GetCascadingScans | hooks/cascading-scans/hook/hook.ts:73-118 | rules of the chain are skipped, a rule that sets scope annotations is an error, the others contribute in order |
| FollowUpOrder.StartsInOrder | hooks/cascading-scans/hook/hook.ts:73-180 | unless it fails the hook starts one scan for each triggering pair of a new rule and a finding, rule by rule and finding by finding, and no other |
| FollowUpOrder.FailsExactly | hooks/cascading-scans/hook/hook.ts:87-118 | it fails iff some new rule sets a scope annotation or deciding the scope of some finding for it throws |
| FollowUpOrder.FollowUpsAreExact | hooks/cascading-scans/hook/hook.ts:40-59 | the follow-up scans of a scan are exactly these, and none if its rule or its parse definition is gone or the hook fails |
| FollowUpScan.RuleIsRendered | hooks/cascading-scans/hook/hook.ts:344-413 | scan type, every parameter, and names, commands and variables of environment and init containers, element by element in terms of the renderer, after what the parent hands on |
| FollowUpScan.NameAndPlace | hooks/cascading-scans/hook/hook.ts:415-430 | the name with the parent's scan type replaced and the rule's name appended; resource mode and cascade settings of the parent |
| CascadeTree.RulesMeaning | hooks/cascading-scans/hook/hook.ts:87-118 | the started scans are those of the pairs of finding and new rule that trigger, all of them and no other |
| CascadeTree.ChainGrows | hooks/cascading-scans/hook/hook.ts:120-131 | the chain of a follow-up scan parses back to its parent's chain and the rule |
| CascadeTree.ScopeIsKept | hooks/cascading-scans/hook/hook.ts:216-228 | a follow-up scan has exactly its parent's scope annotations |
| CascadeTree.DescendantsExtendTheChain | hooks/cascading-scans/hook/hook.ts:87-97 | every scan of a cascade has its root's chain plus one new selected rule per level without repetition, and its root's scope |
| CascadeTree.CascadesAreFinite | hooks/cascading-scans/hook/hook.ts:87-97 | no scan is deeper below a root than the number of rules the root has not used |
| CascadeTree.CascadesAreBounded | hooks/cascading-scans/hook/hook.ts:73-180 | with at most F findings per scan there are at most F^d * R * (R-1) * ... * (R-d+1) scans at depth d |
| CascadeTree.ScopeNeverWidens | hooks/cascading-scans/hook/hook.ts:216-228 | for the same libraries, that is the same finding and the same aliases, the scope limiter decides for a descendant as for the root, whatever rules applied in between |
| CascadeScope.SameAliasesSameScope | hooks/cascading-scans/hook/hook.ts:142-147 | so a finding is in scope for a descendant iff it is for the root when their parse definitions have the same aliases |
| CascadeScope.ScopeIsSharedExactlyForEqualAliases | hooks/cascading-scans/hook/scope-limiter.ts:96-105 | for all renderers: two alias tables lead to the same decisions under every renderer, limiter and annotations if and only if they are equal |
| CascadeScope.SameRenderingSameScope | hooks/cascading-scans/hook/hook.ts:142-147 | a finding is in scope for a descendant iff it is for the root already when the aliases of both make the same of every template for it |
| ScopeRendering.AliasesMatterExactlyWhereTheyRender | hooks/cascading-scans/hook/scope-limiter.ts:88-174 | for one renderer and one finding: two alias tables lead to the same decision for every limiter and all annotations if and only if each template fails, stays unrendered, or renders to values that no operator tells apart, alike under both |
| CascadeScope.ScopeCanWiden | hooks/cascading-scans/hook/hook.ts:142-147 | a cascade in which a finding is out of scope for a scan and in scope for its follow-up scan, because of an alias |
| CascadePaths.DescendantHasPath | hooks/cascading-scans/hook/hook.ts:73-118 | every scan of a cascade is reached from its root by steps with distinct selected rules, and its chain is the root's followed by their names |
| CascadePaths.ChainNamesRules | hooks/cascading-scans/hook/hook.ts:216-228 | two paths of one cascade with the same chain of names follow the same rules |
| CascadeInheritance.EntriesAlongPath | hooks/cascading-scans/hook/scan-helpers.ts:236-309 | closed form for a purged list: what the root has that no rule up to the parent's declares, then what leaked, then the own rule's; only the last without inheritance |
| CascadeInheritance.LeakedMeaning | hooks/cascading-scans/hook/scan-helpers.ts:241-252 | an entry leaks iff an earlier step added it and neither its rule nor a later one up to the parent's declares it literally |
| CascadeInheritance.RuleStopsAtItsScan | hooks/cascading-scans/hook/scan-helpers.ts:234-235 | the documented purpose of purging holds if and only if every rendered entry is declared literally further down the path |
| CascadeInheritance.LiteralRulesStopAtTheirScan | hooks/cascading-scans/hook/scan-helpers.ts:234-235 | it holds for rules that templating leaves alone |
| CascadeSettings.ListsAlongPath | hooks/cascading-scans/hook/hook.ts:256-328 | the closed forms of environment, volumes, volume mounts and selector expressions; all but the first in terms of root and rules alone |
| CascadeSettings.LabelsAlongPath | hooks/cascading-scans/hook/scan-helpers.ts:296-305 | selector labels: the root's without every label declared above, then the own rule's |
| CascadeSettings.UnpurgedAlongPath | hooks/cascading-scans/hook/hook.ts:256-328 | inherited init containers and tolerations pile up: what a rule adds reaches all scans below |
| CascadeSettings.TolerationsStayAbsent | hooks/cascading-scans/hook/hook.ts:276-292 | inherited tolerations stay undefined, rather than empty, iff neither the root nor a rule sets any |
| CascadeSettings.AffinityAlongPath | hooks/cascading-scans/hook/hook.ts:294-299 | a scan has the affinity of the nearest rule above it that sets one, itself included, else its root's |
| CascadeSettings.SettingsOfDescendants | hooks/cascading-scans/hook/hook.ts:256-328 | every scan of the tree is reached by a path that its chain names and that determines each of its settings |
| CascadeSettings.LiteralSettingsAlongPath | hooks/cascading-scans/hook/hook.ts:256-328 | with rules that have no templates, environment, init containers, scan type and parameters follow from root and rules too |
| CascadeSettings.ChainDeterminesSettings | hooks/cascading-scans/hook/hook.ts:182-254 | two scans of a cascade with the same chain agree on all settings that templating does not touch, and on all settings if no rule has templates |
| CascadeSettings.EnvStopsAtItsScan | hooks/cascading-scans/hook/hook.ts:344-385 | the exact condition of purging for the environment, with templating as it happens in the hook |
| CascadeSettings.TemplatedEnvLeaks | hooks/cascading-scans/hook/scan-helpers.ts:241-252 | a variable reaches the scan two cascades below iff rendering changed it |
| CascadeMetadata.LastSetterMeaning | hooks/cascading-scans/hook/scan-helpers.ts:114-129 | the nearest rule of a key is the last one that sets it, and there is none iff no rule does |
| CascadeMetadata.LabelsAlongPath | hooks/cascading-scans/hook/hook.ts:301-307 | every label of a scan is what templating made of the nearest rule above it that sets it, itself included, else its root's; without inheritance only the own rule counts |
| CascadeMetadata.AnnotationsAlongPath | hooks/cascading-scans/hook/hook.ts:301-306 | the same for every annotation but the hook's own and those of the scope |
| CascadeMetadata.MetadataOfDescendants | hooks/cascading-scans/hook/hook.ts:207-229 | every scan of the tree is reached by a path that its chain names and that determines its labels and annotations, those naming hook, parent and finding included |
| CascadeMetadata.ChainDeterminesLabels | hooks/cascading-scans/hook/hook.ts:182-254 | two scans of a cascade with the same chain have the same label keys, and the same labels if no rule's labels have templates |
| CascadeView.UniqueScans | scbctl/cmd/cascading.go:51-60 | one scan per name remains, all scans if names are unique |
| CascadeView.BuildScanSubtree | scbctl/cmd/cascading.go:76-83 | ends, cycles and dangling parents included, and shows exactly the scans below, each once |
| CascadeView.BuildTree | scbctl/cmd/cascading.go:48-70 | each scan whose ancestry reaches an initial scan appears exactly once, below its parent, and no other scan does |
| CascadeView.PathIsUnique | scbctl/cmd/cascading.go:72-87 | there is one ancestry per scan |
| CascadeView.PathIsShort | scbctl/cmd/cascading.go:72-87 | no name repeats on the way down from an initial scan, so the recursion is no deeper than the number of scans |
| CascadeView.EndsWithoutCycles | scbctl/cmd/cascading.go:48-87 | for any list of scans, the recursion ends if and only if no initial scan leads to a cycle of parent annotations among the scans kept |
| CascadeView.UniqueNamesEnd | scbctl/cmd/cascading.go:48-87 | unique names leave no such cycle |
| CascadeView.RepeatedNamesCanCycle | scbctl/cmd/cascading.go:51-67 | three scans with a repeated name for which it does not end |
| CascadeDisplay.ChildNamesItsParent | hooks/cascading-scans/hook/hook.ts:208-227 | a follow-up scan's parent annotation is its parent's name, whatever annotations the rule sets |
| CascadeDisplay.DescendantsAreShown | scbctl/cmd/cascading.go:44-87 | every scan the hook started below an initial scan has its place in the tree that scbctl builds |
| CloudTracker.CloudScanReconciler.Reconcile | auto-discovery/cloud-aws/pkg/kubernetes/kubernetes.go:72-87 | tracked sets, scans and success of a request; unknown states fail and change nothing |
| CloudTracker.CloudScanReconciler.HandleCreateRequest | auto-discovery/cloud-aws/pkg/kubernetes/kubernetes.go:114-146 | the container is tracked whatever the API answers; every scan is attempted; success iff no call failed |
| CloudTracker.CloudScanReconciler.HandleDeleteRequest | auto-discovery/cloud-aws/pkg/kubernetes/kubernetes.go:149-185 | the container is forgotten; scans are deleted only when it was the last one of a known image |
| CloudTrackerRuns.RequestMeaning | auto-discovery/cloud-aws/pkg/kubernetes/kubernetes.go:72-185 | RUNNING tracks; PENDING and STOPPED forget, and succeed untouched unless it was the last container of a known image, otherwise iff all deletions are served; any other state fails and changes nothing |
| CloudTracker.MonitorService.HandleRequests | auto-discovery/cloud-aws/pkg/aws/aws.go:81-90 | all requests of a message are handled, also after a failure |
| CloudTracker.MonitorService.Receive | auto-discovery/cloud-aws/pkg/aws/aws.go:73-99 | a message is removed iff it was understood and all its requests succeeded |
| CloudTracker.RemovedExactly | auto-discovery/cloud-aws/pkg/aws/aws.go:73-99 | with distinct receipts: a message is removed iff its body is understood and none of its requests fails in the state the requests before it have led to |
| CloudTrackerRuns.TrackedAreTheRunning | auto-discovery/cloud-aws/pkg/kubernetes/kubernetes.go:114-185 | the tracked set of an image is the containers whose latest event was RUNNING, whatever fails |
| CloudTrackerRuns.ScansBelongToSeenImages | auto-discovery/cloud-aws/pkg/kubernetes/kubernetes.go:114-185 | every existing scan belongs to an image that was seen running, though maybe no container of it is left |
| CloudTrackerRuns.KnowledgeIsRight | auto-discovery/cloud-aws/pkg/kubernetes/kubernetes.go:114-185 | what the answers tell about the scans of an image is true, and agrees with its tracked set |
| CloudTrackerRuns.ScansMatchExactlyWhenKnown | auto-discovery/cloud-aws/pkg/kubernetes/kubernetes.go:114-185 | given requests and their success, scans exist iff a container is tracked, for all behaviours of failed calls, exactly when no failed call left this open |
| CloudTrackerRuns.MatchesAfterSuccessfulContact | auto-discovery/cloud-aws/pkg/kubernetes/kubernetes.go:114-185 | in particular when the image's last request that called the cluster succeeded |
| CloudTrackerRuns.LastSuccessIsNotEnough | auto-discovery/cloud-aws/pkg/kubernetes/kubernetes.go:158-162 | a history whose last request succeeded, with a tracked container and no scans |
| CloudTrackerRuns.RestartForgets | auto-discovery/cloud-aws/pkg/kubernetes/kubernetes.go:104-111 | after a restart the scans of an image still match iff none of its containers was tracked; a STOPPED deletes nothing until a served RUNNING has repaired it |
| CloudTrackerRuns.RedeliveryChangesNothing | auto-discovery/cloud-aws/pkg/aws/aws.go:73-99 | handling a message again, right after all its requests on distinct containers succeeded, changes nothing, whatever the API answers then |
| ScheduledScanController.GetScansWithState | operator/controllers/execution/scheduledscan_controller.go:272-285 | the scans in one state, sorted by creation |
| ScheduledScanController.GetScansInProgress | operator/controllers/execution/scheduledscan_controller.go:288-301 | the scans neither Done nor Errored, sorted by creation |
| ScheduledScanController.ScheduledScanReconciler.DeleteOldScans | operator/controllers/execution/scheduledscan_controller.go:304-315 | deletes all but the last maxCount, stopping at the first error |
| ScheduledScanController.ScheduledScanReconciler.Reconcile | operator/controllers/execution/scheduledscan_controller.go:51-215 | findings, clean-up and the next run, with every early return |
| ScheduledScanController.ScheduledScanReconciler.StartNext | operator/controllers/execution/scheduledscan_controller.go:130-208 | a due run: policy, stored hash, creation and recorded time, in this order |
| ScheduledScanRuns.CleanupMeaning | operator/controllers/execution/scheduledscan_controller.go:70-116 | the marks set by clean-up are those of the oldest scans beyond the limits, three and one by default, at most the limits remain, nothing unfinished is touched, and the findings are those of the newest Done scan |
| ScheduledScanRuns.KeptAtMost | operator/controllers/execution/scheduledscan_controller.go:304-315 | at most limit scans of a trimmed state are not marked for deletion |
| ScheduledScanEffects.CleanupDeletesTheOldest | operator/controllers/execution/scheduledscan_controller.go:96-116 | of the Done and of the Errored scans exactly as many as exceed the given limit, or 3 and 1, are deleted, none of them newer than one that stays; others are left alone |
| ScheduledScanEffects.NewMarks | operator/controllers/execution/scheduledscan_controller.go:304-315 | if none of them was being deleted already, the new marks are exactly as many as there are scans too many |
| ScheduledScanEffects.FailureEndsDeletions | operator/controllers/execution/scheduledscan_controller.go:304-315 | the first deletion that fails is the last one tried; which scans are then marked |
| ScheduledScanRuns.FindingsMeaning | operator/controllers/execution/scheduledscan_controller.go:73-95 | the status takes the findings of a Done scan than which none is newer |
| ScheduledScanRuns.ReconcileShape | operator/controllers/execution/scheduledscan_controller.go:51-215 | a reconcile only marks scans, or appends one fresh scan with the due name as the policy allows |
| ScheduledScanEffects.NextRun | operator/controllers/execution/scheduledscan_controller.go:217-251 | when the next run is, and that there is none exactly without a valid schedule and a positive interval |
| ScheduledScanEffects.RunStartsExactly | operator/controllers/execution/scheduledscan_controller.go:51-208 | for all answers: a run starts iff the scans are listed, clean-up passed, nothing is suspended, a run is due, policy, deletions and hash allow it, its name is free and its creation is not refused |
| ScheduledScanEffects.StartedRunEffects | operator/controllers/execution/scheduledscan_controller.go:130-208 | the new scan, the recorded time and hash, and under Replace a mark on every unfinished scan |
| ScheduledScanEffects.SuspendedScheduleWaits | operator/controllers/execution/scheduledscan_controller.go:124-130 | a suspended schedule starts no scan and records no time; without the list of scans nothing changes |
| ScheduledScanRuns.ConcurrencyPolicyHolds | operator/controllers/execution/scheduledscan_controller.go:125-208 | in every reachable state at most one scan is unfinished under Forbid, at most one unfinished scan is unmarked under Replace, and no two scans share a scheduled time |
| ScheduledScanRuns.LostRunIsNotRepeated | operator/controllers/execution/scheduledscan_controller.go:177-205 | after a lost write of the run time the same name is asked for again, so no second scan starts while the first exists |
| ScheduledScanRuns.TimeNeedsRun | operator/controllers/execution/scheduledscan_controller.go:188-205 | a run time is recorded only together with a new scan |
| ScheduledScanRuns.StallsExactlyWhenTimeIsLost | operator/controllers/execution/scheduledscan_controller.go:177-205 | a due run with nothing in its way leaves the schedule stalled iff its scan is created and its time is lost, or the following name is taken or its own; with cron or an interval of a second or more, and no scan named after a later time, iff the time is lost |
| ScheduledScanRuns.OneConflictStopsTheSchedule | operator/controllers/execution/scheduledscan_controller.go:193-205 | for any due schedule without scans: one conflict on the write of the time, everything else served, and no further run starts in any run as long as that scan exists |
| ScheduledScanRuns.StalledForever | operator/controllers/execution/scheduledscan_controller.go:177-205 | a stalled schedule starts no scan and records no time in any run, as long as the scan of the pending run exists |
| ScheduledScanRuns.DueRunStarts | operator/controllers/execution/scheduledscan_controller.go:124-208 | when nothing fails, a due run starts iff its name is free and the policy allows it; hash and time are stored with it |
| ScheduledScanRuns.FirstIntervalRunMayRepeat | operator/controllers/execution/scheduledscan_controller.go:240-246 | for an interval with no recorded run and any policy: a run starts iff the name of the current second is free and Forbid has nothing unfinished to wait for |
| ScheduledScanRuns.LostFirstRunRepeats | operator/controllers/execution/scheduledscan_controller.go:193-205 | one lost write, and one second later a second run starts, which under Replace deletes the first |
| ScheduledScanRuns.RecordedRunsMoveOn | operator/controllers/execution/scheduledscan_controller.go:217-251 | after a recorded run the next name is no earlier, and strictly later exactly with cron, an interval of a second or more, or a run that started a second late |
| Retrigger.ScanTypeReconciler.RetriggerScheduledScan | operator/utils/retrigger_scheduled_scan.go:17-28 | the faked last run lies an interval and a day before now, in whole seconds |
| Retrigger.ScanTypeReconciler.Reconcile | operator/controllers/execution/scantype_controller.go:38-100 | the loop over all ScheduledScans, ended by the first failed write; asks for a requeue iff some matching hash is missing or unreadable; a failed list is no error and changes nothing |
| Retrigger.ProcessMeaning | operator/controllers/execution/scantype_controller.go:56-94 | only outdated ScheduledScans are retriggered, and all of them if no write fails |
| Retrigger.OnlyOutdatedAreRetriggered | operator/controllers/execution/scantype_controller.go:56-94 | which ScheduledScans are given a last run an interval and a day ago, and that nothing else of any changes |
| Retrigger.ProcessSucceeds | operator/controllers/execution/scantype_controller.go:79-94 | no error iff every write that was needed was stored |
| Retrigger.FailureEndsProcess | operator/controllers/execution/scantype_controller.go:79-94 | the first write that fails is the last one tried: later ScheduledScans keep what they have |
| Retrigger.CurrentHashesStayQuiet | operator/controllers/execution/scantype_controller.go:79-94 | when every stored hash is current nothing is retriggered |
| Retrigger.SkewOfADayIsTolerated | operator/utils/retrigger_scheduled_scan.go:18-20 | a retriggered interval scan is due for a clock at most a day behind; for whole seconds, only then |
| Retrigger.RunStoresHashFirst | operator/controllers/execution/scheduledscan_controller.go:155-208 | no run time is recorded without the current hash having been stored |
| Retrigger.ChangesReachTheScans | operator/controllers/execution/scantype_controller.go:56-94 | once the ScanType controller has processed the latest change, each interval scan with a hash has the current one or is due, through all later steps |
| Retrigger.DueUntilRun | operator/controllers/execution/scantype_controller.go:79-94 | a due interval scan stays due, whatever is lost, until a run of it has started that stored the hash current at that moment |
| Retrigger.DueScanRuns | operator/controllers/execution/scheduledscan_controller.go:124-208 | a due scan that meets no obstacle runs iff its name is free and the policy allows it, and then stores the current hash and its time |
| GithubScan.CheckRepoIsInTimeFrame | scanners/git-repo-scanner/scanner/internal/git_repo_scanner/github_repo_scanner.go:221-241 | both bounds are inclusive, a missing one does not limit |
| GithubScan.ProcessReposPage | scanners/git-repo-scanner/scanner/internal/git_repo_scanner/github_repo_scanner.go:187-219 | ignored repositories are skipped, the first other one out of the frame stops the scan |
| GithubScan.ProcessRepos | scanners/git-repo-scanner/scanner/internal/git_repo_scanner/github_repo_scanner.go:140-185 | the paging loop ends after the last page, an early stop or an error, which loses all findings |
| GithubScan.PagesAreOneList | scanners/git-repo-scanner/scanner/internal/git_repo_scanner/github_repo_scanner.go:162-182 | how repositories are spread over pages makes no difference |
| GithubScan.ScanMeaning | scanners/git-repo-scanner/scanner/internal/git_repo_scanner/github_repo_scanner.go:140-219 | the place where the scan ends decides: after all pages everything that counts, at an unreadable page or rate limit an error that loses everything, at a repository out of the frame what counts before it |
| GithubScan.OnlyInFrame | scanners/git-repo-scanner/scanner/internal/git_repo_scanner/github_repo_scanner.go:187-241 | whatever order, bounds and errors, only listed repositories are reported that are not ignored and were pushed between the given bounds |
| GithubScan.ScanIsSound | scanners/git-repo-scanner/scanner/internal/git_repo_scanner/github_repo_scanner.go:187-219 | for any order and bounds the result is a first part of the plain filter |
| GithubScan.EarlyStopIsExact | scanners/git-repo-scanner/scanner/internal/git_repo_scanner/github_repo_scanner.go:149-185 | it is the whole filter with at most one bound; with both, iff nothing was wanted or no repository that counts was pushed after the end |
| GithubScan.NewRepositoryHidesOthers | scanners/git-repo-scanner/scanner/internal/git_repo_scanner/github_repo_scanner.go:187-219 | with both bounds, a repository pushed after the end hides one inside the frame |

## Left out

- BuildScanSubtree: gtree nodes are modelled as values that are returned, so two handles on one node, and what gtree does with equal names below one node, are not captured.
- GetScansWithState: sort.Slice leaves the order of scans created in the same second open; the model takes any order of them as given and sorts by insertion.
- ConcurrencyPolicyHolds: each reconcile is one step, so scans changing between two calls of one reconcile are not captured.
- ChangesReachTheScans: interval mode only; in cron mode the faked last run, a day ago, need not make a scan due, and the code does not promise it.
- A follow-up scan that the API refuses is logged and forgotten, so the tree of a cascade may be smaller than the modelled one; a scan without a cascade selector starts nothing.
- ListsAlongPath: an absent list counts as empty; only for tolerations, where the hook takes care of it, is the difference modelled.
- Legacy Scan states and hook states and their migration, finalizers, deletion after a time to live, and the deletion of S3 files.
- Requeue delays, events, logs, metrics and telemetry.
- Job and pod construction, service accounts, security contexts, CA certificates, presigned URLs.
- The error description, result links and finding counts in a scan's status.
- Mustache, lodash matching and wildcards, domain and address parsing: functions without assumptions. The list helpers inside templates (getValues, asList, split) are part of that function.
- The special patterns of JavaScript's replace in names of follow-up scans; annotations and labels that are undefined count as empty.
- The order of a selector's labels after JavaScript has put integer-like keys first: the printer is modelled on the list of labels as it comes.
- Stale informer caches, and changes of hooks, rules or a schedule's specification in the middle of a run.
- Counters of the GitHub rate limit: whether asking for the limit fails is an input.
- The GitLab scanner, the Kubernetes auto-discovery, parsers, notifiers and the persistence hooks.
