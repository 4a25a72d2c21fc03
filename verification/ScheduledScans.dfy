/** One reconcile of a ScheduledScan: history clean-up, concurrency policy and the next run.
    Models operator/controllers/execution/scheduledscan_controller.go. Times are nanoseconds. */
module ScheduledScans {
  import opened Options
  import L = ScanLifecycle

  const SECOND := 1_000_000_000

  datatype Policy = Allow | Forbid | Replace

  /** A cron expression is known by its Next function only. */
  datatype Schedule = NoSchedule | Unparseable | Cron(next: int -> int)

  datatype Spec = Spec(schedule: Schedule, interval: int, policy: Policy, suspend: bool, createdAt: int,
                       successfulLimit: Option<nat>, failedLimit: Option<nat>, retrigger: bool)

  /** The hash of the scan type is stored as text: none, not a number, or a number. */
  datatype StoredHash = NoHash | Garbled | Hash(value: nat)

  datatype Status = Status(lastScheduleTime: Option<int>, hash: StoredHash, findings: string)

  /** A scan started for the ScheduledScan; its name is the ScheduledScan's followed by `slot`, the Unix time of the
      run. */
  datatype Child = Child(slot: int, created: int, state: L.ScanState, findings: string, deleting: bool)

  datatype World = World(status: Status, children: seq<Child>)

  /** A failed delete may have taken effect. */
  datatype DeleteOutcome = Deleted | NotDeleted(applied: bool)

  datatype ScanTypeAnswer = Found(hash: nat) | Missing | Unreachable

  /** What the environment decides during one reconcile. `tie` orders scans created in the same second, which
      sort.Slice leaves open; now0 to now2 are the clock readings for the next schedule, the comparison and the
      recorded run, `createdNow` is the API server's. */
  datatype Answers = Answers(
    listed: bool, tie: Child -> int, findingsWrite: L.WriteOutcome, delete: Child -> DeleteOutcome,
    now0: int, now1: int, now2: int, createdNow: int,
    scanType: ScanTypeAnswer, patch: L.WriteOutcome, create: L.CreateOutcome, write: L.WriteOutcome)

  /** A time as stored in the cluster: whole seconds. */
  function Stored(t: int): int { t - t % SECOND }

  function Unix(t: int): int { t / SECOND }

  // ---------------------------------------------------------------- lists of scans

  predicate Before(a: Child, b: Child, tie: Child -> int) {
    a.created < b.created || (a.created == b.created && tie(a) <= tie(b))
  }

  function Insert(sorted: seq<Child>, x: Child, tie: Child -> int): seq<Child> {
    if sorted == [] || !Before(sorted[|sorted| - 1], x, tie)
    then (if sorted == [] then [x] else Insert(sorted[..|sorted| - 1], x, tie) + [sorted[|sorted| - 1]])
    else sorted + [x]
  }

  function Sort(children: seq<Child>, tie: Child -> int): seq<Child> {
    if children == [] then [] else Insert(Sort(children[..|children| - 1], tie), children[|children| - 1], tie)
  }

  function Filter(children: seq<Child>, keep: Child -> bool): seq<Child> {
    if children == [] then []
    else
      var last := children[|children| - 1];
      Filter(children[..|children| - 1], keep) + (if keep(last) then [last] else [])
  }

  function InState(children: seq<Child>, state: L.ScanState): seq<Child>
  {
    Filter(children, (c: Child) => c.state == state)
  }

  function InProgress(children: seq<Child>): seq<Child> { Filter(children, (c: Child) => !L.Terminal(c.state)) }

  /** The scans with this name marked for deletion. */
  function Mark(children: seq<Child>, slot: int): (r: seq<Child>)
    ensures |r| == |children|
  {
    if children == [] then []
    else
      var last := children[|children| - 1];
      Mark(children[..|children| - 1], slot) + [if last.slot == slot then last.(deleting := true) else last]
  }

  // ---------------------------------------------------------------- the phases

  /** A state, and whether the reconcile goes on. */
  datatype Phase = Phase(world: World, go: bool)

  function DeleteAll(children: seq<Child>, victims: seq<Child>, delete: Child -> DeleteOutcome): (seq<Child>, bool)
    decreases |victims|
  {
    if victims == [] then (children, true)
    else match delete(victims[0])
      case Deleted => DeleteAll(Mark(children, victims[0].slot), victims[1..], delete)
      case NotDeleted(applied) => (if applied then Mark(children, victims[0].slot) else children, false)
  }

  function Oldest(scans: seq<Child>, limit: nat): seq<Child> { scans[..if |scans| > limit then |scans| - limit else 0] }

  function UpdateFindings(w: World, a: Answers): Phase {
    var completed := Sort(InState(w.children, L.Done), a.tie);
    if completed == [] || completed[|completed| - 1].findings == w.status.findings then Phase(w, true)
    else if a.findingsWrite.Stored?
        then Phase(w.(status := w.status.(findings := completed[|completed| - 1].findings)), true)
    else Phase(w, false)
  }

  /** Which scans to delete is decided on the scans listed at the start of the reconcile. */
  function Trim(w: World, listed: seq<Child>, state: L.ScanState, limit: nat, a: Answers): Phase {
    var (children, ok) := DeleteAll(w.children, Oldest(Sort(InState(listed, state), a.tie), limit), a.delete);
    Phase(w.(children := children), ok)
  }

  function Limit(option: Option<nat>, default: nat): nat { match option case None => default case Some(n) => n }

  /** Findings, then both histories. */
  function Cleanup(spec: Spec, w: World, a: Answers): Phase {
    var findings := UpdateFindings(w, a);
    if !findings.go then findings
    else
      var done := Trim(findings.world, w.children, L.Done, Limit(spec.successfulLimit, 3), a);
      if !done.go then done else Trim(done.world, w.children, L.Errored, Limit(spec.failedLimit, 1), a)
  }

  /** The time of the next run; None for an error. */
  function NextSchedule(spec: Spec, status: Status, now: int): Option<int> {
    match spec.schedule
    case Unparseable => None
    case Cron(next) =>
      var earliest := if status.lastScheduleTime.Some? then status.lastScheduleTime.value else spec.createdAt;
      Some(next(if earliest > now then now else earliest))
    case NoSchedule =>
      if spec.interval > 0 then
        Some(if status.lastScheduleTime.Some? then status.lastScheduleTime.value + spec.interval else now - SECOND)
      else None
  }

  predicate HasSlot(children: seq<Child>, slot: int) { exists c <- children :: c.slot == slot }

  function NewChild(slot: int, createdNow: int): Child { Child(slot, Stored(createdNow), L.Unset, "", false) }

  /** Creating the scan of a run and recording it; a name that is taken is an error. */
  function StartRun(w: World, slot: int, a: Answers): World {
    if HasSlot(w.children, slot) || a.create.NotCreated? then w
    else
      var created := w.(children := w.children + [NewChild(slot, a.createdNow)]);
      if a.create.CreatedUnacknowledged? || !a.write.Stored? then created
      else created.(status := created.status.(lastScheduleTime := Some(Stored(a.now2))))
  }

  /** The hash is stored before the run starts. */
  function StoreHash(spec: Spec, w: World, a: Answers): Phase {
    if !spec.retrigger then Phase(w, true)
    else if a.scanType.Found? && a.patch.Stored?
        then Phase(w.(status := w.status.(hash := Hash(a.scanType.hash))), true)
    else Phase(w, false)
  }

  function Run(spec: Spec, w: World, listed: seq<Child>, slot: int, a: Answers): World {
    var unfinished := Sort(InProgress(listed), a.tie);
    if spec.policy == Forbid && unfinished != [] then w
    else
      var (children, ok) := if spec.policy == Replace then DeleteAll(w.children, unfinished, a.delete)
          else (w.children, true);
      var replaced := w.(children := children);
      if !ok then replaced
      else
        var hashed := StoreHash(spec, replaced, a);
        if hashed.go then StartRun(hashed.world, slot, a) else hashed.world
  }

  function Reconcile(spec: Spec, w: World, a: Answers): World {
    if !a.listed then w
    else
      var cleaned := Cleanup(spec, w, a);
      if !cleaned.go then cleaned.world
      else match NextSchedule(spec, cleaned.world.status, a.now0)
        case None => cleaned.world
        case Some(next) => if spec.suspend || a.now1 < next then cleaned.world
            else Run(spec, cleaned.world, w.children, Unix(next), a)
  }
}
