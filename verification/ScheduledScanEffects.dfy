/** What one reconcile of a ScheduledScan does to its scans and its status, in numbers and conditions a caller can
    read. */
module ScheduledScanEffects {
  import opened Options
  import L = ScanLifecycle
  import opened ScheduledScans
  import opened ScheduledScanRuns

  // ---------------------------------------------------------------- clean-up

  /** The positions of the scans in a state. */
  ghost function Places(scans: seq<Child>, state: L.ScanState): set<int> {
    set i | 0 <= i < |scans| && scans[i].state == state
  }

  /** Of the scans in the state, `deleted` are the oldest ones, as many as exceed n, and are marked. */
  ghost predicate DeletesOldest(before: seq<Child>, after: seq<Child>, state: L.ScanState, n: nat, deleted: set<int>) {
    && |after| == |before| && deleted <= Places(before, state)
    && |deleted| == (if |Places(before, state)| > n then |Places(before, state)| - n else 0)
    && (forall i :: i in Places(before, state) ==>
          (after[i].deleting <==> before[i].deleting || i in deleted))
    && (forall i, k :: i in deleted && k in Places(before, state) && k !in deleted ==>
          before[i].created <= before[k].created)
  }

  ghost function KeptPlaces(scans: seq<Child>, keep: Child -> bool): set<int> {
    set i | 0 <= i < |scans| && keep(scans[i])
  }

  lemma KeptPlacesNext(scans: seq<Child>, keep: Child -> bool)
    requires scans != []
    ensures var n := |scans| - 1;
      && n !in KeptPlaces(scans[..n], keep)
      && KeptPlaces(scans, keep) == KeptPlaces(scans[..n], keep) + if keep(scans[n]) then {n} else {}
  {}

  lemma FilterNext(scans: seq<Child>, keep: Child -> bool)
    requires scans != []
    ensures var n := |scans| - 1;
      |Filter(scans, keep)| == |Filter(scans[..n], keep)| + if keep(scans[n]) then 1 else 0
  {}

  lemma {:induction false} FilterCount(scans: seq<Child>, keep: Child -> bool)
    ensures |Filter(scans, keep)| == |KeptPlaces(scans, keep)|
  {
    if scans == [] {
      assert KeptPlaces(scans, keep) == {};
    } else {
      FilterNext(scans, keep);
      KeptPlacesNext(scans, keep);
      hide Filter, KeptPlaces;
      FilterCount(scans[..|scans| - 1], keep);
    }
  }

  lemma SameSlots(a: seq<Child>, b: seq<Child>)
    requires DistinctSlots(a) && DistinctSlots(b) && forall c :: c in a <==> c in b
    ensures |a| == |b|
  {
    DistinctCount(a);
    DistinctCount(b);
    assert Slots(a) == Slots(b);
  }

  lemma PlacesCount(scans: seq<Child>, state: L.ScanState)
    ensures |Places(scans, state)| == |InState(scans, state)|
  {
    var keep := (c: Child) => c.state == state;
    FilterCount(scans, keep);
    hide Filter;
    assert Places(scans, state) == KeptPlaces(scans, keep);
  }

  /** Where the victims stand in the list. */
  ghost function PlacesOf(scans: seq<Child>, victims: seq<Child>): set<int> {
    set i | 0 <= i < |scans| && scans[i] in victims
  }

  lemma PlacesOfCount(scans: seq<Child>, victims: seq<Child>)
    requires DistinctSlots(scans) && DistinctSlots(victims) && forall v <- victims :: v in scans
    ensures |PlacesOf(scans, victims)| == |victims|
  {
    var keep := (c: Child) => c in victims;
    FilterCount(scans, keep);
    FilterMeaning(scans, keep);
    FilterIsDistinct(scans, keep);
    hide Filter, DistinctSlots;
    SameSlots(victims, Filter(scans, keep));
    assert PlacesOf(scans, victims) == KeptPlaces(scans, keep);
  }

  lemma TrimmedDeletesOldest(before: seq<Child>, after: seq<Child>, state: L.ScanState, n: nat, victims: seq<Child>)
    requires DistinctSlots(before) && Trimmed(before, after, state, n, victims)
    ensures DeletesOldest(before, after, state, n, PlacesOf(before, victims))
  {
    PlacesCount(before, state);
    PlacesOfCount(before, victims);
    hide InState, DistinctSlots;
    var deleted := PlacesOf(before, victims);
    forall i | 0 <= i < |before| ensures before[i] in before {}
    assert |deleted| == if |Places(before, state)| > n then |Places(before, state)| - n else 0;
    VictimPlaces(before, state, victims);
    assert forall i :: i in Places(before, state) ==> (after[i].deleting <==> before[i].deleting || i in deleted);
    assert forall i, k :: i in deleted && k in Places(before, state) && k !in deleted ==>
      before[i].created <= before[k].created;
  }

  lemma VictimPlaces(before: seq<Child>, state: L.ScanState, victims: seq<Child>)
    requires forall v <- victims :: v.state == state
    ensures PlacesOf(before, victims) <= Places(before, state)
    ensures forall i :: i in Places(before, state) ==> (i in PlacesOf(before, victims) <==> before[i] in victims)
  {}

  /** A clean-up that passes keeps as many of the newest successful and of the newest failed scans as the limits say,
      three and one where they are not given. */
  lemma CleanupDeletesTheOldest(spec: Spec, w: World, a: Answers)
    requires DistinctSlots(w.children) && Cleanup(spec, w, a).go
    ensures var after := Cleanup(spec, w, a).world.children;
            var good := if spec.successfulLimit.Some? then spec.successfulLimit.value else 3;
            var bad := if spec.failedLimit.Some? then spec.failedLimit.value else 1;
      && (exists deleted :: DeletesOldest(w.children, after, L.Done, good, deleted))
      && (exists deleted :: DeletesOldest(w.children, after, L.Errored, bad, deleted))
      && |after| == |w.children|
      && forall i :: 0 <= i < |after| && w.children[i].state !in {L.Done, L.Errored} ==> after[i] == w.children[i]
  {
    CleanupMeaning(spec, w, a);
    var after := Cleanup(spec, w, a).world.children;
    var good := Victims(w.children, L.Done, Limit(spec.successfulLimit, 3), a);
    var bad := Victims(w.children, L.Errored, Limit(spec.failedLimit, 1), a);
    hide Cleanup, Victims, DistinctSlots, DeletesOldest, Kept, Trimmed, NewestDone, InState;
    TrimmedDeletesOldest(w.children, after, L.Done, Limit(spec.successfulLimit, 3), good);
    TrimmedDeletesOldest(w.children, after, L.Errored, Limit(spec.failedLimit, 1), bad);
    TrimmedLength(w.children, after, L.Done, Limit(spec.successfulLimit, 3), good);
  }

  lemma TrimmedLength(before: seq<Child>, after: seq<Child>, state: L.ScanState, n: nat, victims: seq<Child>)
    requires Trimmed(before, after, state, n, victims)
    ensures |after| == |before|
  {}

  /** If none of these scans was marked before, the marks are exactly as many as there are scans too many. */
  lemma NewMarks(before: seq<Child>, after: seq<Child>, state: L.ScanState, n: nat, deleted: set<int>)
    requires DeletesOldest(before, after, state, n, deleted)
    requires forall i :: i in Places(before, state) ==> !before[i].deleting
    ensures |set i | i in Places(before, state) && after[i].deleting| ==
            if |Places(before, state)| > n then |Places(before, state)| - n else 0
  {
    assert (set i | i in Places(before, state) && after[i].deleting) == deleted;
  }

  lemma {:induction false} DeleteAllGoesOn(children: seq<Child>, victims: seq<Child>, delete: Child -> DeleteOutcome)
    ensures DeleteAll(children, victims, delete).1 <==> forall v <- victims :: delete(v).Deleted?
    decreases |victims|
  {
    if victims != [] {
      DeleteAllGoesOn(Mark(children, victims[0].slot), victims[1..], delete);
      assert victims[0] in victims && forall v :: v in victims <==> v == victims[0] || v in victims[1..];
      hide Mark;
    }
  }

  /** The first deletion that fails is the last one tried: the scans before it are marked, it may be, and those after it
      are left alone. */
  lemma {:induction false} FailureEndsDeletions(children: seq<Child>, victims: seq<Child>,
                                                delete: Child -> DeleteOutcome, k: nat)
    requires k < |victims| && !delete(victims[k]).Deleted? && forall j :: 0 <= j < k ==> delete(victims[j]).Deleted?
    ensures var (after, ok) := DeleteAll(children, victims, delete);
      && !ok && |after| == |children|
      && forall i :: 0 <= i < |children| ==>
           after[i] == if Names(victims[..k], children[i].slot) ||
                          (delete(victims[k]).applied && victims[k].slot == children[i].slot)
                       then children[i].(deleting := true) else children[i]
    decreases k
  {
    MarkMeaning(children, victims[0].slot);
    DeleteAllNext(children, victims, delete);
    if k > 0 {
      var marked := Mark(children, victims[0].slot);
      assert victims[1..][..k - 1] == victims[..k][1..] && victims[..k][0] == victims[0];
      assert forall j :: 0 <= j < k - 1 ==> victims[1..][j] == victims[j + 1];
      FailureEndsDeletions(marked, victims[1..], delete, k - 1);
      hide DeleteAll, Mark;
      forall i | 0 <= i < |children|
        ensures Names(victims[..k], children[i].slot) <==>
                victims[0].slot == children[i].slot || Names(victims[1..][..k - 1], children[i].slot)
      {
        NamesNext(victims[..k], children[i].slot);
      }
    }
  }

  // ---------------------------------------------------------------- the next run

  /** When the next run is: cron counts from the last run, or from the creation, but not from a time still to come; an
      interval from the last run, and without one the time was a second ago. Without either there is none. */
  lemma NextRun(spec: Spec, status: Status, now: int)
    ensures spec.schedule.Cron? ==>
              var last := if status.lastScheduleTime.Some? then status.lastScheduleTime.value else spec.createdAt;
              NextSchedule(spec, status, now) == Some(spec.schedule.next(if last <= now then last else now))
    ensures spec.schedule.NoSchedule? && spec.interval > 0 ==>
              NextSchedule(spec, status, now) ==
              Some(if status.lastScheduleTime.Some? then status.lastScheduleTime.value + spec.interval
                   else now - 1_000_000_000)
    ensures NextSchedule(spec, status, now).None? <==>
            spec.schedule.Unparseable? || (spec.schedule.NoSchedule? && spec.interval <= 0)
  {}

  ghost predicate Unfinished(c: Child) { c.state != L.Done && c.state != L.Errored }

  /** The policy, the deletions it asks for, and the hash allow a run. */
  ghost predicate Allowed(spec: Spec, listed: seq<Child>, a: Answers) {
    && (spec.policy == Forbid ==> forall c <- listed :: !Unfinished(c))
    && (spec.policy == Replace ==> forall c <- listed :: Unfinished(c) ==> a.delete(c).Deleted?)
    && (spec.retrigger ==> a.scanType.Found? && a.patch.Stored?)
  }

  /** Nothing is in the way of a run with this name, and its scan is created. */
  ghost predicate Runs(spec: Spec, listed: seq<Child>, slot: int, a: Answers) {
    Allowed(spec, listed, a) && (forall c <- listed :: c.slot != slot) && !a.create.NotCreated?
  }

  lemma UnfinishedListed(listed: seq<Child>, tie: Child -> int)
    ensures forall c :: c in Sort(InProgress(listed), tie) <==> c in listed && Unfinished(c)
  {
    SortMeaning(InProgress(listed), tie);
    FilterMeaning(listed, (c: Child) => !L.Terminal(c.state));
    hide Sort, Filter;
  }

  lemma ReplaceGoesOn(spec: Spec, w: World, listed: seq<Child>, a: Answers)
    ensures DeleteAll(w.children, Sort(InProgress(listed), a.tie), a.delete).1 <==>
            forall c <- listed :: Unfinished(c) ==> a.delete(c).Deleted?
    ensures Sort(InProgress(listed), a.tie) == [] <==> forall c <- listed :: !Unfinished(c)
  {
    UnfinishedListed(listed, a.tie);
    var unfinished := Sort(InProgress(listed), a.tie);
    DeleteAllGoesOn(w.children, unfinished, a.delete);
    hide Sort, InProgress, DeleteAll, Unfinished;
    if unfinished != [] { assert unfinished[0] in unfinished; }
  }

  /** The state in which the scan of an allowed run is created. */
  ghost function Prepared(spec: Spec, w: World, listed: seq<Child>, a: Answers): World
    requires Allowed(spec, listed, a)
  {
    World(if spec.retrigger then w.status.(hash := Hash(a.scanType.hash)) else w.status,
          Replaced(spec, w, listed, a))
  }

  lemma RunPhases(spec: Spec, w: World, listed: seq<Child>, slot: int, a: Answers)
    ensures var after := Run(spec, w, listed, slot, a);
      && (Allowed(spec, listed, a) ==> after == StartRun(Prepared(spec, w, listed, a), slot, a))
      && (!Allowed(spec, listed, a) ==>
            |after.children| == |w.children| && after.status.lastScheduleTime == w.status.lastScheduleTime)
  {
    ReplaceGoesOn(spec, w, listed, a);
    DeleteAllOnlyMarks(w.children, Sort(InProgress(listed), a.tie), a.delete);
    MarksKeepLength(w.children, DeleteAll(w.children, Sort(InProgress(listed), a.tie), a.delete).0);
    hide DeleteAll, Sort, InProgress, OnlyMarks, StartRun, Unfinished;
  }

  /** What a run leaves: the scans as replaced, then the new one. */
  lemma RunEffects(spec: Spec, w: World, listed: seq<Child>, slot: int, a: Answers)
    requires OnlyMarks(listed, w.children)
    ensures var after := Run(spec, w, listed, slot, a);
      if Runs(spec, listed, slot, a) then
        && after.children ==
           Replaced(spec, w, listed, a) + [Child(slot, a.createdNow - a.createdNow % 1_000_000_000, L.Unset, "", false)]
        && after.status.lastScheduleTime ==
           (if a.create.Created? && a.write.Stored? then Some(a.now2 - a.now2 % 1_000_000_000)
            else w.status.lastScheduleTime)
        && after.status.hash == (if spec.retrigger then Hash(a.scanType.hash) else w.status.hash)
        && after.status.findings == w.status.findings
      else |after.children| == |w.children| && after.status.lastScheduleTime == w.status.lastScheduleTime
  {
    var replaced := Replaced(spec, w, listed, a);
    RunPhases(spec, w, listed, slot, a);
    ReplacedOnlyMarks(spec, w, listed, a);
    MarksKeepLength(listed, w.children);
    MarksKeepLength(listed, replaced);
    MarksKeepNames(listed, replaced, slot);
    assert HasSlot(listed, slot) <==> exists c <- listed :: c.slot == slot;
    hide Run, Replaced, OnlyMarks, HasSlot, Allowed;
  }

  /** For all answers: a run starts exactly if the scans were listed, the clean-up passed, the schedule is not
      suspended,
      a run is due and nothing is in its way. */
  lemma RunStartsExactly(spec: Spec, w: World, a: Answers)
    ensures var next := NextSchedule(spec, w.status, a.now0);
      StartsRun(spec, w, a) <==>
      && a.listed && Cleanup(spec, w, a).go && !spec.suspend
      && next.Some? && next.value <= a.now1 && Runs(spec, w.children, next.value / 1_000_000_000, a)
  {
    ReconcileRuns(spec, w, a);
    hide Reconcile, Run, Runs, Cleanup, NextSchedule, OnlyMarks;
    var cleaned := Cleanup(spec, w, a).world;
    MarksKeepLength(w.children, cleaned.children);
    if Goes(spec, w, a) {
      RunEffects(spec, cleaned, w.children, NextSchedule(spec, w.status, a.now0).value / 1_000_000_000, a);
      ReplacedOnlyMarks(spec, cleaned, w.children, a);
      MarksKeepLength(w.children, Replaced(spec, cleaned, w.children, a));
    }
    hide Replaced;
  }

  /** The reconcile gets as far as a due run. */
  ghost predicate Goes(spec: Spec, w: World, a: Answers) {
    var next := NextSchedule(spec, w.status, a.now0);
    a.listed && Cleanup(spec, w, a).go && !spec.suspend && next.Some? && next.value <= a.now1
  }

  lemma ReconcileRuns(spec: Spec, w: World, a: Answers)
    ensures var cleaned := Cleanup(spec, w, a).world;
      && OnlyMarks(w.children, cleaned.children)
      && cleaned.status.lastScheduleTime == w.status.lastScheduleTime && cleaned.status.hash == w.status.hash
      && Reconcile(spec, w, a) ==
         if Goes(spec, w, a)
         then Run(spec, cleaned, w.children, NextSchedule(spec, w.status, a.now0).value / 1_000_000_000, a)
         else if a.listed then cleaned else w
  {
    CleanupOnlyMarks(spec, w, a);
    hide Cleanup, Run, OnlyMarks;
  }

  /** What a started run leaves behind: the new scan at the end with the name of its time, its time and the hash in the
      status, and under Replace a mark on every scan that was unfinished; otherwise the rest is as cleaned up. */
  lemma StartedRunEffects(spec: Spec, w: World, a: Answers)
    requires StartsRun(spec, w, a)
    ensures var after, n := Reconcile(spec, w, a), |w.children|;
      && NextSchedule(spec, w.status, a.now0).Some? && |after.children| == n + 1
      && after.children[n] == Child(NextSchedule(spec, w.status, a.now0).value / 1_000_000_000,
                                    a.createdNow - a.createdNow % 1_000_000_000, L.Unset, "", false)
      && after.status.lastScheduleTime ==
         (if a.create.Created? && a.write.Stored? then Some(a.now2 - a.now2 % 1_000_000_000)
          else w.status.lastScheduleTime)
      && (spec.retrigger ==> a.scanType.Found? && after.status.hash == Hash(a.scanType.hash))
      && (!spec.retrigger ==> after.status.hash == w.status.hash)
      && (spec.policy != Replace ==> after.children[..n] == Cleanup(spec, w, a).world.children)
      && (spec.policy == Replace ==>
            forall i :: 0 <= i < n && Unfinished(w.children[i]) ==> after.children[i].deleting)
  {
    RunStartsExactly(spec, w, a);
    ReconcileRuns(spec, w, a);
    hide Reconcile, Run, Cleanup, NextSchedule, OnlyMarks, StartsRun;
    var cleaned, slot := Cleanup(spec, w, a).world, NextSchedule(spec, w.status, a.now0).value / 1_000_000_000;
    MarksKeepLength(w.children, cleaned.children);
    RunEffects(spec, cleaned, w.children, slot, a);
    ReplacedOnlyMarks(spec, cleaned, w.children, a);
    MarksKeepLength(w.children, Replaced(spec, cleaned, w.children, a));
    if spec.policy == Replace { ReplacedAreMarked(spec, cleaned, w.children, a); }
    hide Runs, Unfinished;
  }

  lemma ReplacedAreMarked(spec: Spec, w: World, listed: seq<Child>, a: Answers)
    requires OnlyMarks(listed, w.children) && spec.policy == Replace
    requires forall c <- listed :: Unfinished(c) ==> a.delete(c).Deleted?
    ensures var replaced := Replaced(spec, w, listed, a);
      |replaced| == |listed| && forall i :: 0 <= i < |listed| && Unfinished(listed[i]) ==> replaced[i].deleting
  {
    ReplaceGoesOn(spec, w, listed, a);
    var unfinished := Sort(InProgress(listed), a.tie);
    DeleteAllMeaning(w.children, unfinished, a.delete);
    UnfinishedListed(listed, a.tie);
    hide DeleteAll, Sort, InProgress, Unfinished;
    forall i | 0 <= i < |listed| && Unfinished(listed[i]) ensures Replaced(spec, w, listed, a)[i].deleting {
      assert listed[i] in unfinished && w.children[i].slot == listed[i].slot;
      assert Names(unfinished, w.children[i].slot);
    }
  }

  /** A suspended schedule, or one whose scans could not be listed, starts nothing and records no time; a reconcile
      that could not list the scans changes nothing at all. */
  lemma SuspendedScheduleWaits(spec: Spec, w: World, a: Answers)
    requires spec.suspend || !a.listed
    ensures var after := Reconcile(spec, w, a);
      && |after.children| == |w.children| && after.status.lastScheduleTime == w.status.lastScheduleTime
      && after.status.hash == w.status.hash && (!a.listed ==> after == w)
  {
    ReconcileRuns(spec, w, a);
    hide Reconcile, Run, Cleanup, NextSchedule;
  }
}
