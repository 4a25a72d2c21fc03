/** Retriggering ScheduledScans when their scan type changes: two controllers that share the stored hash.
    Models operator/controllers/execution/scantype_controller.go and operator/utils/retrigger_scheduled_scan.go. */
module Retrigger {
  import opened Options
  import L = ScanLifecycle
  import opened ScheduledScans
  import R = ScheduledScanRuns

  const DAY := 24 * 3600 * SECOND

  /** A ScheduledScan: the scan type it uses, its specification, and what the cluster stores about it. */
  datatype Managed = Managed(scanType: string, spec: Spec, world: World)

  // ---------------------------------------------------------------- the ScanType controller

  /** The faked last run: so long ago that the next one is due. */
  function Retriggered(m: Managed, now: int): Managed {
    m.(world := m.world.(status := m.world.status.(lastScheduleTime := Some(Stored(now - m.spec.interval - DAY)))))
  }

  predicate Matches(m: Managed, name: string) { m.scanType == name && m.spec.retrigger }

  /** The scan has no usable hash yet. */
  predicate Waits(m: Managed, name: string) { Matches(m, name) && !m.world.status.hash.Hash? }

  predicate Outdated(m: Managed, name: string, hash: nat) {
    Matches(m, name) && m.world.status.hash.Hash? && m.world.status.hash.value != hash
  }

  /** The first n ScheduledScans after a reconcile; the flag tells whether all of them were reached. */
  function Process(scans: seq<Managed>, name: string, hash: nat, n: nat, now: nat -> int,
                   write: nat -> L.WriteOutcome): (r: (seq<Managed>, bool))
    requires n <= |scans|
    ensures |r.0| == |scans|
  {
    if n == 0 then (scans, true)
    else
      var (done, ok) := Process(scans, name, hash, n - 1, now, write);
      var m := scans[n - 1];
      if !ok || !Outdated(m, name, hash) then (done, ok)
      else if write(n - 1).Stored? then (done[n - 1 := Retriggered(m, now(n - 1))], true)
      else (done, false)
  }

  lemma ProcessNext(scans: seq<Managed>, name: string, hash: nat, n: nat, now: nat -> int, write: nat -> L.WriteOutcome)
    requires 0 < n <= |scans|
    ensures var (done, ok) := Process(scans, name, hash, n - 1, now, write);
      Process(scans, name, hash, n, now, write) ==
      if !ok || !Outdated(scans[n - 1], name, hash) then (done, ok)
      else if write(n - 1).Stored? then (done[n - 1 := Retriggered(scans[n - 1], now(n - 1))], true)
      else (done, false)
  {}

  class ScanTypeReconciler {
    var scheduledScans: seq<Managed>

    constructor (scheduledScans: seq<Managed>)
      ensures this.scheduledScans == scheduledScans
    {
      this.scheduledScans := scheduledScans;
    }

    method RetriggerScheduledScan(i: nat, now: int, write: L.WriteOutcome) returns (ok: bool)
      requires i < |scheduledScans|
      modifies this
      ensures ok <==> write.Stored?
      ensures var last := now - old(scheduledScans)[i].spec.interval - 86_400 * 1_000_000_000;
        && |scheduledScans| == |old(scheduledScans)|
        && (ok ==> scheduledScans[i].world.status.lastScheduleTime == Some(last - last % 1_000_000_000))
      ensures scheduledScans == if ok then old(scheduledScans)[i := Retriggered(old(scheduledScans)[i], now)]
              else old(scheduledScans)
    {
      var scan := scheduledScans[i];
      var fakedLastSchedule := Stored(now - scan.spec.interval - DAY);
      var status := scan.world.status.(lastScheduleTime := Some(fakedLastSchedule));
      ok := write.Stored?;
      if ok { scheduledScans := scheduledScans[i := scan.(world := scan.world.(status := status))]; }
    }

    /** An error ends the loop. When the list of ScheduledScans cannot be read there is nothing to loop over, and no
        error. */
    method Reconcile(name: string, hash: nat, listed: bool, now: nat -> int, write: nat -> L.WriteOutcome)
      returns (shouldRequeue: bool, err: bool)
      modifies this
      ensures listed ==>
                (scheduledScans, !err) == Process(old(scheduledScans), name, hash, |old(scheduledScans)|, now, write)
      ensures !listed ==> scheduledScans == old(scheduledScans) && !err && !shouldRequeue
      ensures listed && !err ==>
                (shouldRequeue <==> exists m <- old(scheduledScans) ::
                   m.scanType == name && m.spec.retrigger && !m.world.status.hash.Hash?)
    {
      shouldRequeue, err := false, false;
      if !listed { return; }
      ghost var scans := scheduledScans;
      for i := 0 to |scheduledScans|
        invariant |scheduledScans| == |scans|
        invariant (scheduledScans, true) == Process(scans, name, hash, i, now, write)
        invariant forall k :: i <= k < |scans| ==> scheduledScans[k] == scans[k]
        invariant shouldRequeue <==> SomeWaits(scans, name, i)
      {
        var scan := scheduledScans[i];
        ProcessNext(scans, name, hash, i + 1, now, write);
        SomeWaitsNext(scans, name, i);
        hide Process, SomeWaits, Retriggered;
        if scan.scanType != name { continue; }
        if !scan.spec.retrigger { continue; }
        if scan.world.status.hash.NoHash? {
          shouldRequeue := true;
          continue;
        }
        if scan.world.status.hash.Garbled? {
          shouldRequeue := true;
          continue;
        }
        if scan.world.status.hash.value != hash {
          var ok := RetriggerScheduledScan(i, now(i), write(i));
          if !ok {
            FailedWriteEnds(scans, name, hash, i, now, write);
            err := true;
            return;
          }
        }
      }
      WaitingMeaning(scans, name);
    }
  }

  /** One of the first n ScheduledScans has no usable hash yet. */
  ghost predicate SomeWaits(scans: seq<Managed>, name: string, n: nat)
    requires n <= |scans|
  {
    exists k :: 0 <= k < n && Waits(scans[k], name)
  }

  lemma SomeWaitsNext(scans: seq<Managed>, name: string, n: nat)
    requires n < |scans|
    ensures SomeWaits(scans, name, n + 1) <==> SomeWaits(scans, name, n) || Waits(scans[n], name)
  {}

  lemma WaitingMeaning(scans: seq<Managed>, name: string)
    ensures SomeWaits(scans, name, |scans|) <==>
            exists m <- scans :: m.scanType == name && m.spec.retrigger && !m.world.status.hash.Hash?
  {
    if m :| m in scans && m.scanType == name && m.spec.retrigger && !m.world.status.hash.Hash? {
      var k :| 0 <= k < |scans| && scans[k] == m;
      assert Waits(scans[k], name);
    }
  }

  lemma {:induction false} FailedWriteEnds(scans: seq<Managed>, name: string, hash: nat, i: nat, now: nat -> int,
                                           write: nat -> L.WriteOutcome)
    requires i < |scans| && Process(scans, name, hash, i, now, write).1
    requires Outdated(scans[i], name, hash) && !write(i).Stored?
    ensures Process(scans, name, hash, |scans|, now, write) == (Process(scans, name, hash, i, now, write).0, false)
  {
    ProcessNext(scans, name, hash, i + 1, now, write);
    hide Process, Retriggered, Outdated;
    StaysFailed(scans, name, hash, i + 1, |scans|, now, write);
  }

  lemma {:induction false} StaysFailed(scans: seq<Managed>, name: string, hash: nat, n: nat, m: nat, now: nat -> int,
                                       write: nat -> L.WriteOutcome)
    requires n <= m <= |scans| && !Process(scans, name, hash, n, now, write).1
    ensures Process(scans, name, hash, m, now, write) == Process(scans, name, hash, n, now, write)
  {
    if n < m {
      StaysFailed(scans, name, hash, n, m - 1, now, write);
      ProcessNext(scans, name, hash, m, now, write);
      hide Process, Retriggered, Outdated;
    }
  }

  /** What one reconcile does to each ScheduledScan: the outdated ones are retriggered, all of them if it is not cut
      short. */
  lemma {:induction false} ProcessMeaning(scans: seq<Managed>, name: string, hash: nat, n: nat, now: nat -> int,
                                          write: nat -> L.WriteOutcome)
    requires n <= |scans|
    ensures var (after, ok) := Process(scans, name, hash, n, now, write);
      && |after| == |scans|
      && (forall i :: 0 <= i < |scans| ==>
            after[i] == scans[i] ||
                (i < n && Outdated(scans[i], name, hash) && after[i] == Retriggered(scans[i], now(i))))
      && (ok ==> forall i :: 0 <= i < n && Outdated(scans[i], name, hash) ==> after[i] == Retriggered(scans[i], now(i)))
  {
    hide Outdated, Retriggered;
    if n > 0 {
      ProcessMeaning(scans, name, hash, n - 1, now, write);
    }
  }

  /** A reconcile changes only ScheduledScans of the scan type that ask for it and have another hash stored, and of
      these
      all if no write fails: their last run is then an interval and a day ago. Nothing else of them changes. */
  lemma OnlyOutdatedAreRetriggered(scans: seq<Managed>, name: string, hash: nat, now: nat -> int,
                                   write: nat -> L.WriteOutcome, i: nat)
    requires i < |scans|
    ensures var (after, ok) := Process(scans, name, hash, |scans|, now, write);
            var m, status, last :=
              after[i], scans[i].world.status, now(i) - scans[i].spec.interval - 86_400 * 1_000_000_000;
            var outdated := scans[i].scanType == name && scans[i].spec.retrigger && status.hash.Hash? &&
                            status.hash.value != hash;
      && m == scans[i].(world :=
                        scans[i].world.(status := status.(lastScheduleTime := m.world.status.lastScheduleTime)))
      && (!outdated ==> m == scans[i])
      && (ok && outdated ==> m.world.status.lastScheduleTime == Some(last - last % 1_000_000_000))
  {
    ProcessMeaning(scans, name, hash, |scans|, now, write);
    hide Process;
  }

  /** No error exactly if all writes that were needed were stored. */
  lemma {:induction false} ProcessSucceeds(scans: seq<Managed>, name: string, hash: nat, n: nat, now: nat -> int,
                                           write: nat -> L.WriteOutcome)
    requires n <= |scans|
    ensures Process(scans, name, hash, n, now, write).1 <==>
            forall i :: 0 <= i < n && scans[i].scanType == name && scans[i].spec.retrigger &&
                        scans[i].world.status.hash.Hash? && scans[i].world.status.hash.value != hash ==>
              write(i).Stored?
  {
    if n > 0 {
      ProcessSucceeds(scans, name, hash, n - 1, now, write);
      ProcessNext(scans, name, hash, n, now, write);
      hide Process, Retriggered;
    }
  }

  /** The first write that fails is the last one tried: later ScheduledScans keep what they have. */
  lemma {:induction false} FailureEndsProcess(scans: seq<Managed>, name: string, hash: nat, n: nat, k: nat,
                                              now: nat -> int, write: nat -> L.WriteOutcome)
    requires k < n <= |scans| && Outdated(scans[k], name, hash) && write(k) != L.Stored
    requires forall i :: 0 <= i < k && Outdated(scans[i], name, hash) ==> write(i) == L.Stored
    ensures var (after, ok) := Process(scans, name, hash, n, now, write);
      && !ok && (forall i :: k <= i < |scans| ==> after[i] == scans[i])
      && forall i :: 0 <= i < k && Outdated(scans[i], name, hash) ==> after[i] == Retriggered(scans[i], now(i))
  {
    ProcessSucceeds(scans, name, hash, k, now, write);
    ProcessMeaning(scans, name, hash, k, now, write);
    ProcessNext(scans, name, hash, k + 1, now, write);
    hide Process, Outdated, Retriggered;
    StaysFailed(scans, name, hash, k + 1, n, now, write);
  }

  /** When every stored hash is current there is nothing to retrigger. */
  lemma {:induction false} CurrentHashesStayQuiet(scans: seq<Managed>, name: string, hash: nat, n: nat,
                                                  now: nat -> int, write: nat -> L.WriteOutcome)
    requires n <= |scans| && forall m <- scans :: !Outdated(m, name, hash)
    ensures Process(scans, name, hash, n, now, write) == (scans, true)
  {
    if n > 0 { CurrentHashesStayQuiet(scans, name, hash, n - 1, now, write); }
  }

  // ---------------------------------------------------------------- due

  predicate Due(m: Managed, now: int) {
    var next := NextSchedule(m.spec, m.world.status, now);
    next.Some? && next.value <= now
  }

  /** A retriggered interval scan is due for a clock that is at most a day behind; for whole seconds, only then. */
  lemma SkewOfADayIsTolerated(m: Managed, now: int, otherNow: int)
    requires m.spec.schedule.NoSchedule? && m.spec.interval > 0
    ensures now - otherNow <= DAY ==> Due(Retriggered(m, now), otherNow)
    ensures (now - m.spec.interval) % SECOND == 0 ==> (Due(Retriggered(m, now), otherNow) <==> now - otherNow <= DAY)
  {
    var t := now - m.spec.interval - DAY;
    assert Stored(t) <= t;
    if (now - m.spec.interval) % SECOND == 0 {
      DayIsWholeSeconds(now - m.spec.interval);
      assert Stored(t) == t;
    }
  }

  lemma DayIsWholeSeconds(t: int)
    requires t % SECOND == 0
    ensures (t - DAY) % SECOND == 0
  {}

  lemma StaysDue(m: Managed, now: int, later: int)
    requires m.spec.schedule.NoSchedule? && Due(m, now) && now <= later
    ensures Due(m, later)
  {}

  // ---------------------------------------------------------------- both controllers together

  /** The readings of the two controllers' clocks at each moment. */
  datatype Clocks = Clocks(scanType: int -> int, scheduledScan: int -> int)

  ghost predicate Skewed(c: Clocks) {
    && (forall t :: c.scanType(t) - c.scheduledScan(t) <= DAY)
    && (forall t, u :: t <= u ==> c.scheduledScan(t) <= c.scheduledScan(u))
  }

  /** `processed`: the ScanType controller has got through all ScheduledScans since the scan type last changed. */
  datatype System = System(current: nat, processed: bool, scans: seq<Managed>)

  datatype Move =
    | Changes(hash: nat)
    | Processes(listed: bool, write: nat -> L.WriteOutcome)
    | Reconciles(i: nat, answers: Answers)
    | Evolves(i: nat, move: R.Move)

  datatype Timed = Timed(time: int, move: Move)

  /** A ScheduledScan controller that reads the scan type reads the current one. */
  function Reads(a: Answers, current: nat): Answers {
    if a.scanType.Found? then a.(scanType := Found(current)) else a
  }

  function Update(s: System, i: nat, world: World): System
    requires i < |s.scans|
  {
    s.(scans := s.scans[i := s.scans[i].(world := world)])
  }

  function Apply(name: string, c: Clocks, s: System, t: Timed): System {
    match t.move
    case Changes(hash) => s.(current := hash, processed := false)
    case Processes(listed, write) =>
      if !listed then s
      else
        var (scans, ok) := Process(s.scans, name, s.current, |s.scans|, _ => c.scanType(t.time), write);
        s.(scans := scans, processed := s.processed || ok)
    case Reconciles(i, a) =>
      if i < |s.scans|
      then Update(s, i, ScheduledScans.Reconcile(s.scans[i].spec, s.scans[i].world, Reads(a, s.current)))
      else s
    case Evolves(i, m) =>
      if i < |s.scans| && !m.Reconciles? then Update(s, i, R.Apply(s.scans[i].spec, s.scans[i].world, m)) else s
  }

  function Play(name: string, c: Clocks, s: System, moves: seq<Timed>): System {
    if moves == [] then s else Apply(name, c, Play(name, c, s, moves[..|moves| - 1]), moves[|moves| - 1])
  }

  ghost predicate InOrder(moves: seq<Timed>) {
    forall i, k :: 0 <= i < k < |moves| ==> moves[i].time <= moves[k].time
  }

  /** An interval scan with a stored hash has the current hash, or its next run is due. */
  ghost predicate UpToDateOrDue(m: Managed, name: string, current: nat, now: int) {
    Matches(m, name) && m.spec.schedule.NoSchedule? && m.spec.interval > 0 && m.world.status.hash.Hash? ==>
      m.world.status.hash == Hash(current) || Due(m, now)
  }

  ghost predicate Inv(name: string, c: Clocks, s: System, time: int) {
    s.processed ==> forall m <- s.scans :: UpToDateOrDue(m, name, s.current, c.scheduledScan(time))
  }

  /** A reconcile stores the current hash before it records a run; otherwise the status keeps its time and hash. */
  lemma RunStoresHashFirst(spec: Spec, w: World, a: Answers)
    ensures var after := ScheduledScans.Reconcile(spec, w, a).status;
      || (after.lastScheduleTime == w.status.lastScheduleTime && after.hash == w.status.hash)
      || !spec.retrigger || (a.scanType.Found? && after.hash == Hash(a.scanType.hash))
  {
    R.CleanupOnlyMarks(spec, w, a);
    hide Cleanup, DeleteAll, Sort, HasSlot;
  }

  lemma ReconcileKeeps(m: Managed, a: Answers, name: string, current: nat, now: int)
    requires UpToDateOrDue(m, name, current, now)
    ensures UpToDateOrDue(m.(world := ScheduledScans.Reconcile(m.spec, m.world, Reads(a, current))), name, current, now)
  {
    RunStoresHashFirst(m.spec, m.world, Reads(a, current));
    hide ScheduledScans.Reconcile;
  }

  lemma ProcessEstablishes(name: string, c: Clocks, s: System, time: int, write: nat -> L.WriteOutcome)
    requires Skewed(c) && Inv(name, c, s, time)
    ensures Inv(name, c, Apply(name, c, s, Timed(time, Processes(true, write))), time)
  {
    var now: nat -> int := _ => c.scanType(time);
    ProcessMeaning(s.scans, name, s.current, |s.scans|, now, write);
    var (after, ok) := Process(s.scans, name, s.current, |s.scans|, now, write);
    hide Process, Due, Retriggered;
    if ok || s.processed {
      forall m | m in after ensures UpToDateOrDue(m, name, s.current, c.scheduledScan(time)) {
        var i :| 0 <= i < |after| && after[i] == m;
        var before := s.scans[i];
        assert before in s.scans;
        if before.spec.schedule.NoSchedule? && before.spec.interval > 0 {
          SkewOfADayIsTolerated(before, c.scanType(time), c.scheduledScan(time));
        }
        RetriggerKeepsRest(before, now(i));
      }
    }
  }

  lemma RetriggerKeepsRest(m: Managed, now: int)
    ensures Retriggered(m, now).spec == m.spec && Retriggered(m, now).scanType == m.scanType
    ensures Retriggered(m, now).world.status.hash == m.world.status.hash
  {}

  lemma TimeKeepsInv(name: string, c: Clocks, s: System, time: int, later: int)
    requires Skewed(c) && Inv(name, c, s, time) && time <= later
    ensures Inv(name, c, s, later)
  {
    if s.processed {
      forall m | m in s.scans ensures UpToDateOrDue(m, name, s.current, c.scheduledScan(later)) {
        if m.spec.schedule.NoSchedule? && Due(m, c.scheduledScan(time)) {
          StaysDue(m, c.scheduledScan(time), c.scheduledScan(later));
        }
      }
    }
  }

  lemma MoveKeepsInv(name: string, c: Clocks, s: System, t: Timed)
    requires Skewed(c) && Inv(name, c, s, t.time)
    ensures Inv(name, c, Apply(name, c, s, t), t.time)
  {
    match t.move
    case Changes(hash) =>
    case Processes(listed, write) => if listed { ProcessEstablishes(name, c, s, t.time, write); }
    case Reconciles(i, a) =>
      if i < |s.scans| && s.processed {
        var before := s.scans[i];
        ReconcileKeeps(before, a, name, s.current, c.scheduledScan(t.time));
        hide ScheduledScans.Reconcile, UpToDateOrDue;
      }
    case Evolves(i, m) =>
      if i < |s.scans| && s.processed && !m.Reconciles? {
        var before := s.scans[i];
        assert before in s.scans;
        assert R.Apply(before.spec, before.world, m).status == before.world.status;
        hide Due;
      }
  }

  /** Once the ScanType controller has processed the latest change, each of its ScheduledScans has the current hash
      or is due, and stays so through reconciles, lost writes, progress of scans and time, until it runs. */
  lemma {:induction false} ChangesReachTheScans(name: string, c: Clocks, s: System, moves: seq<Timed>)
    requires Skewed(c) && InOrder(moves) && !s.processed && moves != []
    ensures Inv(name, c, Play(name, c, s, moves), moves[|moves| - 1].time)
  {
    hide Inv, Apply, Skewed;
    var before, last := moves[..|moves| - 1], moves[|moves| - 1];
    if before == [] {
      NotYetProcessed(name, c, Play(name, c, s, before), last.time);
    } else {
      ChangesReachTheScans(name, c, s, before);
      TimeKeepsInv(name, c, Play(name, c, s, before), before[|before| - 1].time, last.time);
    }
    MoveKeepsInv(name, c, Play(name, c, s, before), last);
  }

  lemma NotYetProcessed(name: string, c: Clocks, s: System, time: int)
    requires !s.processed
    ensures Inv(name, c, s, time)
  {}

  /** A due scan whose reconcile meets no obstacle runs, stores the current hash and records its time, exactly if the
      name is free and the policy allows it. */
  lemma DueScanRuns(m: Managed, a: Answers, current: nat)
    requires R.Healthy(a) && a.scanType == Found(current) && m.spec.retrigger && !m.spec.suspend
    requires a.now0 <= a.now1 && Due(m, a.now0)
    ensures R.StartsRun(m.spec, m.world, a) <==>
            !HasSlot(m.world.children, Unix(NextSchedule(m.spec, m.world.status, a.now0).value)) &&
            (m.spec.policy == Forbid ==> InProgress(m.world.children) == [])
    ensures R.StartsRun(m.spec, m.world, a) ==>
              var after := ScheduledScans.Reconcile(m.spec, m.world, a).status;
              after.hash == Hash(current) && after.lastScheduleTime == Some(Stored(a.now2))
  {
    R.DueRunStarts(m.spec, m.world, a, NextSchedule(m.spec, m.world.status, a.now0).value);
  }

  // ---------------------------------------------------------------- a due scan stays due until it runs

  /** The move is a reconcile that starts a run of the i-th ScheduledScan, with the current hash stored. */
  ghost predicate RunStarts(current: nat, m: Managed, t: Timed, i: nat) {
    && t.move.Reconciles? && t.move.i == i
    && var a := Reads(t.move.answers, current);
       R.StartsRun(m.spec, m.world, a) &&
       (m.spec.retrigger ==> ScheduledScans.Reconcile(m.spec, m.world, a).status.hash == Hash(current))
  }

  ghost predicate RunsAt(name: string, c: Clocks, s: System, moves: seq<Timed>, i: nat, l: nat)
    requires l < |moves|
  {
    var reached := Play(name, c, s, moves[..l]);
    i < |reached.scans| && RunStarts(reached.current, reached.scans[i], moves[l], i)
  }

  /** An interval scan of the list that is due. */
  ghost predicate DueScan(c: Clocks, s: System, i: nat, time: int) {
    i < |s.scans| && s.scans[i].spec.schedule.NoSchedule? && s.scans[i].spec.interval > 0 &&
        Due(s.scans[i], c.scheduledScan(time))
  }

  /** A started run of a retriggered scan comes with the hash the reconcile read. */
  lemma RunComesWithHash(spec: Spec, w: World, a: Answers)
    requires R.StartsRun(spec, w, a) && spec.retrigger
    ensures a.scanType.Found? && ScheduledScans.Reconcile(spec, w, a).status.hash == Hash(a.scanType.hash)
  {
    R.CleanupOnlyMarks(spec, w, a);
    var cleaned := Cleanup(spec, w, a).world;
    R.MarksKeepLength(w.children, cleaned.children);
    hide Cleanup, R.OnlyMarks, NextSchedule;
    if NextSchedule(spec, cleaned.status, a.now0).Some? {
      RunStoresHash(spec, cleaned, w.children, Unix(NextSchedule(spec, cleaned.status, a.now0).value), a);
    }
    hide Run;
  }

  lemma RunStoresHash(spec: Spec, w: World, listed: seq<Child>, slot: int, a: Answers)
    requires spec.retrigger
    ensures var after := Run(spec, w, listed, slot, a);
      |after.children| <= |w.children| || (a.scanType.Found? && after.status.hash == Hash(a.scanType.hash))
  {
    R.DeleteAllOnlyMarks(w.children, Sort(InProgress(listed), a.tie), a.delete);
    R.MarksKeepLength(w.children, DeleteAll(w.children, Sort(InProgress(listed), a.tie), a.delete).0);
    hide DeleteAll, Sort, InProgress, HasSlot, R.OnlyMarks;
  }

  lemma ReconcileKeepsDue(c: Clocks, s: System, t: Timed, i: nat)
    requires DueScan(c, s, i, t.time) && t.move.Reconciles? && t.move.i == i
    ensures var m, a := s.scans[i], Reads(t.move.answers, s.current);
      Due(m.(world := ScheduledScans.Reconcile(m.spec, m.world, a)), c.scheduledScan(t.time)) ||
          RunStarts(s.current, m, t, i)
  {
    var m, a := s.scans[i], Reads(t.move.answers, s.current);
    R.TimeNeedsRun(m.spec, m.world, a);
    if R.StartsRun(m.spec, m.world, a) && m.spec.retrigger { RunComesWithHash(m.spec, m.world, a); }
    hide ScheduledScans.Reconcile, R.StartsRun;
  }

  lemma MoveKeepsDue(name: string, c: Clocks, s: System, t: Timed, i: nat)
    requires Skewed(c) && DueScan(c, s, i, t.time)
    ensures DueScan(c, Apply(name, c, s, t), i, t.time) || RunStarts(s.current, s.scans[i], t, i)
  {
    match t.move
    case Changes(hash) =>
    case Processes(listed, write) =>
      if listed { ProcessKeepsDue(name, c, s, t.time, write, i); }
    case Reconciles(j, a) =>
      if j == i { ReconcileKeepsDue(c, s, t, i); }
      hide ScheduledScans.Reconcile, Due, RunStarts;
    case Evolves(j, m) =>
      if j == i && !m.Reconciles? {
        assert R.Apply(s.scans[i].spec, s.scans[i].world, m).status == s.scans[i].world.status;
      }
      hide R.Apply;
  }

  lemma ProcessKeepsDue(name: string, c: Clocks, s: System, time: int, write: nat -> L.WriteOutcome, i: nat)
    requires Skewed(c) && DueScan(c, s, i, time)
    ensures DueScan(c, Apply(name, c, s, Timed(time, Processes(true, write))), i, time)
  {
    var now: nat -> int := _ => c.scanType(time);
    ProcessMeaning(s.scans, name, s.current, |s.scans|, now, write);
    SkewOfADayIsTolerated(s.scans[i], c.scanType(time), c.scheduledScan(time));
    hide Process, Due;
  }

  /** A ScheduledScan that is due, as it is once it has been retriggered, stays due until a run of it has started
      that stores the hash current at that moment: whatever is lost on the way, a change is not forgotten before it
      is scanned. */
  lemma {:induction false} DueUntilRun(name: string, c: Clocks, s: System, moves: seq<Timed>, i: nat, time: int)
    requires Skewed(c) && InOrder(moves) && DueScan(c, s, i, time) && (moves != [] ==> time <= moves[0].time)
    ensures DueScan(c, Play(name, c, s, moves), i, if moves == [] then time else moves[|moves| - 1].time) ||
            exists l :: 0 <= l < |moves| && RunsAt(name, c, s, moves, i, l)
  {
    hide Apply, Skewed, RunStarts, Due;
    if moves != [] {
      var n := |moves| - 1;
      var before, last := moves[..n], moves[n];
      DueUntilRun(name, c, s, before, i, time);
      if l :| 0 <= l < n && RunsAt(name, c, s, before, i, l) {
        assert before[..l] == moves[..l];
        assert RunsAt(name, c, s, moves, i, l);
      } else {
        var reached := Play(name, c, s, before);
        DueLater(c, reached, i, if before == [] then time else before[n - 1].time, last.time);
        MoveKeepsDue(name, c, reached, last, i);
        if RunStarts(reached.current, reached.scans[i], last, i) { assert RunsAt(name, c, s, moves, i, n); }
      }
    }
  }

  lemma DueLater(c: Clocks, s: System, i: nat, time: int, later: int)
    requires Skewed(c) && DueScan(c, s, i, time) && time <= later
    ensures DueScan(c, s, i, later)
  {
    StaysDue(s.scans[i], c.scheduledScan(time), c.scheduledScan(later));
  }
}
