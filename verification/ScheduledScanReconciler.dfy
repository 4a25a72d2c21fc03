/** The ScheduledScan controller as a program over the objects it keeps in the cluster. */
module ScheduledScanController {
  import opened Options
  import L = ScanLifecycle
  import opened ScheduledScans

  /** The API server's copy of one ScheduledScan and of the scans it owns. */
  class Cluster {
    var status: Status
    var children: seq<Child>

    constructor (status: Status, children: seq<Child>)
      ensures this.status == status && this.children == children
    {
      this.status, this.children := status, children;
    }

    function Value(): World
      reads this
    {
      World(status, children)
    }

    method UpdateStatus(newStatus: Status, write: L.WriteOutcome) returns (ok: bool)
      modifies `status
      ensures ok <==> write.Stored?
      ensures status == if ok then newStatus else old(status)
    {
      ok := write.Stored?;
      if ok { status := newStatus; }
    }

    method Delete(scan: Child, answer: DeleteOutcome) returns (ok: bool)
      modifies `children
      ensures ok <==> answer.Deleted?
      ensures children == if answer == NotDeleted(false) then old(children) else Mark(old(children), scan.slot)
    {
      ok := answer.Deleted?;
      if answer != NotDeleted(false) { children := Mark(children, scan.slot); }
    }

    method Create(slot: int, createdNow: int, answer: L.CreateOutcome) returns (ok: bool)
      modifies `children
      ensures var made := !HasSlot(old(children), slot) && !answer.NotCreated?;
        && children == (if made then old(children) + [NewChild(slot, createdNow)] else old(children))
        && (ok <==> made && answer.Created?)
    {
      var taken := false;
      for i := 0 to |children|
        invariant taken <==> exists k :: 0 <= k < i && children[k].slot == slot
        invariant children == old(children)
      {
        if children[i].slot == slot { taken := true; }
      }
      ok := !taken && answer.Created?;
      if !taken && !answer.NotCreated? { children := children + [NewChild(slot, createdNow)]; }
    }
  }

  /** Insertion into a list sorted by creation time. */
  method SortByCreation(scans: seq<Child>, tie: Child -> int) returns (sorted: seq<Child>)
    ensures sorted == Sort(scans, tie)
  {
    sorted := [];
    for i := 0 to |scans|
      invariant sorted == Sort(scans[..i], tie)
    {
      assert scans[..i + 1][..i] == scans[..i];
      var rest: seq<Child> := [];
      ghost var before := sorted;
      while sorted != [] && !Before(sorted[|sorted| - 1], scans[i], tie)
        invariant Insert(before, scans[i], tie) == Insert(sorted, scans[i], tie) + rest
        decreases |sorted|
      {
        InsertBelow(sorted, scans[i], tie, rest);
        rest := [sorted[|sorted| - 1]] + rest;
        sorted := sorted[..|sorted| - 1];
      }
      assert Insert(sorted, scans[i], tie) == sorted + [scans[i]];
      sorted := sorted + [scans[i]] + rest;
    }
    assert scans[..|scans|] == scans;
  }

  lemma InsertBelow(sorted: seq<Child>, x: Child, tie: Child -> int, rest: seq<Child>)
    requires sorted != [] && !Before(sorted[|sorted| - 1], x, tie)
    ensures Insert(sorted, x, tie) + rest == Insert(sorted[..|sorted| - 1], x, tie) + ([sorted[|sorted| - 1]] + rest)
  {
    assert Insert(sorted, x, tie) == Insert(sorted[..|sorted| - 1], x, tie) + [sorted[|sorted| - 1]];
  }

  method GetScansWithState(scans: seq<Child>, state: L.ScanState, tie: Child -> int) returns (r: seq<Child>)
    ensures r == Sort(InState(scans, state), tie)
  {
    var newScans: seq<Child> := [];
    for i := 0 to |scans|
      invariant newScans == InState(scans[..i], state)
    {
      assert scans[..i + 1][..i] == scans[..i];
      if scans[i].state == state { newScans := newScans + [scans[i]]; }
    }
    assert scans[..|scans|] == scans;
    r := SortByCreation(newScans, tie);
  }

  method GetScansInProgress(scans: seq<Child>, tie: Child -> int) returns (r: seq<Child>)
    ensures r == Sort(InProgress(scans), tie)
  {
    var newScans: seq<Child> := [];
    for i := 0 to |scans|
      invariant newScans == InProgress(scans[..i])
    {
      assert scans[..i + 1][..i] == scans[..i];
      if scans[i].state != L.Done && scans[i].state != L.Errored { newScans := newScans + [scans[i]]; }
    }
    assert scans[..|scans|] == scans;
    r := SortByCreation(newScans, tie);
  }

  class ScheduledScanReconciler {
    const client: Cluster

    constructor (client: Cluster)
      ensures this.client == client
    {
      this.client := client;
    }

    method DeleteEach(scans: seq<Child>, delete: Child -> DeleteOutcome) returns (ok: bool)
      modifies client`children
      ensures (client.children, ok) == DeleteAll(old(client.children), scans, delete)
    {
      assert scans[0..] == scans;
      for i := 0 to |scans|
        invariant DeleteAll(old(client.children), scans, delete) == DeleteAll(client.children, scans[i..], delete)
      {
        assert scans[i..][0] == scans[i] && scans[i..][1..] == scans[i + 1..];
        var deleted := client.Delete(scans[i], delete(scans[i]));
        if !deleted { return false; }
      }
      return true;
    }

    /** Deletes the scans at the front of a list sorted by creation time, all but the last maxCount. */
    method DeleteOldScans(scans: seq<Child>, maxCount: nat, delete: Child -> DeleteOutcome) returns (ok: bool)
      modifies client`children
      ensures (client.children, ok) == DeleteAll(old(client.children), Oldest(scans, maxCount), delete)
    {
      var victims := Oldest(scans, maxCount);
      assert victims[0..] == victims;
      for i := 0 to |scans|
        invariant i <= |victims|
        invariant DeleteAll(old(client.children), victims, delete) == DeleteAll(client.children, victims[i..], delete)
      {
        if i >= |scans| - maxCount { assert victims[i..] == []; return true; }
        assert victims[i..][0] == scans[i] && victims[i..][1..] == victims[i + 1..];
        var deleted := client.Delete(scans[i], delete(scans[i]));
        if !deleted { return false; }
      }
      assert victims[|scans|..] == [];
      return true;
    }

    /** Copies the findings of the newest successful scan. */
    method UpdateFindings(scheduledScan: Status, completedScans: seq<Child>, a: Answers)
        returns (updated: Status, ok: bool)
      requires scheduledScan == client.status && completedScans == Sort(InState(client.children, L.Done), a.tie)
      modifies client`status
      ensures Phase(client.Value(), ok) == ScheduledScans.UpdateFindings(old(client.Value()), a)
      ensures ok ==> updated == client.status
    {
      updated := scheduledScan;
      if |completedScans| >= 1 {
        var lastFindings := completedScans[|completedScans| - 1].findings;
        if lastFindings != scheduledScan.findings {
          updated := scheduledScan.(findings := lastFindings);
          ok := client.UpdateStatus(updated, a.findingsWrite);
          return;
        }
      }
      ok := true;
    }

    method Cleanup(spec: Spec, listed: Status, childScans: seq<Child>, a: Answers)
        returns (scheduledScan: Status, ok: bool)
      requires listed == client.status && childScans == client.children
      modifies client
      ensures Phase(client.Value(), ok) == ScheduledScans.Cleanup(spec, old(client.Value()), a)
      ensures ok ==> scheduledScan == client.status
    {
      hide ScheduledScans.UpdateFindings, Sort, Filter, DeleteAll, Oldest;
      var completedScans := GetScansWithState(childScans, L.Done, a.tie);
      scheduledScan, ok := UpdateFindings(listed, completedScans, a);
      if !ok { return; }
      ok := DeleteOldScans(completedScans, Limit(spec.successfulLimit, 3), a.delete);
      if !ok { return; }
      var failedScans := GetScansWithState(childScans, L.Errored, a.tie);
      ok := DeleteOldScans(failedScans, Limit(spec.failedLimit, 1), a.delete);
    }

    /** The part of a reconcile that is only reached when a run is due. */
    method StartNext(spec: Spec, listed: Status, childScans: seq<Child>, slot: int, a: Answers)
      requires listed == client.status
      modifies client
      ensures client.Value() == Run(spec, old(client.Value()), childScans, slot, a)
    {
      hide Sort, Filter, DeleteAll, HasSlot;
      var inProgressScans := GetScansInProgress(childScans, a.tie);
      if spec.policy == Forbid && |inProgressScans| > 0 { return; }
      if spec.policy == Replace {
        var ok := DeleteEach(inProgressScans, a.delete);
        if !ok { return; }
      }
      var scheduledScan := listed;
      if spec.retrigger {
        if !a.scanType.Found? { return; }
        scheduledScan := scheduledScan.(hash := Hash(a.scanType.hash));
        var patched := client.UpdateStatus(scheduledScan, a.patch);
        if !patched { return; }
      }
      var created := client.Create(slot, a.createdNow, a.create);
      if !created { return; }
      scheduledScan := scheduledScan.(lastScheduleTime := Some(Stored(a.now2)));
      var stored := client.UpdateStatus(scheduledScan, a.write);
    }

    method Reconcile(spec: Spec, a: Answers)
      modifies client
      ensures client.Value() == ScheduledScans.Reconcile(spec, old(client.Value()), a)
    {
      hide ScheduledScans.Cleanup, Run;
      if !a.listed { return; }
      var childScans := client.children;
      var scheduledScan, ok := Cleanup(spec, client.status, childScans, a);
      if !ok { return; }
      var next := NextSchedule(spec, scheduledScan, a.now0);
      if next.None? { return; }
      if spec.suspend || a.now1 < next.value { return; }
      StartNext(spec, scheduledScan, childScans, Unix(next.value), a);
    }
  }
}
