/** What the ScheduledScan controller guarantees: history clean-up, concurrency policy and repeated runs. */
module ScheduledScanRuns {
  import opened Options
  import L = ScanLifecycle
  import opened ScheduledScans

  // ---------------------------------------------------------------- sorting and marking

  ghost predicate Sorted(s: seq<Child>) { forall i, j :: 0 <= i < j < |s| ==> s[i].created <= s[j].created }

  lemma {:induction false} InsertIsSorted(sorted: seq<Child>, x: Child, tie: Child -> int)
    requires Sorted(sorted)
    ensures Sorted(Insert(sorted, x, tie)) && multiset(Insert(sorted, x, tie)) == multiset(sorted) + multiset{x}
  {
    if sorted == [] {
      assert Insert(sorted, x, tie) == [x];
    } else {
      var front, last := sorted[..|sorted| - 1], sorted[|sorted| - 1];
      assert sorted == front + [last];
      SortedEnd(sorted);
      if !Before(last, x, tie) {
        InsertIsSorted(front, x, tie);
        InsertKeeps(front, x, tie);
        assert Insert(sorted, x, tie) == Insert(front, x, tie) + [last];
        hide Insert;
        AppendSorted(Insert(front, x, tie), last);
      } else {
        assert Insert(sorted, x, tie) == sorted + [x];
        hide Insert;
        AppendSorted(sorted, x);
      }
    }
  }

  lemma SortedEnd(s: seq<Child>)
    requires Sorted(s) && s != []
    ensures Sorted(s[..|s| - 1]) && forall c <- s :: c.created <= s[|s| - 1].created
  {}

  lemma AppendSorted(s: seq<Child>, x: Child)
    requires Sorted(s) && forall c <- s :: c.created <= x.created
    ensures Sorted(s + [x])
  {
    var t := s + [x];
    forall i, j | 0 <= i < j < |t| ensures t[i].created <= t[j].created {
      var c := t[i];
      if j == |s| { assert c in s; }
    }
  }

  lemma InsertKeeps(front: seq<Child>, x: Child, tie: Child -> int)
    requires multiset(Insert(front, x, tie)) == multiset(front) + multiset{x}
    ensures forall c <- Insert(front, x, tie) :: c in front || c == x
  {
    forall c | c in Insert(front, x, tie) ensures c in front || c == x {
      assert c in multiset(Insert(front, x, tie));
    }
  }

  lemma SortNext(children: seq<Child>, tie: Child -> int)
    ensures Sort(children, tie) == if children == [] then []
            else Insert(Sort(children[..|children| - 1], tie), children[|children| - 1], tie)
  {}

  lemma {:induction false} SortIsPermutation(children: seq<Child>, tie: Child -> int)
    ensures Sorted(Sort(children, tie)) && multiset(Sort(children, tie)) == multiset(children)
  {
    SortNext(children, tie);
    hide Sort, Insert;
    if children != [] {
      var front, last := children[..|children| - 1], children[|children| - 1];
      SortIsPermutation(front, tie);
      InsertIsSorted(Sort(front, tie), last, tie);
      assert children == front + [last];
    }
  }

  lemma SortMeaning(children: seq<Child>, tie: Child -> int)
    ensures Sorted(Sort(children, tie)) && |Sort(children, tie)| == |children|
    ensures forall c :: c in Sort(children, tie) <==> c in children
  {
    hide *;
    SortIsPermutation(children, tie);
    SameMembers(Sort(children, tie), children);
  }

  lemma SameMembers(a: seq<Child>, b: seq<Child>)
    requires multiset(a) == multiset(b)
    ensures |a| == |b| && forall c :: c in a <==> c in b
  {
    assert |multiset(a)| == |multiset(b)|;
    forall c ensures c in a <==> c in b { assert c in a <==> c in multiset(a); assert c in b <==> c in multiset(b); }
  }

  lemma {:induction false} FilterMeaning(children: seq<Child>, keep: Child -> bool)
    ensures forall c :: c in Filter(children, keep) <==> c in children && keep(c)
  {
    if children != [] {
      FilterMeaning(children[..|children| - 1], keep);
      assert children == children[..|children| - 1] + [children[|children| - 1]];
    }
  }

  ghost predicate DistinctSlots(children: seq<Child>) {
    forall i, j :: 0 <= i < j < |children| ==> children[i].slot != children[j].slot
  }

  lemma {:induction false} FilterIsDistinct(children: seq<Child>, keep: Child -> bool)
    requires DistinctSlots(children)
    ensures DistinctSlots(Filter(children, keep))
  {
    if children != [] {
      var front := children[..|children| - 1];
      FilterIsDistinct(front, keep);
      FilterMeaning(front, keep);
      var kept := Filter(front, keep);
      forall i | 0 <= i < |kept| ensures kept[i].slot != children[|children| - 1].slot {
        assert kept[i] in kept;
        var k :| 0 <= k < |front| && front[k] == kept[i];
        assert children[k] == kept[i];
      }
    }
  }

  lemma {:induction false} MarkMeaning(children: seq<Child>, slot: int)
    ensures forall i :: 0 <= i < |children| ==>
              Mark(children, slot)[i] == if children[i].slot == slot then children[i].(deleting := true)
                  else children[i]
  {
    if children != [] { MarkMeaning(children[..|children| - 1], slot); }
  }

  predicate Names(scans: seq<Child>, slot: int) { exists c <- scans :: c.slot == slot }

  /** Only `deleting` may change, and only to true. */
  ghost predicate OnlyMarks(before: seq<Child>, after: seq<Child>) {
    && |before| == |after|
    && forall i :: 0 <= i < |before| ==> after[i] == before[i] || after[i] == before[i].(deleting := true)
  }

  /** A completed deletion marks exactly the victims; one that fails may have marked some of them. */
  lemma {:induction false} DeleteAllMeaning(children: seq<Child>, victims: seq<Child>, delete: Child -> DeleteOutcome)
    ensures var (after, ok) := DeleteAll(children, victims, delete);
      && |after| == |children|
      && (forall i :: 0 <= i < |children| ==> !Names(victims, children[i].slot) ==> after[i] == children[i])
      && (forall i :: 0 <= i < |children| ==> after[i] == children[i] || after[i] == children[i].(deleting := true))
      && (ok ==> forall i :: 0 <= i < |children| && Names(victims, children[i].slot) ==> after[i].deleting)
    decreases |victims|
  {
    if victims != [] {
      MarkMeaning(children, victims[0].slot);
      var marked := Mark(children, victims[0].slot);
      DeleteAllMeaning(marked, victims[1..], delete);
      hide DeleteAll, Mark;
      forall i | 0 <= i < |children| ensures Names(victims, children[i].slot) <==>
          victims[0].slot == children[i].slot || Names(victims[1..], children[i].slot) {
        NamesNext(victims, children[i].slot);
      }
      DeleteAllNext(children, victims, delete);
    }
  }

  lemma NamesNext(victims: seq<Child>, slot: int)
    requires victims != []
    ensures Names(victims, slot) <==> victims[0].slot == slot || Names(victims[1..], slot)
  {
    assert victims == [victims[0]] + victims[1..];
  }

  lemma DeleteAllNext(children: seq<Child>, victims: seq<Child>, delete: Child -> DeleteOutcome)
    requires victims != []
    ensures DeleteAll(children, victims, delete) ==
            match delete(victims[0])
            case Deleted => DeleteAll(Mark(children, victims[0].slot), victims[1..], delete)
            case NotDeleted(applied) => (if applied then Mark(children, victims[0].slot) else children, false)
  {}

  // ---------------------------------------------------------------- clean-up

  /** The scans in a state that are not marked for deletion. */
  function Kept(children: seq<Child>, state: L.ScanState): seq<Child> {
    Filter(children, (c: Child) => c.state == state && !c.deleting)
  }

  /** The history of one state is trimmed: the marks set are those of the oldest scans, as many as exceed the limit. */
  ghost predicate Trimmed(before: seq<Child>, after: seq<Child>, state: L.ScanState, limit: nat, victims: seq<Child>) {
    && OnlyMarks(before, after)
    && DistinctSlots(victims) && (forall v <- victims :: v in before && v.state == state)
    && |victims| == (if |InState(before, state)| > limit then |InState(before, state)| - limit else 0)
    && (forall i :: 0 <= i < |before| && before[i].state == state ==>
          (after[i].deleting <==> before[i].deleting || before[i] in victims))
    && (forall v <- victims, c <- before :: c.state == state && c !in victims ==> v.created <= c.created)
  }

  /** The scans a history clean-up deletes. */
  function Victims(listed: seq<Child>, state: L.ScanState, limit: nat, a: Answers): seq<Child> {
    Oldest(Sort(InState(listed, state), a.tie), limit)
  }

  lemma TrimMeaning(w: World, listed: seq<Child>, state: L.ScanState, limit: nat, a: Answers)
    requires DistinctSlots(listed) && Trim(w, listed, state, limit, a).go && OnlyMarks(listed, w.children)
    requires forall i :: 0 <= i < |listed| && listed[i].state == state ==> w.children[i] == listed[i]
    ensures var after := Trim(w, listed, state, limit, a).world;
      && after.status == w.status
      && Trimmed(listed, after.children, state, limit, Victims(listed, state, limit, a))
      && (forall i :: 0 <= i < |listed| && listed[i].state != state ==> after.children[i] == w.children[i])
  {
    var victims := Victims(listed, state, limit, a);
    VictimsMeaning(listed, state, limit, a.tie, victims);
    DeleteAllMeaning(w.children, victims, a.delete);
    var after := Trim(w, listed, state, limit, a).world.children;
    assert DeleteAll(w.children, victims, a.delete) == (after, true);
    hide DeleteAll, Sort, Filter, Oldest, InState, Victims, Trim, Names;
    forall i | 0 <= i < |listed| ensures Names(victims, w.children[i].slot) <==> listed[i] in victims {
      NamedVictim(listed, victims, i);
      assert w.children[i].slot == listed[i].slot;
    }
    MarkedVictims(listed, w.children, after, state, limit, victims);
  }

  lemma MarkedVictims(listed: seq<Child>, children: seq<Child>, after: seq<Child>, state: L.ScanState, limit: nat,
                      victims: seq<Child>)
    requires OnlyMarks(listed, children) && |after| == |listed|
    requires forall i :: 0 <= i < |listed| && listed[i].state == state ==> children[i] == listed[i]
    requires forall i :: 0 <= i < |listed| ==> after[i] == children[i] || after[i] == children[i].(deleting := true)
    requires forall i :: 0 <= i < |listed| && listed[i] !in victims ==> after[i] == children[i]
    requires forall i :: 0 <= i < |listed| && listed[i] in victims ==> after[i].deleting
    requires DistinctSlots(victims) && forall v <- victims :: v in listed && v.state == state
    requires |victims| == if |InState(listed, state)| > limit then |InState(listed, state)| - limit else 0
    requires forall v <- victims, c <- listed :: c.state == state && c !in victims ==> v.created <= c.created
    ensures Trimmed(listed, after, state, limit, victims)
    ensures forall i :: 0 <= i < |listed| && listed[i].state != state ==> after[i] == children[i]
  {
    hide Filter, InState, DistinctSlots;
    forall i | 0 <= i < |listed| ensures after[i] == listed[i] || after[i] == listed[i].(deleting := true) {}
  }

  lemma VictimsMeaning(listed: seq<Child>, state: L.ScanState, limit: nat, tie: Child -> int, victims: seq<Child>)
    requires DistinctSlots(listed) && victims == Oldest(Sort(InState(listed, state), tie), limit)
    ensures DistinctSlots(victims) && forall v <- victims :: v in listed && v.state == state
    ensures |victims| == if |InState(listed, state)| > limit then |InState(listed, state)| - limit else 0
    ensures forall v <- victims, c <- listed :: c.state == state && c !in victims ==> v.created <= c.created
  {
    var scans := InState(listed, state);
    var sorted := Sort(scans, tie);
    FilterMeaning(listed, (c: Child) => c.state == state);
    FilterIsDistinct(listed, (c: Child) => c.state == state);
    SortMeaning(scans, tie);
    SortIsDistinct(scans, tie);
    hide Sort, Filter, InState;
    forall v | v in victims ensures v in listed && v.state == state { assert v in sorted; }
    forall v, c | v in victims && c in listed && c.state == state && c !in victims ensures v.created <= c.created {
      OldestFirst(sorted, limit, v, c);
    }
  }

  lemma NamedVictim(listed: seq<Child>, victims: seq<Child>, i: nat)
    requires DistinctSlots(listed) && i < |listed| && forall v <- victims :: v in listed
    ensures Names(victims, listed[i].slot) <==> listed[i] in victims
  {
    if Names(victims, listed[i].slot) {
      var v :| v in victims && v.slot == listed[i].slot;
      var k :| 0 <= k < |listed| && listed[k] == v;
    }
  }

  lemma OldestFirst(sorted: seq<Child>, limit: nat, v: Child, c: Child)
    requires Sorted(sorted) && v in Oldest(sorted, limit) && c in sorted && c !in Oldest(sorted, limit)
    ensures v.created <= c.created
  {
    var n := |Oldest(sorted, limit)|;
    forall k | 0 <= k < n ensures sorted[k] in Oldest(sorted, limit) { assert Oldest(sorted, limit)[k] == sorted[k]; }
    var i :| 0 <= i < n && Oldest(sorted, limit)[i] == v;
    var j :| 0 <= j < |sorted| && sorted[j] == c;
    assert j >= n;
  }

  lemma {:induction false} SortIsDistinct(scans: seq<Child>, tie: Child -> int)
    requires DistinctSlots(scans)
    ensures DistinctSlots(Sort(scans, tie))
  {
    if scans != [] {
      var front, last := scans[..|scans| - 1], scans[|scans| - 1];
      SortIsDistinct(front, tie);
      SortMeaning(front, tie);
      forall c | c in Sort(front, tie) ensures c.slot != last.slot {
        var k :| 0 <= k < |front| && front[k] == c;
      }
      InsertIsDistinct(Sort(front, tie), last, tie);
    }
  }

  lemma {:induction false} InsertIsDistinct(sorted: seq<Child>, x: Child, tie: Child -> int)
    requires DistinctSlots(sorted) && forall c <- sorted :: c.slot != x.slot
    ensures DistinctSlots(Insert(sorted, x, tie)) && forall c <- Insert(sorted, x, tie) :: c in sorted || c == x
  {
    if sorted != [] && !Before(sorted[|sorted| - 1], x, tie) {
      var front, last := sorted[..|sorted| - 1], sorted[|sorted| - 1];
      InsertIsDistinct(front, x, tie);
      var inserted := Insert(front, x, tie);
      assert Insert(sorted, x, tie) == inserted + [last];
      hide Insert;
      forall c | c in inserted ensures c.slot != last.slot {
        if c in front { var k :| 0 <= k < |front| && front[k] == c; } else { assert last in sorted; }
      }
      AppendDistinct(inserted, last);
    } else if sorted != [] {
      AppendDistinct(sorted, x);
    }
  }

  lemma AppendDistinct(s: seq<Child>, x: Child)
    requires DistinctSlots(s) && forall c <- s :: c.slot != x.slot
    ensures DistinctSlots(s + [x])
  {
    var t := s + [x];
    forall i, j | 0 <= i < j < |t| ensures t[i].slot != t[j].slot {
      var c := t[i];
      if j == |s| { assert c in s; }
    }
  }

  // ---------------------------------------------------------------- how many scans a clean-up leaves

  function Slots(scans: seq<Child>): set<int> { set c <- scans :: c.slot }

  lemma SlotsEnd(scans: seq<Child>)
    requires scans != [] && DistinctSlots(scans)
    ensures var front, last := scans[..|scans| - 1], scans[|scans| - 1];
      DistinctSlots(front) && last.slot !in Slots(front) && Slots(scans) == Slots(front) + {last.slot}
  {
    var front, last := scans[..|scans| - 1], scans[|scans| - 1];
    assert scans == front + [last];
    forall c | c in front ensures c.slot != last.slot { var k :| 0 <= k < |front| && front[k] == c; }
    hide DistinctSlots;
    forall x ensures x in Slots(scans) <==> x in Slots(front) + {last.slot} {
      if x in Slots(scans) { var c :| c in scans && c.slot == x; assert c in front || c == last; }
      if x in Slots(front) { var c :| c in front && c.slot == x; assert c in scans; }
      assert last in scans;
    }
  }

  lemma {:induction false} DistinctCount(scans: seq<Child>)
    requires DistinctSlots(scans)
    ensures |Slots(scans)| == |scans|
  {
    if scans == [] {
      assert Slots(scans) == {};
    } else {
      SlotsEnd(scans);
      hide DistinctSlots, Slots;
      DistinctCount(scans[..|scans| - 1]);
    }
  }

  lemma MarksKeepSlots(before: seq<Child>, after: seq<Child>)
    requires OnlyMarks(before, after) && DistinctSlots(before)
    ensures DistinctSlots(after)
  {
    forall i | 0 <= i < |before| ensures after[i].slot == before[i].slot {}
  }

  /** A trimmed history has at most `limit` scans that are not marked for deletion. */
  lemma KeptAtMost(before: seq<Child>, after: seq<Child>, state: L.ScanState, limit: nat, victims: seq<Child>)
    requires DistinctSlots(before) && Trimmed(before, after, state, limit, victims)
    ensures |Kept(after, state)| <= limit
  {
    var all, kept := InState(before, state), Kept(after, state);
    FilterMeaning(before, (c: Child) => c.state == state);
    FilterIsDistinct(before, (c: Child) => c.state == state);
    MarksKeepSlots(before, after);
    FilterMeaning(after, (c: Child) => c.state == state && !c.deleting);
    FilterIsDistinct(after, (c: Child) => c.state == state && !c.deleting);
    hide Filter, InState, Kept;
    forall c | c in kept ensures c.slot in Slots(all) && c.slot !in Slots(victims) {
      KeptIsNoVictim(before, after, state, limit, victims, c);
      assert c in all;
    }
    forall v | v in victims ensures v.slot in Slots(all) { assert v in all; }
    DistinctCount(all);
    DistinctCount(kept);
    DistinctCount(victims);
    hide DistinctSlots, Trimmed;
    assert Slots(kept) + Slots(victims) <= Slots(all);
    assert Slots(kept) !! Slots(victims);
    SubsetSize(Slots(kept) + Slots(victims), Slots(all));
  }

  lemma {:induction false} SubsetSize(a: set<int>, b: set<int>)
    requires a <= b
    ensures |a| <= |b|
  {
    assert b == a + (b - a);
  }

  lemma KeptIsNoVictim(before: seq<Child>, after: seq<Child>, state: L.ScanState, limit: nat, victims: seq<Child>,
                       c: Child)
    requires DistinctSlots(before) && Trimmed(before, after, state, limit, victims)
    requires c in after && c.state == state && !c.deleting
    ensures c in before && c.slot !in Slots(victims)
  {
    var i :| 0 <= i < |after| && after[i] == c;
    assert before[i].slot == c.slot && before[i].state == state && before[i] == c;
    forall v | v in victims ensures v.slot != c.slot {
      var k :| 0 <= k < |before| && before[k] == v;
      assert after[k].deleting;
    }
  }

  /** The newest successful scan, deleted or not. */
  ghost predicate NewestDone(children: seq<Child>, d: Child) {
    d in children && d.state == L.Done && forall c <- children :: c.state == L.Done ==> c.created <= d.created
  }

  lemma FindingsMeaning(w: World, a: Answers)
    requires UpdateFindings(w, a).go
    ensures var after := UpdateFindings(w, a).world;
      && after.children == w.children && after.status == w.status.(findings := after.status.findings)
      && (InState(w.children, L.Done) == [] ==> after.status == w.status)
      && (InState(w.children, L.Done) != [] ==>
          exists d :: NewestDone(w.children, d) && after.status.findings == d.findings)
  {
    var scans := InState(w.children, L.Done);
    var sorted := Sort(scans, a.tie);
    FilterMeaning(w.children, (c: Child) => c.state == L.Done);
    SortMeaning(scans, a.tie);
    var after := UpdateFindings(w, a).world;
    assert sorted != [] ==> after.status.findings == sorted[|sorted| - 1].findings;
    hide Sort, Filter, InState, UpdateFindings;
    if sorted != [] {
      var d := sorted[|sorted| - 1];
      forall c | c in w.children && c.state == L.Done ensures c.created <= d.created {
        assert c in sorted;
        var k :| 0 <= k < |sorted| && sorted[k] == c;
      }
      assert d in sorted;
      assert NewestDone(w.children, d);
    }
  }

  /** A reconcile that passes both clean-ups: the marks set are those of the oldest scans beyond the limits, nothing
      unfinished is touched, and the findings are those of the newest successful scan, even when that is deleted too. */
  lemma CleanupMeaning(spec: Spec, w: World, a: Answers)
    requires DistinctSlots(w.children) && Cleanup(spec, w, a).go
    ensures var after, good, bad :=
            Cleanup(spec, w, a).world, if spec.successfulLimit.Some? then spec.successfulLimit.value else 3,
            if spec.failedLimit.Some? then spec.failedLimit.value else 1;
      && Trimmed(w.children, after.children, L.Done, good, Victims(w.children, L.Done, good, a))
      && Trimmed(w.children, after.children, L.Errored, bad, Victims(w.children, L.Errored, bad, a))
      && |Kept(after.children, L.Done)| <= good && |Kept(after.children, L.Errored)| <= bad
      && (forall i :: 0 <= i < |w.children| && !L.Terminal(w.children[i].state) ==> after.children[i] == w.children[i])
      && (InState(w.children, L.Done) != [] ==>
          exists d :: NewestDone(w.children, d) && after.status.findings == d.findings)
      && after.status == w.status.(findings := after.status.findings)
  {
    var good, bad := Limit(spec.successfulLimit, 3), Limit(spec.failedLimit, 1);
    var findings := UpdateFindings(w, a).world;
    var done := Trim(findings, w.children, L.Done, good, a).world;
    var after := Cleanup(spec, w, a).world;
    assert UpdateFindings(w, a).go && Trim(findings, w.children, L.Done, good, a).go by { hide UpdateFindings, Trim; }
    assert Trim(done, w.children, L.Errored, bad, a) == Cleanup(spec, w, a) by { hide UpdateFindings, Trim; }
    FindingsMeaning(w, a);
    OnlyMarksSelf(w.children);
    hide UpdateFindings, Cleanup, Trim, Sort, Filter, InState, Kept, DistinctSlots, Victims, OnlyMarks, NewestDone;
    TrimMeaning(findings, w.children, L.Done, good, a);
    TrimMeaning(done, w.children, L.Errored, bad, a);
    BothTrimmed(w.children, done.children, after.children, good, bad, Victims(w.children, L.Done, good, a),
                Victims(w.children, L.Errored, bad, a));
    hide Trimmed;
    KeptAtMost(w.children, after.children, L.Done, good, Victims(w.children, L.Done, good, a));
    KeptAtMost(w.children, after.children, L.Errored, bad, Victims(w.children, L.Errored, bad, a));
  }

  /** Trimming the failed scans leaves the successful ones as they were trimmed before. */
  lemma BothTrimmed(before: seq<Child>, middle: seq<Child>, after: seq<Child>, good: nat, bad: nat, done: seq<Child>,
                    failed: seq<Child>)
    requires Trimmed(before, middle, L.Done, good, done) && Trimmed(before, after, L.Errored, bad, failed)
    requires forall i :: 0 <= i < |before| && before[i].state != L.Done ==> middle[i] == before[i]
    requires forall i :: 0 <= i < |before| && before[i].state != L.Errored ==> after[i] == middle[i]
    ensures Trimmed(before, after, L.Done, good, done)
    ensures forall i :: 0 <= i < |before| && !L.Terminal(before[i].state) ==> after[i] == before[i]
  {
    hide Filter, InState, DistinctSlots;
  }

  // ---------------------------------------------------------------- one reconcile

  lemma OnlyMarksTrans(a: seq<Child>, b: seq<Child>, c: seq<Child>)
    requires OnlyMarks(a, b) && OnlyMarks(b, c)
    ensures OnlyMarks(a, c)
  {
    forall i | 0 <= i < |a| ensures c[i] == a[i] || c[i] == a[i].(deleting := true) {}
  }

  lemma DeleteAllOnlyMarks(children: seq<Child>, victims: seq<Child>, delete: Child -> DeleteOutcome)
    ensures OnlyMarks(children, DeleteAll(children, victims, delete).0)
  {
    DeleteAllMeaning(children, victims, delete);
  }

  lemma CleanupOnlyMarks(spec: Spec, w: World, a: Answers)
    ensures OnlyMarks(w.children, Cleanup(spec, w, a).world.children)
    ensures Cleanup(spec, w, a).world.status == w.status.(findings := Cleanup(spec, w, a).world.status.findings)
  {
    var good, bad := Victims(w.children, L.Done, Limit(spec.successfulLimit, 3), a),
        Victims(w.children, L.Errored, Limit(spec.failedLimit, 1), a);
    DeleteAllOnlyMarks(w.children, good, a.delete);
    var trimmed := DeleteAll(w.children, good, a.delete).0;
    DeleteAllOnlyMarks(trimmed, bad, a.delete);
    OnlyMarksTrans(w.children, trimmed, DeleteAll(trimmed, bad, a.delete).0);
    hide DeleteAll, Sort, Filter, Oldest, OnlyMarks;
    assert OnlyMarks(w.children, w.children) by { OnlyMarksSelf(w.children); }
  }

  lemma OnlyMarksSelf(a: seq<Child>)
    ensures OnlyMarks(a, a)
  {}

  ghost predicate NothingActive(children: seq<Child>) { forall c <- children :: !L.Terminal(c.state) ==> c.deleting }

  /** A run starts: one fresh scan is appended, with the name of the next schedule, as the policy allows. */
  ghost predicate Starts(spec: Spec, before: seq<Child>, after: seq<Child>, slot: int) {
    && |after| == |before| + 1 && OnlyMarks(before, after[..|before|])
    && !HasSlot(after[..|before|], slot)
    && after[|before|].slot == slot && after[|before|].state == L.Unset && !after[|before|].deleting
    && (spec.policy == Forbid ==> InProgress(before) == [])
    && (spec.policy == Replace ==> NothingActive(after[..|before|]))
  }

  lemma StartRunShape(w: World, slot: int, a: Answers)
    ensures var after := StartRun(w, slot, a);
      after.children == w.children ||
      (!HasSlot(w.children, slot) && exists created :: after.children == w.children + [NewChild(slot, created)])
  {
    assert StartRun(w, slot, a).children != w.children ==>
           StartRun(w, slot, a).children == w.children + [NewChild(slot, a.createdNow)];
  }

  lemma ReplacedIsInactive(listed: seq<Child>, children: seq<Child>, tie: Child -> int, delete: Child -> DeleteOutcome)
    requires OnlyMarks(listed, children) && DeleteAll(children, Sort(InProgress(listed), tie), delete).1
    ensures NothingActive(DeleteAll(children, Sort(InProgress(listed), tie), delete).0)
  {
    var victims := Sort(InProgress(listed), tie);
    var after := DeleteAll(children, victims, delete).0;
    DeleteAllMeaning(children, victims, delete);
    SortMeaning(InProgress(listed), tie);
    FilterMeaning(listed, (c: Child) => !L.Terminal(c.state));
    hide DeleteAll, Sort, Filter;
    forall c | c in after && !L.Terminal(c.state) ensures c.deleting {
      var i :| 0 <= i < |after| && after[i] == c;
      var original := listed[i];
      assert original in victims && children[i].slot == original.slot;
      assert Names(victims, children[i].slot);
    }
  }

  lemma RunShape(spec: Spec, w: World, listed: seq<Child>, slot: int, a: Answers)
    requires OnlyMarks(listed, w.children)
    ensures var after := Run(spec, w, listed, slot, a).children;
      OnlyMarks(listed, after) || Starts(spec, listed, after, slot)
  {
    var unfinished := Sort(InProgress(listed), a.tie);
    SortMeaning(InProgress(listed), a.tie);
    var replaced := if spec.policy == Replace then DeleteAll(w.children, unfinished, a.delete) else (w.children, true);
    if spec.policy == Replace {
      DeleteAllOnlyMarks(w.children, unfinished, a.delete);
      OnlyMarksTrans(listed, w.children, replaced.0);
      if replaced.1 { ReplacedIsInactive(listed, w.children, a.tie, a.delete); }
    }
    hide DeleteAll, Sort, InProgress, HasSlot, NothingActive, StartRun;
    var world := w.(children := replaced.0);
    var hashed := StoreHash(spec, world, a);
    assert hashed.world.children == replaced.0;
    StartRunShape(hashed.world, slot, a);
    var after := Run(spec, w, listed, slot, a).children;
    if after != w.children && after != replaced.0 {
      assert replaced.1 && after == StartRun(hashed.world, slot, a).children;
      var created :| after == replaced.0 + [NewChild(slot, created)];
      assert after[..|listed|] == replaced.0;
      assert |unfinished| == |InProgress(listed)|;
    }
  }

  /** The name of the next run, when one is due. */
  function DueSlot(spec: Spec, w: World, a: Answers): Option<int> {
    match NextSchedule(spec, w.status, a.now0)
    case None => None
    case Some(next) => if spec.suspend || a.now1 < next then None else Some(Unix(next))
  }

  /** A reconcile changes scans only by marking some for deletion, and starts a run only when one is due. */
  lemma ReconcileShape(spec: Spec, w: World, a: Answers)
    ensures var after := Reconcile(spec, w, a).children;
      OnlyMarks(w.children, after) ||
          (DueSlot(spec, w, a).Some? && Starts(spec, w.children, after, DueSlot(spec, w, a).value))
  {
    CleanupOnlyMarks(spec, w, a);
    OnlyMarksSelf(w.children);
    var cleaned := Cleanup(spec, w, a);
    assert NextSchedule(spec, cleaned.world.status, a.now0) == NextSchedule(spec, w.status, a.now0);
    hide Cleanup, Run, Starts, OnlyMarks, NextSchedule;
    if DueSlot(spec, w, a).Some? { RunShape(spec, cleaned.world, w.children, DueSlot(spec, w, a).value, a); }
  }

  // ---------------------------------------------------------------- runs

  /** Between reconciles scans make progress, until they are done or have failed, and scans disappear. */
  datatype Move =
    | Reconciles(answers: Answers)
    | Progresses(slot: int, state: L.ScanState, findings: string)
    | Vanishes(slot: int)

  function Progress(children: seq<Child>, slot: int, state: L.ScanState, findings: string): (r: seq<Child>)
    ensures |r| == |children|
  {
    seq(|children|, i requires 0 <= i < |children| =>
      if children[i].slot == slot && !L.Terminal(children[i].state)
          then children[i].(state := state, findings := findings) else children[i])
  }

  function Apply(spec: Spec, w: World, m: Move): World {
    match m
    case Reconciles(a) => Reconcile(spec, w, a)
    case Progresses(slot, state, findings) => w.(children := Progress(w.children, slot, state, findings))
    case Vanishes(slot) => w.(children := Filter(w.children, (c: Child) => c.slot != slot))
  }

  function Play(spec: Spec, w: World, moves: seq<Move>): World {
    if moves == [] then w else Apply(spec, Play(spec, w, moves[..|moves| - 1]), moves[|moves| - 1])
  }

  /** Unfinished scans that are not marked for deletion. */
  function Active(children: seq<Child>): seq<Child>
  {
    Filter(children, (c: Child) => !L.Terminal(c.state) && !c.deleting)
  }

  lemma {:induction false} FilterShrinks(a: seq<Child>, b: seq<Child>, keep: Child -> bool)
    requires |a| == |b| && forall i :: 0 <= i < |a| && keep(b[i]) ==> keep(a[i])
    ensures |Filter(b, keep)| <= |Filter(a, keep)|
  {
    if a != [] { FilterShrinks(a[..|a| - 1], b[..|b| - 1], keep); }
  }

  lemma FilterAppend(a: seq<Child>, x: Child, keep: Child -> bool)
    ensures Filter(a + [x], keep) == Filter(a, keep) + (if keep(x) then [x] else [])
  {
    assert (a + [x])[..|a|] == a;
  }

  lemma {:induction false} FilterTwice(a: seq<Child>, first: Child -> bool, keep: Child -> bool)
    ensures |Filter(Filter(a, first), keep)| <= |Filter(a, keep)|
  {
    if a != [] {
      var front, last := a[..|a| - 1], a[|a| - 1];
      FilterTwice(front, first, keep);
      assert a == front + [last];
      FilterAppend(front, last, first);
      FilterAppend(front, last, keep);
      FilterAppend(Filter(front, first), last, keep);
      assert Filter(a, first) == if first(last) then Filter(front, first) + [last] else Filter(front, first);
    }
  }

  lemma {:induction false} FilterNone(a: seq<Child>, keep: Child -> bool)
    requires forall c <- a :: !keep(c)
    ensures Filter(a, keep) == []
  {
    if a != [] {
      forall c | c in a[..|a| - 1] ensures c in a {}
      FilterNone(a[..|a| - 1], keep);
    }
  }

  /** What every move keeps. */
  ghost predicate Inv(spec: Spec, w: World) {
    && DistinctSlots(w.children)
    && (spec.policy == Forbid ==> |InProgress(w.children)| <= 1)
    && (spec.policy == Replace ==> |Active(w.children)| <= 1)
  }

  lemma FewerKeepInv(spec: Spec, w: World, after: World)
    requires Inv(spec, w) && |after.children| == |w.children|
    requires forall i :: 0 <= i < |w.children| ==> var b, c := w.children[i], after.children[i];
               c.slot == b.slot && (L.Terminal(b.state) ==> L.Terminal(c.state)) && (b.deleting ==> c.deleting)
    ensures Inv(spec, after)
  {
    FilterShrinks(w.children, after.children, (c: Child) => !L.Terminal(c.state));
    FilterShrinks(w.children, after.children, (c: Child) => !L.Terminal(c.state) && !c.deleting);
    hide Filter;
  }

  lemma StartKeepsInv(spec: Spec, w: World, after: World, slot: int)
    requires Inv(spec, w) && Starts(spec, w.children, after.children, slot)
    ensures Inv(spec, after)
  {
    var n := |w.children|;
    var marked, added := after.children[..n], after.children[n];
    assert after.children == marked + [added];
    MarksKeepSlots(w.children, marked);
    FilterShrinks(w.children, marked, (c: Child) => !L.Terminal(c.state));
    FilterAppend(marked, added, (c: Child) => !L.Terminal(c.state));
    FilterAppend(marked, added, (c: Child) => !L.Terminal(c.state) && !c.deleting);
    if spec.policy == Replace { FilterNone(marked, (c: Child) => !L.Terminal(c.state) && !c.deleting); }
    forall c | c in marked ensures c.slot != added.slot { assert !HasSlot(marked, slot); }
    AppendDistinct(marked, added);
    hide Filter;
  }

  lemma MoveKeepsInv(spec: Spec, w: World, m: Move)
    requires Inv(spec, w)
    ensures Inv(spec, Apply(spec, w, m))
  {
    match m
    case Reconciles(a) =>
      ReconcileShape(spec, w, a);
      hide Reconcile, Inv, Starts;
      var after := Reconcile(spec, w, a);
      if OnlyMarks(w.children, after.children) { FewerKeepInv(spec, w, after); }
      else { StartKeepsInv(spec, w, after, DueSlot(spec, w, a).value); }
    case Progresses(slot, state, findings) => FewerKeepInv(spec, w, Apply(spec, w, m));
    case Vanishes(slot) =>
      FilterIsDistinct(w.children, (c: Child) => c.slot != slot);
      FilterTwice(w.children, (c: Child) => c.slot != slot, (c: Child) => !L.Terminal(c.state));
      FilterTwice(w.children, (c: Child) => c.slot != slot, (c: Child) => !L.Terminal(c.state) && !c.deleting);
      hide Filter;
  }

  /** In every reachable state, whatever writes were lost: under Forbid at most one scan is unfinished, under Replace at
      most one unfinished scan is not marked for deletion, and no two scans are of the same scheduled time. */
  lemma {:induction false} ConcurrencyPolicyHolds(spec: Spec, w: World, moves: seq<Move>)
    requires w.children == []
    ensures Inv(spec, Play(spec, w, moves))
  {
    if moves == [] {
      assert InProgress([]) == [] && Active([]) == [];
    } else {
      ConcurrencyPolicyHolds(spec, w, moves[..|moves| - 1]);
      hide Apply, Inv;
      MoveKeepsInv(spec, Play(spec, w, moves[..|moves| - 1]), moves[|moves| - 1]);
    }
  }

  // ---------------------------------------------------------------- runs are not repeated

  ghost predicate StartsRun(spec: Spec, w: World, a: Answers) {
    |Reconcile(spec, w, a).children| > |w.children|
  }

  /** The time from which the next run is reckoned. */
  function Earliest(spec: Spec, status: Status): int {
    if status.lastScheduleTime.Some? then status.lastScheduleTime.value else spec.createdAt
  }

  /** Cron's Next lies in the future; recorded times do not. */
  ghost predicate SaneClock(spec: Spec, w: World, a: Answers) {
    && (spec.schedule.Cron? ==> forall t :: spec.schedule.next(t) > t)
    && Earliest(spec, w.status) <= a.now0 <= a.now1 <= a.now2
  }

  lemma RunHasDueSlot(spec: Spec, w: World, a: Answers)
    requires StartsRun(spec, w, a)
    ensures DueSlot(spec, w, a).Some? && HasSlot(Reconcile(spec, w, a).children, DueSlot(spec, w, a).value)
    ensures !HasSlot(w.children, DueSlot(spec, w, a).value)
  {
    ReconcileShape(spec, w, a);
    hide Reconcile, DueSlot;
    var after, n := Reconcile(spec, w, a).children, |w.children|;
    assert after[n] in after;
    forall c | c in w.children ensures c.slot != DueSlot(spec, w, a).value {
      var i :| 0 <= i < n && w.children[i] == c;
      assert after[..n][i] in after[..n] && after[..n][i].slot == c.slot;
    }
  }

  lemma SameSlot(spec: Spec, w: World, a: Answers, later: World, b: Answers)
    requires spec.schedule.Cron? || w.status.lastScheduleTime.Some?
    requires SaneClock(spec, w, a) && SaneClock(spec, later, b)
    requires later.status.lastScheduleTime == w.status.lastScheduleTime
    ensures DueSlot(spec, w, a).Some? && DueSlot(spec, later, b).Some? ==>
            DueSlot(spec, later, b) == DueSlot(spec, w, a)
  {}

  /** When the time of a run was not recorded, the next reconcile asks for a scan of the same name again, and as long as
      that scan exists no further one is started. Only an interval that has no recorded run is different. */
  lemma LostRunIsNotRepeated(spec: Spec, w: World, a: Answers, later: World, b: Answers)
    requires spec.schedule.Cron? || w.status.lastScheduleTime.Some?
    requires SaneClock(spec, w, a) && SaneClock(spec, later, b) && StartsRun(spec, w, a)
    requires later.status.lastScheduleTime == w.status.lastScheduleTime
    requires DueSlot(spec, w, a).Some? ==> HasSlot(later.children, DueSlot(spec, w, a).value)
    ensures !StartsRun(spec, later, b)
  {
    hide StartsRun, DueSlot, HasSlot, SaneClock;
    RunHasDueSlot(spec, w, a);
    SameSlot(spec, w, a, later, b);
    if StartsRun(spec, later, b) {
      RunHasDueSlot(spec, later, b);
      assert false;
    }
  }

  /** The cluster answers every request up to the creation of the run's scan. */
  ghost predicate Served(a: Answers) {
    && a.listed && a.findingsWrite.Stored? && (forall c :: a.delete(c).Deleted?)
    && a.scanType.Found? && a.patch.Stored?
  }

  /** The cluster answers every request. */
  ghost predicate Healthy(a: Answers) { Served(a) && a.create.Created? && a.write.Stored? }

  lemma {:induction false} DeleteAllSucceeds(children: seq<Child>, victims: seq<Child>, delete: Child -> DeleteOutcome)
    requires forall c :: delete(c).Deleted?
    ensures DeleteAll(children, victims, delete).1
    decreases |victims|
  {
    if victims != [] { DeleteAllSucceeds(Mark(children, victims[0].slot), victims[1..], delete); }
  }

  lemma MarksKeepNames(before: seq<Child>, after: seq<Child>, slot: int)
    requires OnlyMarks(before, after)
    ensures HasSlot(after, slot) <==> HasSlot(before, slot)
  {
    if c :| c in before && c.slot == slot {
      var i :| 0 <= i < |before| && before[i] == c;
      assert after[i] in after;
    }
    if c :| c in after && c.slot == slot {
      var i :| 0 <= i < |after| && after[i] == c;
      assert before[i] in before;
    }
  }

  lemma ServedCleanup(spec: Spec, w: World, a: Answers)
    requires Served(a)
    ensures Cleanup(spec, w, a).go
  {
    var good, bad := Victims(w.children, L.Done, Limit(spec.successfulLimit, 3), a),
        Victims(w.children, L.Errored, Limit(spec.failedLimit, 1), a);
    DeleteAllSucceeds(w.children, good, a.delete);
    DeleteAllSucceeds(DeleteAll(w.children, good, a.delete).0, bad, a.delete);
    hide DeleteAll, Sort, Filter, Oldest;
  }

  /** An interval with no recorded run names the scan after the current second: a run starts whenever that name is free,
      unless the policy forbids it. So when recording the first run fails, each later second can start another run. */
  lemma FirstIntervalRunMayRepeat(spec: Spec, w: World, a: Answers)
    requires spec.schedule.NoSchedule? && spec.interval > 0 && !spec.suspend
    requires w.status.lastScheduleTime.None? && Healthy(a) && a.now0 <= a.now1
    ensures StartsRun(spec, w, a) <==>
            !HasSlot(w.children, Unix(a.now0 - SECOND)) && (spec.policy == Forbid ==> InProgress(w.children) == [])
  {
    DueRunStarts(spec, w, a, a.now0 - SECOND);
  }

  /** When nothing fails, a due run starts exactly if its name is free and the policy allows it; the hash and the
      time are stored with it. */
  lemma DueRunStarts(spec: Spec, w: World, a: Answers, next: int)
    requires Healthy(a) && !spec.suspend && NextSchedule(spec, w.status, a.now0) == Some(next) && next <= a.now1
    ensures StartsRun(spec, w, a) <==>
            !HasSlot(w.children, Unix(next)) && (spec.policy == Forbid ==> InProgress(w.children) == [])
    ensures StartsRun(spec, w, a) ==>
              var after := Reconcile(spec, w, a).status;
              after.lastScheduleTime == Some(Stored(a.now2)) && (spec.retrigger ==> after.hash == Hash(a.scanType.hash))
  {
    ServedCleanup(spec, w, a);
    CleanupOnlyMarks(spec, w, a);
    var cleaned := Cleanup(spec, w, a).world;
    assert NextSchedule(spec, cleaned.status, a.now0) == Some(next);
    hide Cleanup, HasSlot, OnlyMarks, Sort, Filter, NextSchedule, Run, StartRun, StoreHash, DeleteAll;
    assert Reconcile(spec, w, a) == Run(spec, cleaned, w.children, Unix(next), a);
    HealthyRun(spec, cleaned, w.children, Unix(next), a);
    MarksKeepLength(w.children, cleaned.children);
    MarksKeepNames(w.children, cleaned.children, Unix(next));
  }

  lemma MarksKeepLength(before: seq<Child>, after: seq<Child>)
    requires OnlyMarks(before, after)
    ensures |after| == |before|
  {}

  lemma HealthyRun(spec: Spec, w: World, listed: seq<Child>, slot: int, a: Answers)
    requires Healthy(a) && OnlyMarks(listed, w.children)
    ensures var after, starts := Run(spec, w, listed, slot, a),
                                 !HasSlot(w.children, slot) && (spec.policy == Forbid ==> InProgress(listed) == []);
      && |after.children| == |w.children| + (if starts then 1 else 0)
      && (starts ==> after.status.lastScheduleTime == Some(Stored(a.now2)) &&
                     (spec.retrigger ==> after.status.hash == Hash(a.scanType.hash)))
  {
    var unfinished := Sort(InProgress(listed), a.tie);
    SortMeaning(InProgress(listed), a.tie);
    DeleteAllSucceeds(w.children, unfinished, a.delete);
    DeleteAllOnlyMarks(w.children, unfinished, a.delete);
    var replaced := DeleteAll(w.children, unfinished, a.delete).0;
    MarksKeepLength(w.children, replaced);
    MarksKeepNames(w.children, replaced, slot);
    hide DeleteAll, Sort, InProgress, HasSlot, OnlyMarks;
  }

  /** Every request is served at one moment, except that the time of a run may not be recorded. */
  function ServedAt(now: int, write: L.WriteOutcome): Answers {
    Answers(true, c => 0, L.Stored, c => Deleted, now, now, now, now, Found(0), L.Stored, L.Created, write)
  }

  /** One lost write, and a second run starts one second later; under Replace it deletes the first. */
  lemma LostFirstRunRepeats(spec: Spec, status: Status, now: int)
    requires spec.schedule.NoSchedule? && spec.interval > 0 && !spec.suspend && spec.policy != Forbid
    requires status.lastScheduleTime.None?
    ensures var first := Reconcile(spec, World(status, []), ServedAt(now, L.Conflict));
            var second := Reconcile(spec, first, ServedAt(now + SECOND, L.Stored));
      && |first.children| == 1 && first.status.lastScheduleTime.None?
      && |second.children| == 2 && (spec.policy == Replace ==> second.children[0].deleting)
  {
    var w, a, b := World(status, []), ServedAt(now, L.Conflict), ServedAt(now + SECOND, L.Stored);
    FirstRun(spec, w, a, now);
    var first := Reconcile(spec, w, a);
    NextSecond(now);
    var slot := Unix(now + SECOND - SECOND);
    assert !HasSlot(first.children, slot);
    hide Reconcile;
    assert Healthy(b);
    ReconcileShape(spec, first, b);
    FirstIntervalRunMayRepeat(spec, first, b);
    hide Healthy, NextSchedule, InProgress;
    var second := Reconcile(spec, first, b);
    assert Starts(spec, first.children, second.children, DueSlot(spec, first, b).value);
    assert second.children[..1][0] == second.children[0];
    if spec.policy == Replace { assert second.children[..1][0] in second.children[..1]; }
  }

  lemma NextSecond(now: int)
    ensures Unix(now) == Unix(now - SECOND) + 1
  {}

  lemma FirstRun(spec: Spec, w: World, a: Answers, now: int)
    requires spec.schedule.NoSchedule? && spec.interval > 0 && !spec.suspend && w.status.lastScheduleTime.None?
    requires w.children == [] && a == ServedAt(now, L.Conflict)
    ensures var after := Reconcile(spec, w, a);
      && after.children == [NewChild(Unix(now - SECOND), now)]
      && after.status.lastScheduleTime.None?
  {
    assert InState([], L.Done) == [] && InState([], L.Errored) == [] && InProgress([]) == [];
    assert Sort([], a.tie) == [];
    assert Cleanup(spec, w, a) == Phase(w, true);
    hide Cleanup, Sort, Filter;
    assert [] + [NewChild(Unix(now - SECOND), now)] == [NewChild(Unix(now - SECOND), now)];
  }

  /** After a recorded run the next one is due under a later name: always with cron, and with an interval exactly if it
      is at least a second long or the run started a second late. */
  lemma RecordedRunsMoveOn(spec: Spec, w: World, a: Answers, later: World, b: Answers)
    requires SaneClock(spec, w, a) && StartsRun(spec, w, a) && DueSlot(spec, later, b).Some?
    requires later.status.lastScheduleTime == Some(Stored(a.now2)) && Stored(a.now2) <= b.now0
    requires spec.schedule.Cron? ==> forall t :: spec.schedule.next(t) % SECOND == 0
    ensures DueSlot(spec, w, a).Some? && DueSlot(spec, later, b).value >= DueSlot(spec, w, a).value
    ensures DueSlot(spec, later, b).value > DueSlot(spec, w, a).value <==>
            spec.schedule.Cron? || spec.interval >= SECOND || DueSlot(spec, w, a).value < Unix(a.now2)
  {
    hide StartsRun, Reconcile;
    RunHasDueSlot(spec, w, a);
    var next, next' := NextSchedule(spec, w.status, a.now0).value, NextSchedule(spec, later.status, b.now0).value;
    if spec.schedule.Cron? {
      assert next' == spec.schedule.next(Stored(a.now2)) > Stored(a.now2);
      WholeSeconds(next, a.now2, next');
    } else {
      LaterSecond(next, a.now2, spec.interval);
    }
  }

  lemma WholeSeconds(s: int, now: int, t: int)
    requires s % SECOND == 0 && t % SECOND == 0 && s <= now && t > Stored(now)
    ensures Unix(t) > Unix(s)
  {}

  lemma LaterSecond(s: int, now: int, interval: int)
    requires s <= now && interval > 0
    ensures Unix(s) <= Unix(now) <= Unix(Stored(now) + interval)
    ensures Unix(Stored(now) + interval) > Unix(now) <==> interval >= SECOND
  {}

  // ---------------------------------------------------------------- a lost write stalls the schedule

  /** A reconcile records a time only together with starting a run. */
  lemma TimeNeedsRun(spec: Spec, w: World, a: Answers)
    ensures Reconcile(spec, w, a).status.lastScheduleTime == w.status.lastScheduleTime || StartsRun(spec, w, a)
  {
    CleanupOnlyMarks(spec, w, a);
    var cleaned := Cleanup(spec, w, a).world;
    MarksKeepLength(w.children, cleaned.children);
    hide Cleanup, OnlyMarks, NextSchedule;
    if NextSchedule(spec, cleaned.status, a.now0).Some? {
      RunNeedsChild(spec, cleaned, w.children, Unix(NextSchedule(spec, cleaned.status, a.now0).value), a);
    }
    hide Run;
  }

  lemma RunNeedsChild(spec: Spec, w: World, listed: seq<Child>, slot: int, a: Answers)
    ensures var after := Run(spec, w, listed, slot, a);
      after.status.lastScheduleTime == w.status.lastScheduleTime || |after.children| > |w.children|
  {
    DeleteAllOnlyMarks(w.children, Sort(InProgress(listed), a.tie), a.delete);
    MarksKeepLength(w.children, DeleteAll(w.children, Sort(InProgress(listed), a.tie), a.delete).0);
    hide DeleteAll, Sort, InProgress, HasSlot, OnlyMarks;
  }

  /** The name of the next run; with an interval only known once a run is recorded. */
  function PendingSlot(spec: Spec, status: Status): int {
    match spec.schedule
    case Cron(next) => Unix(next(Earliest(spec, status)))
    case _ => Unix(Earliest(spec, status) + spec.interval)
  }

  /** The scan of the pending run already exists: each reconcile asks for its name and is refused. */
  ghost predicate Stalled(spec: Spec, w: World) {
    && (spec.schedule.Cron? || (spec.schedule.NoSchedule? && w.status.lastScheduleTime.Some?))
    && HasSlot(w.children, PendingSlot(spec, w.status))
  }

  /** The recorded time is not in the future of the controller's clock. */
  ghost predicate Timely(spec: Spec, status: Status, m: Move) {
    m.Reconciles? ==> Earliest(spec, status) <= m.answers.now0
  }

  /** A run whose time was not recorded stalls the schedule, unless it was the first one of an interval. */
  lemma LostWriteStalls(spec: Spec, w: World, a: Answers)
    requires StartsRun(spec, w, a) && Reconcile(spec, w, a).status.lastScheduleTime == w.status.lastScheduleTime
    requires spec.schedule.Cron? || w.status.lastScheduleTime.Some?
    requires Timely(spec, w.status, Reconciles(a))
    ensures Stalled(spec, Reconcile(spec, w, a))
  {
    RunHasDueSlot(spec, w, a);
    hide Reconcile, StartsRun, HasSlot;
  }

  /** The scan of the run is created, but the time of the run is not recorded. */
  predicate TimeIsLost(a: Answers) {
    a.create.CreatedUnacknowledged? || (a.create.Created? && !a.write.Stored?)
  }

  /** The scans once Replace has deleted the unfinished ones. */
  function Replaced(spec: Spec, w: World, listed: seq<Child>, a: Answers): seq<Child> {
    if spec.policy == Replace then DeleteAll(w.children, Sort(InProgress(listed), a.tie), a.delete).0 else w.children
  }

  lemma ReplacedOnlyMarks(spec: Spec, w: World, listed: seq<Child>, a: Answers)
    requires OnlyMarks(listed, w.children)
    ensures OnlyMarks(listed, Replaced(spec, w, listed, a))
  {
    DeleteAllOnlyMarks(w.children, Sort(InProgress(listed), a.tie), a.delete);
    hide OnlyMarks, DeleteAll, Sort, InProgress;
    if spec.policy == Replace { OnlyMarksTrans(listed, w.children, Replaced(spec, w, listed, a)); }
  }

  lemma ServedRunGoesOn(spec: Spec, w: World, listed: seq<Child>, slot: int, a: Answers)
    requires Served(a) && (spec.policy == Forbid ==> InProgress(listed) == [])
    ensures Run(spec, w, listed, slot, a) ==
            StartRun(StoreHash(spec, w.(children := Replaced(spec, w, listed, a)), a).world, slot, a)
    ensures var hashed := StoreHash(spec, w.(children := Replaced(spec, w, listed, a)), a).world;
      hashed.children == Replaced(spec, w, listed, a) && hashed.status.lastScheduleTime == w.status.lastScheduleTime
  {
    SortMeaning(InProgress(listed), a.tie);
    DeleteAllSucceeds(w.children, Sort(InProgress(listed), a.tie), a.delete);
    hide DeleteAll, Sort, InProgress, StartRun;
  }

  lemma StartRunNames(w: World, slot: int, a: Answers)
    requires !HasSlot(w.children, slot)
    ensures StartRun(w, slot, a).status.lastScheduleTime ==
            if a.create.Created? && a.write.Stored? then Some(Stored(a.now2)) else w.status.lastScheduleTime
    ensures forall s :: HasSlot(StartRun(w, slot, a).children, s) <==>
              HasSlot(w.children, s) || (!a.create.NotCreated? && s == slot)
  {
    var added := NewChild(slot, a.createdNow);
    forall s ensures HasSlot(w.children + [added], s) <==> HasSlot(w.children, s) || s == slot {
      NameAdded(w.children, added, s);
    }
    hide HasSlot;
  }

  /** What the run adds to the scans and to the status, when nothing is in its way. */
  lemma ServedRun(spec: Spec, w: World, listed: seq<Child>, slot: int, a: Answers)
    requires Served(a) && OnlyMarks(listed, w.children)
    requires !HasSlot(listed, slot) && (spec.policy == Forbid ==> InProgress(listed) == [])
    ensures var after := Run(spec, w, listed, slot, a);
      && after.status.lastScheduleTime ==
         (if a.create.Created? && a.write.Stored? then Some(Stored(a.now2)) else w.status.lastScheduleTime)
      && forall s :: HasSlot(after.children, s) <==> HasSlot(listed, s) || (!a.create.NotCreated? && s == slot)
  {
    hide *;
    var replaced := Replaced(spec, w, listed, a);
    ReplacedOnlyMarks(spec, w, listed, a);
    forall s ensures HasSlot(replaced, s) <==> HasSlot(listed, s) { MarksKeepNames(listed, replaced, s); }
    ServedRunGoesOn(spec, w, listed, slot, a);
    StartRunNames(StoreHash(spec, w.(children := replaced), a).world, slot, a);
  }

  lemma NameAdded(children: seq<Child>, added: Child, slot: int)
    ensures HasSlot(children + [added], slot) <==> HasSlot(children, slot) || added.slot == slot
  {
    if c :| c in children && c.slot == slot { assert c in children + [added]; }
    assert added in children + [added];
  }

  /** The status once the time of the run is recorded. */
  function Recorded(status: Status, a: Answers): Status { status.(lastScheduleTime := Some(Stored(a.now2))) }

  /** The run recorded at a.now2 is followed by one with a later name. */
  lemma NextIsLater(spec: Spec, status: Status, a: Answers, next: int)
    requires NextSchedule(spec, status, a.now0) == Some(next) && next <= a.now2
    requires RepeatsInSeconds(spec)
    ensures PendingSlot(spec, Recorded(status, a)) > Unix(a.now2) >= Unix(next)
  {
    if spec.schedule.Cron? {
      assert spec.schedule.next(Stored(a.now2)) > Stored(a.now2);
      WholeSeconds(Stored(a.now2), a.now2, spec.schedule.next(Stored(a.now2)));
    } else {
      LaterSecond(next, a.now2, spec.interval);
    }
  }

  /** Cron's Next lies in the future, on a whole second; an interval is at least a second. */
  ghost predicate RepeatsInSeconds(spec: Spec) {
    match spec.schedule
    case Cron(next) => forall t :: next(t) > t && next(t) % SECOND == 0
    case _ => spec.interval >= SECOND
  }

  /** A due run with nothing in its way: the recorded time and the names afterwards. */
  lemma DueReconcile(spec: Spec, w: World, a: Answers, next: int)
    requires Served(a) && !spec.suspend && NextSchedule(spec, w.status, a.now0) == Some(next) && next <= a.now1
    requires !HasSlot(w.children, Unix(next)) && (spec.policy == Forbid ==> InProgress(w.children) == [])
    ensures var after := Reconcile(spec, w, a);
      && after.status.lastScheduleTime ==
         (if a.create.Created? && a.write.Stored? then Some(Stored(a.now2)) else w.status.lastScheduleTime)
      && forall s :: HasSlot(after.children, s) <==>
            HasSlot(w.children, s) || (!a.create.NotCreated? && s == Unix(next))
  {
    ServedCleanup(spec, w, a);
    CleanupOnlyMarks(spec, w, a);
    var cleaned := Cleanup(spec, w, a).world;
    assert NextSchedule(spec, cleaned.status, a.now0) == Some(next);
    hide Cleanup, Run, HasSlot, InProgress, OnlyMarks, NextSchedule;
    assert Reconcile(spec, w, a) == Run(spec, cleaned, w.children, Unix(next), a);
    ServedRun(spec, cleaned, w.children, Unix(next), a);
  }

  lemma PendingName(spec: Spec, status: Status, now: int, next: int)
    requires spec.schedule.Cron? || status.lastScheduleTime.Some?
    requires NextSchedule(spec, status, now) == Some(next) && Earliest(spec, status) <= now
    ensures PendingSlot(spec, status) == Unix(next)
    ensures spec.schedule.Cron? || spec.schedule.NoSchedule?
  {}

  /** A due run with nothing in its way stalls the schedule if its scan is created and its time is lost. If the time is
      recorded, the schedule stalls only where the next run has the name of an existing scan or of this run: never with
      an interval of at least a second, or cron, as long as no scan is named after a later time. */
  lemma StallsExactlyWhenTimeIsLost(spec: Spec, w: World, a: Answers, next: int)
    requires Served(a) && !spec.suspend && (spec.schedule.Cron? || w.status.lastScheduleTime.Some?)
    requires NextSchedule(spec, w.status, a.now0) == Some(next) && Earliest(spec, w.status) <= a.now0
    requires next <= a.now1 <= a.now2
    requires !HasSlot(w.children, Unix(next)) && (spec.policy == Forbid ==> InProgress(w.children) == [])
    ensures var following := PendingSlot(spec, Recorded(w.status, a));
      Stalled(spec, Reconcile(spec, w, a)) <==>
      TimeIsLost(a) || (a.create.Created? && (following == Unix(next) || HasSlot(w.children, following)))
    ensures RepeatsInSeconds(spec) && (forall c <- w.children :: c.slot <= Unix(a.now2)) ==>
              (Stalled(spec, Reconcile(spec, w, a)) <==> TimeIsLost(a))
  {
    DueReconcile(spec, w, a, next);
    PendingName(spec, w.status, a.now0, next);
    var after, following := Reconcile(spec, w, a), PendingSlot(spec, Recorded(w.status, a));
    SamePending(spec, after.status, if a.create.Created? && a.write.Stored? then Recorded(w.status, a) else w.status);
    if RepeatsInSeconds(spec) {
      NextIsLater(spec, w.status, a, next);
      if forall c <- w.children :: c.slot <= Unix(a.now2) { NoLaterName(w.children, following, Unix(a.now2)); }
    }
    hide Reconcile, NextSchedule, HasSlot, InProgress, Served, RepeatsInSeconds, PendingSlot, Unix, Stored;
  }

  lemma SamePending(spec: Spec, status: Status, other: Status)
    requires status.lastScheduleTime == other.lastScheduleTime
    ensures PendingSlot(spec, status) == PendingSlot(spec, other)
  {}

  lemma NoLaterName(children: seq<Child>, slot: int, latest: int)
    requires slot > latest && forall c <- children :: c.slot <= latest
    ensures !HasSlot(children, slot)
  {}

  lemma StalledStarts(spec: Spec, w: World, a: Answers)
    requires Stalled(spec, w) && Timely(spec, w.status, Reconciles(a))
    ensures !StartsRun(spec, w, a)
  {
    hide Reconcile, HasSlot;
    if StartsRun(spec, w, a) {
      RunHasDueSlot(spec, w, a);
      assert false;
    }
  }

  lemma MoveKeepsStalled(spec: Spec, w: World, m: Move)
    requires Stalled(spec, w) && Timely(spec, w.status, m) && m != Vanishes(PendingSlot(spec, w.status))
    ensures var after := Apply(spec, w, m);
      && after.status.lastScheduleTime == w.status.lastScheduleTime
      && |after.children| <= |w.children| && Stalled(spec, after)
  {
    var slot := PendingSlot(spec, w.status);
    match m
    case Reconciles(a) =>
      StalledStarts(spec, w, a);
      TimeNeedsRun(spec, w, a);
      ReconcileShape(spec, w, a);
      var after := Reconcile(spec, w, a);
      hide Reconcile, DueSlot, HasSlot, InProgress;
      MarksKeepNames(w.children, after.children, slot);
    case Progresses(s, state, findings) =>
      var c :| c in w.children && c.slot == slot;
      var i :| 0 <= i < |w.children| && w.children[i] == c;
      assert Progress(w.children, s, state, findings)[i] in Progress(w.children, s, state, findings);
    case Vanishes(s) =>
      var keep := (c: Child) => c.slot != s;
      FilterMeaning(w.children, keep);
      FilterIsShorter(w.children, keep);
      hide Filter;
  }

  lemma {:induction false} FilterIsShorter(children: seq<Child>, keep: Child -> bool)
    ensures |Filter(children, keep)| <= |children|
  {
    if children != [] { FilterIsShorter(children[..|children| - 1], keep); }
  }

  /** A stalled schedule starts no scan and records no time, whatever happens, until the scan of the pending run is
      gone. */
  lemma {:induction false} StalledForever(spec: Spec, w: World, moves: seq<Move>)
    requires Stalled(spec, w) && Vanishes(PendingSlot(spec, w.status)) !in moves
    requires forall m <- moves :: Timely(spec, w.status, m)
    ensures var after := Play(spec, w, moves);
      && after.status.lastScheduleTime == w.status.lastScheduleTime
      && |after.children| <= |w.children| && Stalled(spec, after)
  {
    hide Apply, Stalled;
    if moves != [] {
      var before, last := moves[..|moves| - 1], moves[|moves| - 1];
      assert moves == before + [last] && last in moves;
      StalledForever(spec, w, before);
      MoveKeepsStalled(spec, Play(spec, w, before), last);
    }
  }

  /** One conflict is enough: every request of a due run is served except the write of its time, and that run is the
      last one for as long as its scan exists. */
  lemma OneConflictStopsTheSchedule(spec: Spec, status: Status, now: int, next: int, moves: seq<Move>)
    requires !spec.suspend && RepeatsInSeconds(spec) && (spec.schedule.Cron? || status.lastScheduleTime.Some?)
    requires NextSchedule(spec, status, now) == Some(next) && Earliest(spec, status) <= now && next <= now
    requires Vanishes(Unix(next)) !in moves && forall m <- moves :: Timely(spec, status, m)
    ensures var after := Play(spec, Reconcile(spec, World(status, []), ServedAt(now, L.Conflict)), moves);
      |after.children| == 1 && HasSlot(after.children, Unix(next)) &&
      after.status.lastScheduleTime == status.lastScheduleTime
  {
    var w, a := World(status, []), ServedAt(now, L.Conflict);
    assert InProgress([]) == [];
    StallsExactlyWhenTimeIsLost(spec, w, a, next);
    DueReconcile(spec, w, a, next);
    ReconcileShape(spec, w, a);
    PendingName(spec, status, now, next);
    hide Reconcile, NextSchedule, HasSlot, InProgress, DueSlot;
    var stalled := Reconcile(spec, w, a);
    StalledForever(spec, stalled, moves);
    var after := Play(spec, stalled, moves);
    NamedIsThere(after.children, Unix(next));
  }

  lemma NamedIsThere(children: seq<Child>, slot: int)
    requires HasSlot(children, slot)
    ensures children != []
  {}
}
