/** What the grouping of operator/utils/orderedhookgroups.go guarantees: no hook is lost,
    duplicated or reordered within its kind, and the groups respect the documented order. */
module HookOrder {
  import opened HookGroups

  /** The hooks of one priority and one type, in input order. */
  function Select(hooks: seq<HookStatus>, priority: int, hookType: HookType): seq<HookStatus> {
    if hooks == [] then []
    else (if hooks[0].priority == priority && hooks[0].hookType == hookType then [hooks[0]] else []) +
         Select(hooks[1..], priority, hookType)
  }

  // ---------------------------------------------------------------- main results

  /** Within a priority and a supported type the scheduling order is the input order, and nothing is lost or added. */
  lemma OrderWithinKindIsKept(hooks: seq<HookStatus>, priority: int, hookType: HookType)
    ensures Select(Flatten(OrderedGroups(hooks)), priority, hookType) ==
            if hookType == Unsupported then [] else Select(hooks, priority, hookType)
  {
    var priorities := DescendingPriorities(hooks);
    DescendingPrioritiesMeaning(hooks);
    SelectFromGroups(priorities, hooks, priority, hookType);
    if priority !in priorities {
      SelectInClass(hooks, priority, hookType);
    }
  }

  /** Grouping conserves the multiset of hooks of a supported type; a hook of any other type is dropped. */
  lemma HooksAreConserved(hooks: seq<HookStatus>)
    ensures multiset(Flatten(OrderedGroups(hooks))) == multiset(Supported(hooks))
  {
    var flat := Flatten(OrderedGroups(hooks));
    forall x ensures multiset(flat)[x] == multiset(Supported(hooks))[x] {
      OrderWithinKindIsKept(hooks, x.priority, x.hookType);
      SelectCounts(flat, x);
      SelectCounts(hooks, x);
      SupportedCounts(hooks, x);
    }
  }

  /** A ReadAndWrite hook is alone in its group; a larger group holds ReadOnly hooks of one priority. */
  ghost predicate GroupShape(group: seq<HookStatus>) {
    && |group| > 0
    && (forall k :: 0 <= k < |group| ==>
        group[k].priority == group[0].priority && group[k].hookType == group[0].hookType)
    && group[0].hookType != Unsupported
    && (group[0].hookType == ReadAndWrite ==> |group| == 1)
  }

  /** Everything in an earlier group precedes everything in a later one, by priority, then type,
      then (for ReadAndWrite hooks of one priority) by running alone. */
  ghost predicate GroupPrecedes(earlier: seq<HookStatus>, later: seq<HookStatus>) {
    forall a, b :: a in earlier && b in later ==>
      MustPrecede(a, b) || (a.priority == b.priority && a.hookType == ReadAndWrite && b.hookType == ReadAndWrite)
  }

  lemma GroupsAreScheduled(hooks: seq<HookStatus>)
    ensures forall g <- OrderedGroups(hooks) :: GroupShape(g)
    ensures forall i, j :: 0 <= i < j < |OrderedGroups(hooks)| ==>
              GroupPrecedes(OrderedGroups(hooks)[i], OrderedGroups(hooks)[j])
  {
    DescendingPrioritiesMeaning(hooks);
    GroupsForScheduled(DescendingPriorities(hooks), hooks);
  }

  /** With distinct hook names no hook occupies two places of the schedule. */
  lemma PlacesAreDistinct(hooks: seq<HookStatus>, i: nat, k: nat, j: nat, l: nat)
    requires forall x, y :: 0 <= x < y < |hooks| ==> hooks[x].hookName != hooks[y].hookName
    requires i < |OrderedGroups(hooks)| && k < |OrderedGroups(hooks)[i]|
    requires j < |OrderedGroups(hooks)| && l < |OrderedGroups(hooks)[j]|
    requires OrderedGroups(hooks)[i][k].hookName == OrderedGroups(hooks)[j][l].hookName
    ensures i == j && k == l
  {
    var groups := OrderedGroups(hooks);
    var a, b := groups[i][k], groups[j][l];
    PlacedHooksAreGiven(hooks, i, k);
    PlacedHooksAreGiven(hooks, j, l);
    assert a == b;
    HooksAreConserved(hooks);
    DistinctCountsOne(hooks, a);
    SupportedCounts(hooks, a);
    if i != j {
      TwoGroupsCountTwice(groups, if i < j then i else j, if i < j then j else i, a);
    } else if k != l {
      TwoPlacesCountTwice(groups[i], if k < l then k else l, if k < l then l else k);
      GroupCountsInFlatten(groups, i, a);
    }
  }

  lemma PlacedHooksAreGiven(hooks: seq<HookStatus>, i: nat, k: nat)
    requires i < |OrderedGroups(hooks)| && k < |OrderedGroups(hooks)[i]|
    ensures OrderedGroups(hooks)[i][k] in hooks
    ensures OrderedGroups(hooks)[i][k].hookType != Unsupported
  {
    var groups := OrderedGroups(hooks);
    var a := groups[i][k];
    GroupCountsInFlatten(groups, i, a);
    HooksAreConserved(hooks);
    SupportedCounts(hooks, a);
    assert a in groups[i];
    assert a in multiset(hooks);
  }

  lemma GivenHooksArePlaced(hooks: seq<HookStatus>, hook: HookStatus)
    requires hook in hooks && hook.hookType != Unsupported
    ensures exists i, k ::
              0 <= i < |OrderedGroups(hooks)| && 0 <= k < |OrderedGroups(hooks)[i]| &&
              OrderedGroups(hooks)[i][k] == hook
  {
    HooksAreConserved(hooks);
    SupportedCounts(hooks, hook);
    assert hook in multiset(hooks);
    InFlattenInGroup(OrderedGroups(hooks), hook);
  }

  // ---------------------------------------------------------------- selection

  lemma {:induction false} SelectAppend(a: seq<HookStatus>, b: seq<HookStatus>, priority: int, hookType: HookType)
    ensures Select(a + b, priority, hookType) == Select(a, priority, hookType) + Select(b, priority, hookType)
  {
    if a == [] {
      assert a + b == b;
    } else {
      assert (a + b)[1..] == a[1..] + b;
      SelectAppend(a[1..], b, priority, hookType);
    }
  }

  lemma {:induction false} SelectInClass(hooks: seq<HookStatus>, priority: int, hookType: HookType)
    ensures OfType(InClass(hooks, priority), hookType) == Select(hooks, priority, hookType)
    ensures InClass(hooks, priority) == [] ==> Select(hooks, priority, hookType) == []
  {
    if hooks != [] {
      SelectInClass(hooks[1..], priority, hookType);
      if hooks[0].priority == priority {
        assert InClass(hooks, priority)[1..] == InClass(hooks[1..], priority);
      } else {
        assert InClass(hooks, priority) == InClass(hooks[1..], priority);
      }
    }
  }

  lemma {:induction false} SelectTwice(hooks: seq<HookStatus>, p: int, t: HookType, q: int, u: HookType)
    ensures Select(Select(hooks, q, u), p, t) == if p == q && t == u then Select(hooks, p, t) else []
  {
    if hooks != [] {
      SelectTwice(hooks[1..], p, t, q, u);
      if hooks[0].priority == q && hooks[0].hookType == u {
        assert Select(hooks, q, u)[1..] == Select(hooks[1..], q, u);
      } else {
        assert Select(hooks, q, u) == Select(hooks[1..], q, u);
      }
    }
  }

  lemma {:induction false} FlattenAppend(a: seq<seq<HookStatus>>, b: seq<seq<HookStatus>>)
    ensures Flatten(a + b) == Flatten(a) + Flatten(b)
  {
    if a == [] {
      assert a + b == b;
    } else {
      assert (a + b)[1..] == a[1..] + b;
      FlattenAppend(a[1..], b);
    }
  }

  lemma {:induction false} FlattenSingletons(hooks: seq<HookStatus>)
    ensures Flatten(Singletons(hooks)) == hooks
  {
    if hooks != [] {
      assert Singletons(hooks)[1..] == Singletons(hooks[1..]);
      FlattenSingletons(hooks[1..]);
    }
  }

  lemma FlattenClass(hooks: seq<HookStatus>)
    ensures Flatten(ClassGroups(hooks)) == OfType(hooks, ReadAndWrite) + OfType(hooks, ReadOnly)
  {
    var rw, ro := OfType(hooks, ReadAndWrite), OfType(hooks, ReadOnly);
    FlattenSingletons(rw);
    FlattenAppend(Singletons(rw), if ro == [] then [] else [ro]);
    assert Flatten([ro]) == ro + Flatten([]);
  }

  lemma SelectFromClass(hooks: seq<HookStatus>, q: int, p: int, t: HookType)
    ensures Select(Flatten(ClassGroups(InClass(hooks, q))), p, t) ==
            if t == Unsupported || p != q then [] else Select(hooks, p, t)
  {
    FlattenClass(InClass(hooks, q));
    SelectInClass(hooks, q, ReadAndWrite);
    SelectInClass(hooks, q, ReadOnly);
    SelectAppend(Select(hooks, q, ReadAndWrite), Select(hooks, q, ReadOnly), p, t);
    SelectTwice(hooks, p, t, q, ReadAndWrite);
    SelectTwice(hooks, p, t, q, ReadOnly);
  }

  lemma {:induction false} SelectFromGroups(priorities: seq<int>, hooks: seq<HookStatus>, p: int, t: HookType)
    requires StrictlyDescending(priorities)
    ensures Select(Flatten(GroupsFor(priorities, hooks)), p, t) ==
            if t == Unsupported || p !in priorities then [] else Select(hooks, p, t)
  {
    if priorities != [] {
      var q, rest := priorities[0], priorities[1..];
      var first, others := ClassGroups(InClass(hooks, q)), GroupsFor(rest, hooks);
      FlattenAppend(first, others);
      SelectAppend(Flatten(first), Flatten(others), p, t);
      SelectFromClass(hooks, q, p, t);
      SelectFromGroups(rest, hooks, p, t);
      assert p in priorities <==> p == q || p in rest;
    }
  }

  // ---------------------------------------------------------------- counting

  lemma {:induction false} SelectCounts(hooks: seq<HookStatus>, x: HookStatus)
    ensures multiset(Select(hooks, x.priority, x.hookType))[x] == multiset(hooks)[x]
  {
    if hooks != [] {
      SelectCounts(hooks[1..], x);
      assert hooks == [hooks[0]] + hooks[1..];
    }
  }

  lemma {:induction false} SupportedCounts(hooks: seq<HookStatus>, x: HookStatus)
    ensures multiset(Supported(hooks))[x] == if x.hookType == Unsupported then 0 else multiset(hooks)[x]
  {
    if hooks != [] {
      SupportedCounts(hooks[1..], x);
      assert hooks == [hooks[0]] + hooks[1..];
    }
  }

  lemma {:induction false} DistinctCountsOne(hooks: seq<HookStatus>, x: HookStatus)
    requires forall a, b :: 0 <= a < b < |hooks| ==> hooks[a].hookName != hooks[b].hookName
    ensures multiset(hooks)[x] <= 1
  {
    if hooks != [] {
      DistinctCountsOne(hooks[1..], x);
      assert hooks == [hooks[0]] + hooks[1..];
      assert forall k :: 0 <= k < |hooks[1..]| ==> hooks[1..][k].hookName != hooks[0].hookName;
      assert hooks[0] == x ==> x !in multiset(hooks[1..]);
    }
  }

  lemma TwoPlacesCountTwice(group: seq<HookStatus>, k: nat, l: nat)
    requires k < l < |group| && group[k] == group[l]
    ensures multiset(group)[group[k]] >= 2
  {
    assert group == group[..l] + group[l..];
    assert group[k] == group[..l][k] && group[l] == group[l..][0];
    assert group[k] in multiset(group[..l]) && group[k] in multiset(group[l..]);
  }

  lemma {:induction false} GroupCountsInFlatten(groups: seq<seq<HookStatus>>, i: nat, x: HookStatus)
    requires i < |groups|
    ensures multiset(Flatten(groups))[x] >= multiset(groups[i])[x]
  {
    if i > 0 {
      GroupCountsInFlatten(groups[1..], i - 1, x);
    }
  }

  lemma {:induction false} TwoGroupsCountTwice(groups: seq<seq<HookStatus>>, i: nat, j: nat, x: HookStatus)
    requires i < j < |groups| && x in groups[i] && x in groups[j]
    ensures multiset(Flatten(groups))[x] >= 2
  {
    assert x in multiset(groups[i]) && x in multiset(groups[j]);
    if i == 0 {
      GroupCountsInFlatten(groups[1..], j - 1, x);
    } else {
      TwoGroupsCountTwice(groups[1..], i - 1, j - 1, x);
    }
  }

  lemma {:induction false} InFlattenInGroup(groups: seq<seq<HookStatus>>, x: HookStatus)
    requires x in multiset(Flatten(groups))
    ensures exists i, k :: 0 <= i < |groups| && 0 <= k < |groups[i]| && groups[i][k] == x
  {
    if x in groups[0] {
      var k :| 0 <= k < |groups[0]| && groups[0][k] == x;
    } else {
      assert x in multiset(Flatten(groups[1..]));
      InFlattenInGroup(groups[1..], x);
      var i, k :| 0 <= i < |groups[1..]| && 0 <= k < |groups[1..][i]| && groups[1..][i][k] == x;
      assert groups[i + 1][k] == x;
    }
  }

  // ---------------------------------------------------------------- schedule

  lemma {:induction false} InClassMembers(hooks: seq<HookStatus>, p: int)
    ensures forall x <- InClass(hooks, p) :: x.priority == p
  {
    if hooks != [] { InClassMembers(hooks[1..], p); }
  }

  lemma {:induction false} OfTypeMembers(hooks: seq<HookStatus>, t: HookType)
    ensures forall x <- OfType(hooks, t) :: x.hookType == t && x in hooks
  {
    if hooks != [] { OfTypeMembers(hooks[1..], t); }
  }

  lemma ClassScheduled(hooks: seq<HookStatus>, p: int)
    requires forall x <- hooks :: x.priority == p
    ensures forall g <- ClassGroups(hooks) :: GroupShape(g) && forall x <- g :: x.priority == p
    ensures forall i, j :: 0 <= i < j < |ClassGroups(hooks)| ==>
            GroupPrecedes(ClassGroups(hooks)[i], ClassGroups(hooks)[j])
  {
    OfTypeMembers(hooks, ReadAndWrite);
    OfTypeMembers(hooks, ReadOnly);
    var rw := OfType(hooks, ReadAndWrite);
    assert forall i :: 0 <= i < |rw| ==> rw[i] in rw && ClassGroups(hooks)[i] == [rw[i]];
    var ro := OfType(hooks, ReadOnly);
    assert forall i :: 0 <= i < |ro| ==> ro[i] in ro;
  }

  lemma {:induction false} GroupsForScheduled(priorities: seq<int>, hooks: seq<HookStatus>)
    requires StrictlyDescending(priorities)
    ensures forall g <- GroupsFor(priorities, hooks) :: GroupShape(g) && forall x <- g :: x.priority in priorities
    ensures forall i, j :: 0 <= i < j < |GroupsFor(priorities, hooks)| ==>
              GroupPrecedes(GroupsFor(priorities, hooks)[i], GroupsFor(priorities, hooks)[j])
  {
    if priorities != [] {
      var q := priorities[0];
      InClassMembers(hooks, q);
      ClassScheduled(InClass(hooks, q), q);
      GroupsForScheduled(priorities[1..], hooks);
      var first, rest := ClassGroups(InClass(hooks, q)), GroupsFor(priorities[1..], hooks);
      assert priorities == [q] + priorities[1..];
      assert forall p <- priorities[1..] :: p < q;
      forall i, j | 0 <= i < j < |first + rest|
        ensures GroupPrecedes((first + rest)[i], (first + rest)[j])
      {
        if i < |first| <= j {
          assert first[i] in first && rest[j - |first|] in rest;
        }
      }
    }
  }
}
