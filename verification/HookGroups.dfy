/** The priority scheduler for scan completion hooks: how an unordered list of
    hooks becomes an ordered list of groups, and which group runs next.
    Models operator/utils/orderedhookgroups.go. */
module HookGroups {
  import opened Options

  datatype HookType = ReadOnly | ReadAndWrite | Unsupported

  datatype HookState = Pending | InProgress | Completed | Cancelled | Failed

  datatype HookStatus = HookStatus(hookName: string, state: HookState, jobName: string, priority: int,
                                   hookType: HookType)

  /** What a (Cluster)ScanCompletionHook resource contributes to scheduling. */
  datatype HookSpec = HookSpec(name: string, priority: int, hookType: HookType)

  // ---------------------------------------------------------------- specification

  function InClass(hooks: seq<HookStatus>, priority: int): seq<HookStatus> {
    if hooks == [] then []
    else (if hooks[0].priority == priority then [hooks[0]] else []) + InClass(hooks[1..], priority)
  }

  function OfType(hooks: seq<HookStatus>, hookType: HookType): seq<HookStatus> {
    if hooks == [] then []
    else (if hooks[0].hookType == hookType then [hooks[0]] else []) + OfType(hooks[1..], hookType)
  }

  function Supported(hooks: seq<HookStatus>): seq<HookStatus> {
    if hooks == [] then []
    else (if hooks[0].hookType != Unsupported then [hooks[0]] else []) + Supported(hooks[1..])
  }

  function Singletons(hooks: seq<HookStatus>): seq<seq<HookStatus>> {
    seq(|hooks|, i requires 0 <= i < |hooks| => [hooks[i]])
  }

  function Flatten(groups: seq<seq<HookStatus>>): seq<HookStatus> {
    if groups == [] then [] else groups[0] + Flatten(groups[1..])
  }

  /** The groups of one priority class: every ReadAndWrite hook alone, then all ReadOnly hooks together. */
  function ClassGroups(hooks: seq<HookStatus>): seq<seq<HookStatus>> {
    Singletons(OfType(hooks, ReadAndWrite)) +
    (if OfType(hooks, ReadOnly) == [] then [] else [OfType(hooks, ReadOnly)])
  }

  function GroupsFor(priorities: seq<int>, hooks: seq<HookStatus>): seq<seq<HookStatus>> {
    if priorities == [] then []
    else ClassGroups(InClass(hooks, priorities[0])) + GroupsFor(priorities[1..], hooks)
  }

  ghost predicate StrictlyDescending(s: seq<int>) {
    forall i, j :: 0 <= i < j < |s| ==> s[i] > s[j]
  }

  function InsertDescending(s: seq<int>, x: int): seq<int> {
    if s == [] || x > s[0] then [x] + s else [s[0]] + InsertDescending(s[1..], x)
  }

  /** The priorities in use, in order of first appearance. */
  function Classes(hooks: seq<HookStatus>): seq<int> {
    if hooks == [] then []
    else
      var before := Classes(hooks[..|hooks| - 1]);
      var priority := hooks[|hooks| - 1].priority;
      if priority in before then before else before + [priority]
  }

  function SortedDescending(s: seq<int>): seq<int> {
    if s == [] then [] else InsertDescending(SortedDescending(s[..|s| - 1]), s[|s| - 1])
  }

  function DescendingPriorities(hooks: seq<HookStatus>): seq<int> { SortedDescending(Classes(hooks)) }

  /** The scheduling order of a set of hooks. */
  function OrderedGroups(hooks: seq<HookStatus>): seq<seq<HookStatus>> {
    GroupsFor(DescendingPriorities(hooks), hooks)
  }

  function InitialStatuses(hooks: seq<HookSpec>): (r: seq<HookStatus>)
    ensures |r| == |hooks|
    ensures forall i :: 0 <= i < |hooks| ==>
            r[i] == HookStatus(hooks[i].name, Pending, "", hooks[i].priority, hooks[i].hookType)
  {
    seq(|hooks|, i requires 0 <= i < |hooks| => HookStatus(hooks[i].name, Pending, "", hooks[i].priority,
                                                           hooks[i].hookType))
  }

  /** The documented scheduling order: higher priority first, within a priority ReadAndWrite before ReadOnly. */
  predicate MustPrecede(a: HookStatus, b: HookStatus) {
    a.priority > b.priority || (a.priority == b.priority && a.hookType == ReadAndWrite && b.hookType == ReadOnly)
  }

  // ---------------------------------------------------------------- the program

  /** Stands for sort.Slice with a descending comparison. */
  method SortDescending(priorities: seq<int>) returns (sorted: seq<int>)
    ensures sorted == SortedDescending(priorities)
  {
    sorted := [];
    for i := 0 to |priorities|
      invariant sorted == SortedDescending(priorities[..i])
    {
      assert priorities[..i + 1][..i] == priorities[..i];
      sorted := InsertDescending(sorted, priorities[i]);
    }
    assert priorities[..|priorities|] == priorities;
  }

  method OrderHookStatusesInsideAPrioClass(hookStatuses: seq<HookStatus>) returns (groups: seq<seq<HookStatus>>)
    ensures groups == ClassGroups(hookStatuses)
  {
    groups := [];
    var readOnlyGroup: seq<HookStatus> := [];
    for i := 0 to |hookStatuses|
      invariant groups == Singletons(OfType(hookStatuses[..i], ReadAndWrite))
      invariant readOnlyGroup == OfType(hookStatuses[..i], ReadOnly)
    {
      var hookStatus := hookStatuses[i];
      assert hookStatuses[..i + 1] == hookStatuses[..i] + [hookStatus];
      OfTypeAppend(hookStatuses[..i], hookStatus, ReadAndWrite);
      OfTypeAppend(hookStatuses[..i], hookStatus, ReadOnly);
      match hookStatus.hookType {
        case ReadAndWrite => groups := groups + [[hookStatus]];
        case ReadOnly => readOnlyGroup := readOnlyGroup + [hookStatus];
        case Unsupported =>
      }
    }
    assert hookStatuses[..|hookStatuses|] == hookStatuses;
    if readOnlyGroup != [] {
      groups := groups + [readOnlyGroup];
    }
  }

  /** The prioClasses list and the hooksByPrioClass map describe exactly the classes of `hooks`. */
  ghost predicate Classified(hooks: seq<HookStatus>, byClass: map<int, seq<HookStatus>>, classes: seq<int>) {
    && classes == Classes(hooks)
    && (forall p :: p in classes <==> p in byClass)
    && (forall p :: p in byClass ==> byClass[p] == InClass(hooks, p))
  }

  lemma ClassifyNext(hooks: seq<HookStatus>, byClass: map<int, seq<HookStatus>>, classes: seq<int>, hook: HookStatus)
    requires Classified(hooks, byClass, classes)
    ensures hook.priority in byClass ==>
              Classified(hooks + [hook], byClass[hook.priority := byClass[hook.priority] + [hook]], classes)
    ensures hook.priority !in byClass ==>
              Classified(hooks + [hook], byClass[hook.priority := [hook]], classes + [hook.priority])
  {
    hide Classified;
    if hook.priority in byClass {
      KnownClass(hooks, byClass, classes, hook);
    } else {
      NewClass(hooks, byClass, classes, hook);
    }
  }

  lemma ClassesNext(hooks: seq<HookStatus>, hook: HookStatus)
    ensures Classes(hooks + [hook]) == if hook.priority in Classes(hooks) then Classes(hooks)
            else Classes(hooks) + [hook.priority]
  {
    assert (hooks + [hook])[..|hooks|] == hooks;
  }

  lemma KnownClass(hooks: seq<HookStatus>, byClass: map<int, seq<HookStatus>>, classes: seq<int>, hook: HookStatus)
    requires Classified(hooks, byClass, classes) && hook.priority in byClass
    ensures Classified(hooks + [hook], byClass[hook.priority := byClass[hook.priority] + [hook]], classes)
  {
    ClassesNext(hooks, hook);
    InClassNext(hooks, hook);
    hide InClass, Classes;
  }

  lemma NewClass(hooks: seq<HookStatus>, byClass: map<int, seq<HookStatus>>, classes: seq<int>, hook: HookStatus)
    requires Classified(hooks, byClass, classes) && hook.priority !in byClass
    ensures Classified(hooks + [hook], byClass[hook.priority := [hook]], classes + [hook.priority])
  {
    ClassesNext(hooks, hook);
    InClassNext(hooks, hook);
    ClassesMeaning(hooks);
    hide InClass, Classes;
    assert InClass(hooks, hook.priority) == [];
    var after, all := byClass[hook.priority := [hook]], classes + [hook.priority];
    forall p ensures p in all <==> p in after { assert p in all <==> p in classes || p == hook.priority; }
  }

  /** The first loop of FromUnorderedList. */
  method GroupByPrioClass(hookStatuses: seq<HookStatus>)
      returns (hooksByPrioClass: map<int, seq<HookStatus>>, prioClasses: seq<int>)
    ensures Classified(hookStatuses, hooksByPrioClass, prioClasses)
  {
    hooksByPrioClass, prioClasses := map[], [];
    assert Classified([], map[], []);
    hide Classified;
    assert hookStatuses[..0] == [];
    for i := 0 to |hookStatuses|
      invariant Classified(hookStatuses[..i], hooksByPrioClass, prioClasses)
    {
      var hookStatus := hookStatuses[i];
      var prio := hookStatus.priority;
      ClassifyNext(hookStatuses[..i], hooksByPrioClass, prioClasses, hookStatus);
      assert hookStatuses[..i + 1] == hookStatuses[..i] + [hookStatus];
      if prio in hooksByPrioClass {
        hooksByPrioClass := hooksByPrioClass[prio := hooksByPrioClass[prio] + [hookStatus]];
      } else {
        hooksByPrioClass := hooksByPrioClass[prio := [hookStatus]];
        prioClasses := prioClasses + [prio];
      }
    }
    assert hookStatuses[..|hookStatuses|] == hookStatuses;
  }

  method FromUnorderedList(hookStatuses: seq<HookStatus>) returns (groups: seq<seq<HookStatus>>)
    ensures groups == OrderedGroups(hookStatuses)
  {
    var hooksByPrioClass, prioClasses := GroupByPrioClass(hookStatuses);

    var sorted := SortDescending(prioClasses);

    groups := [];
    for i := 0 to |sorted|
      invariant groups == GroupsFor(sorted[..i], hookStatuses)
    {
      var prioClass := sorted[i];
      SortedIsGiven(prioClasses, i);
      var classGroups := OrderHookStatusesInsideAPrioClass(hooksByPrioClass[prioClass]);
      assert sorted[..i + 1] == sorted[..i] + [sorted[i]];
      GroupsForAppend(sorted[..i], sorted[i], hookStatuses);
      groups := groups + classGroups;
    }
    assert sorted[..|sorted|] == sorted;
  }

  method MapHooksToHookStatus(hooks: seq<HookSpec>) returns (hookStatuses: seq<HookStatus>)
    ensures hookStatuses == InitialStatuses(hooks)
  {
    hookStatuses := [];
    for i := 0 to |hooks|
      invariant hookStatuses == InitialStatuses(hooks)[..i]
    {
      hookStatuses := hookStatuses + [HookStatus(hooks[i].name, Pending, "", hooks[i].priority, hooks[i].hookType)];
    }
  }

  // ---------------------------------------------------------------- choosing the group to run

  datatype Selection = Finished | Work(index: nat) | HookFailed(hookName: string) | HookCancelled(hookName: string)

  function FirstOpen(group: seq<HookStatus>): Option<HookStatus> {
    if group == [] then None
    else if group[0].state != Completed then Some(group[0])
    else FirstOpen(group[1..])
  }

  /** The scheduling decision at the first hook, in scheduling order, that is not Completed. */
  function CurrentGroup(groups: seq<seq<HookStatus>>, from: nat := 0): Selection
    requires from <= |groups|
    decreases |groups| - from
  {
    if from == |groups| then Finished
    else match FirstOpen(groups[from])
      case None => CurrentGroup(groups, from + 1)
      case Some(hook) =>
        match hook.state
        case Failed => HookFailed(hook.hookName)
        case Cancelled => HookCancelled(hook.hookName)
        case _ => Work(from)
  }

  method CurrentHookGroup(orderedHookGroups: seq<seq<HookStatus>>) returns (selection: Selection)
    ensures selection == CurrentGroup(orderedHookGroups)
  {
    for i := 0 to |orderedHookGroups|
      invariant CurrentGroup(orderedHookGroups) == CurrentGroup(orderedHookGroups, i)
    {
      var group := orderedHookGroups[i];
      for k := 0 to |group|
        invariant FirstOpen(group) == FirstOpen(group[k..])
      {
        var hookStatus := group[k];
        assert group[k..][1..] == group[k + 1..];
        match hookStatus.state {
          case Pending => return Work(i);
          case InProgress => return Work(i);
          case Failed => return HookFailed(hookStatus.hookName);
          case Cancelled => return HookCancelled(hookStatus.hookName);
          case Completed =>
        }
      }
    }
    return Finished;
  }

  ghost predicate AllCompleted(group: seq<HookStatus>) {
    forall k :: 0 <= k < |group| ==> group[k].state == Completed
  }

  lemma {:induction false} FirstOpenMeaning(group: seq<HookStatus>)
    ensures FirstOpen(group) == None <==> AllCompleted(group)
    ensures FirstOpen(group).Some? ==>
              exists k :: 0 <= k < |group| && group[k] == FirstOpen(group).value && group[k].state != Completed &&
                  AllCompleted(group[..k])
  {
    if group != [] && group[0].state == Completed {
      FirstOpenMeaning(group[1..]);
      assert group == [group[0]] + group[1..];
      if FirstOpen(group).Some? {
        var k :| 0 <= k < |group[1..]| && group[1..][k] == FirstOpen(group).value && AllCompleted(group[1..][..k]);
        assert group[..k + 1] == [group[0]] + group[1..][..k];
        assert group[k + 1] == FirstOpen(group).value;
      }
    } else if group != [] {
      assert group[0] == FirstOpen(group).value && AllCompleted(group[..0]);
    }
  }

  /** A group is only chosen once every hook of every earlier group is Completed, and execution only ends once every
      hook of every group is. */
  lemma {:induction false} CurrentGroupMeaning(groups: seq<seq<HookStatus>>, from: nat)
    requires from <= |groups|
    ensures var c := CurrentGroup(groups, from);
      && (c == Finished <==> forall g :: from <= g < |groups| ==> AllCompleted(groups[g]))
      && (c.Work? ==>
            && from <= c.index < |groups|
            && (forall g :: from <= g < c.index ==> AllCompleted(groups[g]))
            && exists k ::
                 0 <= k < |groups[c.index]| && groups[c.index][k].state in {Pending, InProgress} &&
                 AllCompleted(groups[c.index][..k]))
      && (c.HookFailed? || c.HookCancelled? ==>
            exists g, k :: from <= g < |groups| && 0 <= k < |groups[g]| && groups[g][k].state in {Failed, Cancelled})
    decreases |groups| - from
  {
    if from < |groups| {
      FirstOpenMeaning(groups[from]);
      if FirstOpen(groups[from]).None? {
        CurrentGroupMeaning(groups, from + 1);
      } else {
        var k :| 0 <= k < |groups[from]| && groups[from][k] == FirstOpen(groups[from]).value &&
            AllCompleted(groups[from][..k]);
      }
    }
  }

  // ---------------------------------------------------------------- small lemmas

  lemma {:induction false} OfTypeAppend(hooks: seq<HookStatus>, hook: HookStatus, hookType: HookType)
    ensures OfType(hooks + [hook], hookType) ==
            OfType(hooks, hookType) + (if hook.hookType == hookType then [hook] else [])
  {
    if hooks != [] {
      assert (hooks + [hook])[1..] == hooks[1..] + [hook];
      OfTypeAppend(hooks[1..], hook, hookType);
    }
  }

  lemma {:induction false} InClassAppend(hooks: seq<HookStatus>, hook: HookStatus, priority: int)
    ensures InClass(hooks + [hook], priority) ==
            InClass(hooks, priority) + (if hook.priority == priority then [hook] else [])
  {
    if hooks != [] {
      assert (hooks + [hook])[1..] == hooks[1..] + [hook];
      InClassAppend(hooks[1..], hook, priority);
    }
  }

  lemma {:induction false} GroupsForAppend(priorities: seq<int>, p: int, hooks: seq<HookStatus>)
    ensures GroupsFor(priorities + [p], hooks) == GroupsFor(priorities, hooks) + ClassGroups(InClass(hooks, p))
  {
    if priorities != [] {
      assert (priorities + [p])[1..] == priorities[1..] + [p];
      GroupsForAppend(priorities[1..], p, hooks);
    } else {
      assert priorities + [p] == [p];
      assert GroupsFor([p][1..], hooks) == [];
    }
  }

  lemma InClassNext(hooks: seq<HookStatus>, hook: HookStatus)
    ensures InClass(hooks + [hook], hook.priority) == InClass(hooks, hook.priority) + [hook]
    ensures forall p :: p != hook.priority ==> InClass(hooks + [hook], p) == InClass(hooks, p)
  {
    forall p ensures p != hook.priority ==> InClass(hooks + [hook], p) == InClass(hooks, p) {
      InClassAppend(hooks, hook, p);
    }
    InClassAppend(hooks, hook, hook.priority);
  }

  lemma {:induction false} ClassesMeaning(hooks: seq<HookStatus>)
    ensures forall p :: p in Classes(hooks) <==> InClass(hooks, p) != []
    ensures forall i, j :: 0 <= i < j < |Classes(hooks)| ==> Classes(hooks)[i] != Classes(hooks)[j]
  {
    if hooks != [] {
      var before, last := hooks[..|hooks| - 1], hooks[|hooks| - 1];
      ClassesMeaning(before);
      InClassNext(before, last);
      assert hooks == before + [last];
    }
  }

  lemma {:induction false} InsertMembers(s: seq<int>, x: int)
    ensures forall y :: y in InsertDescending(s, x) <==> y == x || y in s
  {
    if s != [] && x <= s[0] {
      InsertMembers(s[1..], x);
      assert s == [s[0]] + s[1..];
    }
  }

  lemma {:induction false} InsertKeepsDescending(s: seq<int>, x: int)
    requires StrictlyDescending(s) && x !in s
    ensures StrictlyDescending(InsertDescending(s, x))
  {
    if s != [] && x <= s[0] {
      InsertKeepsDescending(s[1..], x);
      InsertMembers(s[1..], x);
      assert s[0] in s;
      var r := InsertDescending(s[1..], x);
      forall k | 0 <= k < |r| ensures r[k] < s[0] {
        assert r[k] in r;
      }
    }
  }

  lemma {:induction false} SortedDescendingMeaning(s: seq<int>)
    ensures forall x :: x in s ==> x in SortedDescending(s)
    ensures forall x :: x in SortedDescending(s) ==> x in s
    ensures (forall i, j :: 0 <= i < j < |s| ==> s[i] != s[j]) ==> StrictlyDescending(SortedDescending(s))
  {
    if s != [] {
      var before, last := s[..|s| - 1], s[|s| - 1];
      SortedDescendingMeaning(before);
      InsertMembers(SortedDescending(before), last);
      assert s == before + [last];
      if forall i, j :: 0 <= i < j < |s| ==> s[i] != s[j] {
        InsertKeepsDescending(SortedDescending(before), last);
      }
    }
  }

  lemma SortedIsGiven(s: seq<int>, i: nat)
    requires i < |SortedDescending(s)|
    ensures SortedDescending(s)[i] in s
  {
    SortedDescendingMeaning(s);
    assert SortedDescending(s)[i] in SortedDescending(s);
  }

  /** The priorities in use, each once, highest first. */
  lemma DescendingPrioritiesMeaning(hooks: seq<HookStatus>)
    ensures StrictlyDescending(DescendingPriorities(hooks))
    ensures forall p :: p in DescendingPriorities(hooks) <==> InClass(hooks, p) != []
  {
    ClassesMeaning(hooks);
    SortedDescendingMeaning(Classes(hooks));
  }
}
