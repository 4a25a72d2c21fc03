/** The settings of the scans of a cascade, field by field, in terms of the root and of the rules on the way. */
module CascadeSettings {
  import opened Options
  import opened LabelSelector
  import opened CascadingScans
  import opened CascadeTree
  import opened CascadePaths
  import opened CascadeInheritance

  // ---------------------------------------------------------------- fields

  function EnvEntries(s: Settings): seq<EnvVar> { GetOr(s.env, []) }
  function VolumeEntries(s: Settings): seq<Volume> { GetOr(s.volumes, []) }
  function MountEntries(s: Settings): seq<VolumeMount> { GetOr(s.volumeMounts, []) }
  function ContainerEntries(s: Settings): seq<Container> { GetOr(s.initContainers, []) }
  function TolerationEntries(s: Settings): seq<string> { GetOr(s.tolerations, []) }
  function ExpressionEntries(s: Settings): seq<Expression>
  {
    GetOr(GetOr(s.hookSelector, NO_SELECTOR).matchExpressions, [])
  }
  function LabelEntries(s: Settings): map<string, string> { Labels(s.hookSelector) }

  function Labels(selector: Option<Selector>): map<string, string>
  {
    GetOr(GetOr(selector, NO_SELECTOR).matchLabels, map[])
  }

  predicate InheritsEnv(f: Inheritance) { f.inheritEnv == Some(true) }
  predicate InheritsVolumes(f: Inheritance) { f.inheritVolumes == Some(true) }
  predicate InheritsContainers(f: Inheritance) { f.inheritInitContainers == Some(true) }
  predicate InheritsSelector(f: Inheritance) { f.inheritHookSelector == Some(true) }
  predicate InheritsTolerations(f: Inheritance) { f.inheritTolerations != Some(false) }
  predicate InheritsAffinity(f: Inheritance) { f.inheritAffinity != Some(false) }

  // ---------------------------------------------------------------- one step

  lemma ArrayMerge<T>(parent: Option<seq<T>>, used: Option<seq<T>>, rule: Option<seq<T>>, inherit: Option<bool>)
    ensures MergeInheritedArray(PurgeArray(parent, used), rule, inherit) ==
            (if inherit == Some(true) then Without(GetOr(parent, []), GetOr(used, [])) else []) + GetOr(rule, [])
  {
    WithoutNothing(GetOr(parent, []));
    WithoutNone<T>(GetOr(used, []));
    hide Without;
  }

  /** The rule of the k-th step as it is merged into the scan. */
  ghost function Templated(p: Path, k: nat): Settings
    requires k < |p.steps| < |p.scans|
  {
    TemplateRule(p.environment, Parent(p, k), p.steps[k].finding, p.steps[k].rule).settings
  }

  lemma StepMerges(p: Path, k: nat)
    requires IsPath(p) && k < |p.steps|
    ensures p.scans[k + 1].settings == MergeSettings(Parent(p, k), Templated(p, k))
    ensures p.scans[k].cascades == p.scans[0].cascades
  {
    FlagsAreKept(p, k);
    hide MergeSettings, TemplateRule, MergeInheritedMap, CascadingScanName, GetScanChain, ScopeOf;
  }

  lemma ListsAreHandedDown(p: Path, k: nat)
    requires IsPath(p) && k < |p.steps|
    ensures Inherits(EnvEntries, InheritsEnv(p.scans[0].cascades), p, k)
    ensures Inherits(VolumeEntries, InheritsVolumes(p.scans[0].cascades), p, k) && AddsLiterally(VolumeEntries, p, k)
    ensures Inherits(MountEntries, InheritsVolumes(p.scans[0].cascades), p, k) && AddsLiterally(MountEntries, p, k)
  {
    StepMerges(p, k);
    var parent, used := p.scans[k], UsedAt(p.used, Rules(p.steps), k);
    var s, u, t, f := parent.settings, if used.Some? then used.value.settings
        else NOTHING, Templated(p, k), parent.cascades;
    ArrayMerge(s.env, u.env, t.env, f.inheritEnv);
    ArrayMerge(s.volumes, u.volumes, t.volumes, f.inheritVolumes);
    ArrayMerge(s.volumeMounts, u.volumeMounts, t.volumeMounts, f.inheritVolumes);
    hide IsPath, Rules, MergeInheritedArray, MergeInheritedSelector, PurgeSelector, Without, TemplateEnv,
        TemplateStrings, TemplateContainers;
    PurgedLists(s, used);
  }

  const NOTHING := Settings("", [], None, None, None, None, None, None, None)

  lemma PurgedLists(s: Settings, used: Option<Rule>)
    ensures var u, purged := if used.Some? then used.value.settings else NOTHING, Purged(s, used);
      && purged.env == PurgeArray(s.env, u.env)
      && purged.volumes == PurgeArray(s.volumes, u.volumes)
      && purged.volumeMounts == PurgeArray(s.volumeMounts, u.volumeMounts)
      && purged.hookSelector == PurgeSelector(s.hookSelector, u.hookSelector)
      && purged.initContainers == s.initContainers && purged.tolerations == s.tolerations &&
         purged.affinity == s.affinity
  {}

  /** Templating leaves these fields of a rule alone. */
  lemma TemplatedKeeps(p: Path, k: nat)
    requires k < |p.steps| < |p.scans|
    ensures var t, own := Templated(p, k), p.steps[k].rule.settings;
      t.hookSelector == own.hookSelector && t.tolerations == own.tolerations && t.affinity == own.affinity
  {
    hide Rules, TemplateEnv, TemplateStrings, TemplateContainers, TemplateMap;
  }

  lemma SelectorStep(parent: Scan, used: Option<Rule>, templated: Settings)
    ensures var x, s, inherit :=
            MergeSettings(PurgedScan(parent, used), templated), parent.settings, InheritsSelector(parent.cascades);
      && ExpressionEntries(x) ==
         (if inherit then Without(ExpressionEntries(s),
                                  match used case None => [] case Some(r) => ExpressionEntries(r.settings)) else []) +
         ExpressionEntries(templated)
      && LabelEntries(x) ==
         (if inherit then LabelEntries(s) - (match used case None => {} case Some(r) => LabelEntries(r.settings).Keys)
          else map[]) +
         LabelEntries(templated)
  {
    var u := if used.Some? then used.value.settings else NOTHING;
    PurgedLists(parent.settings, used);
    SelectorMerge(parent.settings.hookSelector, u.hookSelector, templated.hookSelector,
                  parent.cascades.inheritHookSelector);
    hide Purged, MergeInheritedSelector, MergeInheritedArray, PurgeSelector, Without;
  }

  lemma SelectorIsHandedDown(p: Path, k: nat)
    requires IsPath(p) && k < |p.steps|
    ensures Inherits(ExpressionEntries, InheritsSelector(p.scans[0].cascades), p, k) &&
            AddsLiterally(ExpressionEntries, p, k)
    ensures LabelEntries(p.scans[k + 1].settings) ==
            (if InheritsSelector(p.scans[0].cascades)
             then LabelEntries(p.scans[k].settings) - LabelsDeclared(p.used, Rules(p.steps), k) else map[]) +
            LabelEntries(p.steps[k].rule.settings)
  {
    StepMerges(p, k);
    TemplatedKeeps(p, k);
    SelectorStep(p.scans[k], UsedAt(p.used, Rules(p.steps), k), Templated(p, k));
    hide IsPath, Rules, MergeSettings, PurgedScan, TemplateRule, Without;
  }

  lemma SelectorMerge(parent: Option<Selector>, used: Option<Selector>, rule: Option<Selector>, inherit: Option<bool>)
    ensures var purged := GetOr(PurgeSelector(parent, used), NO_SELECTOR);
            var merged := MergeInheritedSelector(purged, GetOr(rule, NO_SELECTOR), inherit);
      && GetOr(merged.matchExpressions, []) ==
         (if inherit == Some(true) then Without(Expressions(parent), Expressions(used)) else []) + Expressions(rule)
      && GetOr(merged.matchLabels, map[]) ==
         (if inherit == Some(true) then Labels(parent) - Labels(used).Keys else map[]) + Labels(rule)
  {
    ExpressionMerge(parent, used, rule, inherit);
    LabelMerge(parent, used, rule, inherit);
    hide *;
  }

  lemma ExpressionMerge(parent: Option<Selector>, used: Option<Selector>, rule: Option<Selector>, inherit: Option<bool>)
    ensures var purged := GetOr(PurgeSelector(parent, used), NO_SELECTOR);
      GetOr(MergeInheritedSelector(purged, GetOr(rule, NO_SELECTOR), inherit).matchExpressions, []) ==
      (if inherit == Some(true) then Without(Expressions(parent), Expressions(used)) else []) + Expressions(rule)
  {
    var p, u, r := GetOr(parent, NO_SELECTOR), GetOr(used, NO_SELECTOR), GetOr(rule, NO_SELECTOR);
    ArrayMerge(p.matchExpressions, u.matchExpressions, r.matchExpressions, Some(GetOr(inherit, false)));
    WithoutNothing(Expressions(parent));
    hide Without, PurgeMap, MergeInheritedMap;
  }

  lemma LabelMerge(parent: Option<Selector>, used: Option<Selector>, rule: Option<Selector>, inherit: Option<bool>)
    ensures var purged := GetOr(PurgeSelector(parent, used), NO_SELECTOR);
      GetOr(MergeInheritedSelector(purged, GetOr(rule, NO_SELECTOR), inherit).matchLabels, map[]) ==
      (if inherit == Some(true) then Labels(parent) - Labels(used).Keys else map[]) + Labels(rule)
  {
    assert Labels(parent) - {} == Labels(parent);
    hide PurgeArray, MergeInheritedArray;
  }

  function Expressions(selector: Option<Selector>): seq<Expression>
  {
    GetOr(GetOr(selector, NO_SELECTOR).matchExpressions, [])
  }

  /** The labels that the rule of the k-th scan declares. */
  function LabelsDeclared(used: Option<Rule>, rules: seq<Rule>, k: nat): set<string>
    requires k <= |rules|
  {
    match UsedAt(used, rules, k) case None => {} case Some(r) => LabelEntries(r.settings).Keys
  }

  lemma RestIsHandedDown(p: Path, k: nat)
    requires IsPath(p) && k < |p.steps|
    ensures Accumulates(ContainerEntries, InheritsContainers(p.scans[0].cascades), p, k)
    ensures Accumulates(TolerationEntries, InheritsTolerations(p.scans[0].cascades), p, k) &&
            AddsLiterally(TolerationEntries, p, k)
    ensures p.scans[k + 1].settings.affinity ==
            (if p.steps[k].rule.settings.affinity.Some? then p.steps[k].rule.settings.affinity
             else if InheritsAffinity(p.scans[0].cascades) then p.scans[k].settings.affinity else None)
    ensures p.scans[k + 1].settings.tolerations.None? <==>
            p.steps[k].rule.settings.tolerations.None? &&
            (InheritsTolerations(p.scans[0].cascades) ==> p.scans[k].settings.tolerations.None?)
    ensures p.scans[k + 1].settings.scanType == Templated(p, k).scanType
    ensures p.scans[k + 1].settings.parameters == Templated(p, k).parameters
  {
    StepMerges(p, k);
    TemplatedKeeps(p, k);
    RestStep(p.scans[k], UsedAt(p.used, Rules(p.steps), k), Templated(p, k));
    hide IsPath, Rules, MergeSettings, PurgedScan, TemplateRule;
  }

  lemma RestStep(parent: Scan, used: Option<Rule>, templated: Settings)
    ensures var x, s, f := MergeSettings(PurgedScan(parent, used), templated), parent.settings, parent.cascades;
      && ContainerEntries(x) ==
         (if InheritsContainers(f) then ContainerEntries(s) else []) + ContainerEntries(templated)
      && TolerationEntries(x) ==
         (if InheritsTolerations(f) then TolerationEntries(s) else []) + TolerationEntries(templated)
      && (x.tolerations.None? <==> templated.tolerations.None? && (InheritsTolerations(f) ==> s.tolerations.None?))
      && x.affinity == (if templated.affinity.Some? then templated.affinity else if InheritsAffinity(f)
                        then s.affinity else None)
      && x.scanType == templated.scanType && x.parameters == templated.parameters
  {
    PurgedLists(parent.settings, used);
    hide Purged, MergeInheritedSelector;
  }

  // ---------------------------------------------------------------- selector labels and affinity

  /** The labels declared by the rules that started the first n scans. */
  function LabelsBefore(used: Option<Rule>, rules: seq<Rule>, n: nat): set<string>
    requires n <= |rules| + 1
  {
    if n == 0 then {} else LabelsBefore(used, rules, n - 1) + LabelsDeclared(used, rules, n - 1)
  }

  function LabelForm(inherit: bool, root: Settings, used: Option<Rule>, rules: seq<Rule>, n: nat): map<string, string>
    requires 0 < n <= |rules|
  {
    (if inherit then LabelEntries(root) - LabelsBefore(used, rules, n) else map[]) + LabelEntries(rules[n - 1].settings)
  }

  /** The labels of a scan: the root's without every label a rule up to the parent's declares, then its own rule's. A
      label that a rule overrides is gone for the scans further down. */
  lemma {:induction false} LabelsAlongPath(p: Path, n: nat)
    requires IsPath(p) && 0 < n <= |p.steps|
    ensures LabelEntries(p.scans[n].settings) ==
            LabelForm(InheritsSelector(p.scans[0].cascades), p.scans[0].settings, p.used, Rules(p.steps), n)
  {
    hide IsPath, LabelEntries, Rules, Inherits, AddsLiterally;
    PathLength(p);
    SelectorIsHandedDown(p, n - 1);
    RuleAt(p, n - 1);
    if InheritsSelector(p.scans[0].cascades) {
      var rules, root := Rules(p.steps), LabelEntries(p.scans[0].settings);
      if n == 1 {
        assert LabelsBefore(p.used, rules, 0) + LabelsDeclared(p.used, rules, 0) == LabelsDeclared(p.used, rules, 0);
      } else {
        LabelsAlongPath(p, n - 1);
        LabelsOfRule(p.used, rules, n - 1);
        RuleAt(p, n - 2);
        var parent, own := LabelEntries(rules[n - 2].settings), LabelEntries(rules[n - 1].settings);
        PurgeLabels(root, LabelsBefore(p.used, rules, n - 1), parent, own);
      }
    }
  }

  lemma RuleAt(p: Path, k: nat)
    requires k < |p.steps|
    ensures |Rules(p.steps)| == |p.steps| && Rules(p.steps)[k] == p.steps[k].rule
  {}

  lemma LabelsOfRule(used: Option<Rule>, rules: seq<Rule>, k: nat)
    requires 0 < k <= |rules|
    ensures LabelsDeclared(used, rules, k) == LabelEntries(rules[k - 1].settings).Keys
  {}

  lemma PurgeLabels(root: map<string, string>, before: set<string>, parent: map<string, string>,
                    own: map<string, string>)
    ensures root - before + parent - parent.Keys + own == root - (before + parent.Keys) + own
  {
    assert root - before + parent - parent.Keys == root - (before + parent.Keys);
  }

  /** The affinity of the last of the first n rules that sets one. */
  function LastAffinity(root: Option<string>, rules: seq<Rule>, n: nat): Option<string>
    requires n <= |rules|
  {
    if n == 0 then root
    else if rules[n - 1].settings.affinity.Some? then rules[n - 1].settings.affinity
    else LastAffinity(root, rules, n - 1)
  }

  /** A scan has the affinity of the nearest rule above it that sets one, itself included, else its root's. */
  lemma {:induction false} AffinityAlongPath(p: Path, n: nat)
    requires IsPath(p) && n <= |p.steps| && InheritsAffinity(p.scans[0].cascades)
    ensures p.scans[n].settings.affinity == LastAffinity(p.scans[0].settings.affinity, Rules(p.steps), n)
  {
    hide IsPath, Accumulates, AddsLiterally, Rules;
    PathLength(p);
    if n > 0 {
      RestIsHandedDown(p, n - 1);
      AffinityAlongPath(p, n - 1);
      RuleAt(p, n - 1);
    }
  }

  /** Inherited tolerations stay absent, rather than empty, exactly as long as neither the root nor a rule sets any. */
  lemma {:induction false} TolerationsStayAbsent(p: Path, n: nat)
    requires IsPath(p) && n <= |p.steps| && InheritsTolerations(p.scans[0].cascades)
    ensures p.scans[n].settings.tolerations.None? <==>
            p.scans[0].settings.tolerations.None? && forall k :: 0 <= k < n ==>
                p.steps[k].rule.settings.tolerations.None?
  {
    hide IsPath, Accumulates, AddsLiterally, Rules;
    PathLength(p);
    if n > 0 {
      RestIsHandedDown(p, n - 1);
      TolerationsStayAbsent(p, n - 1);
    }
  }

  // ---------------------------------------------------------------- all fields, all scans of a cascade

  /** The settings of the last scan of a path: env and init containers depend on what templating made of the rules, the
      other fields on the root and the rules alone. */
  ghost predicate SettingsFollow(p: Path)
    requires |p.scans| == |p.steps| + 1 && p.steps != []
  {
    var n, f, root, x := |p.steps|, p.scans[0].cascades, p.scans[0].settings, p.scans[|p.steps|].settings;
    && EnvEntries(x) == ClosedForm(EnvEntries, InheritsEnv(f), p, n)
    && ContainerEntries(x) == Pile(ContainerEntries, InheritsContainers(f), p, n)
    && x.scanType == Templated(p, n - 1).scanType && x.parameters == Templated(p, n - 1).parameters
    && RulesDecide(f, root, p.used, Rules(p.steps), x)
  }

  /** The fields that templating does not touch. */
  ghost predicate RulesDecide(f: Inheritance, root: Settings, used: Option<Rule>, rules: seq<Rule>, x: Settings)
    requires rules != []
  {
    var n, own := |rules|, rules[|rules| - 1].settings;
    && VolumeEntries(x) == LiteralForm(VolumeEntries, InheritsVolumes(f), root, used, rules)
    && MountEntries(x) == LiteralForm(MountEntries, InheritsVolumes(f), root, used, rules)
    && ExpressionEntries(x) == LiteralForm(ExpressionEntries, InheritsSelector(f), root, used, rules)
    && LabelEntries(x) == LabelForm(InheritsSelector(f), root, used, rules, n)
    && TolerationEntries(x) ==
       (if InheritsTolerations(f) then TolerationEntries(root) + AddedLiterally(TolerationEntries, rules, n)
        else TolerationEntries(own))
    && x.affinity == if InheritsAffinity(f) then LastAffinity(root.affinity, rules, n) else own.affinity
  }

  lemma ListsAlongPath(p: Path)
    requires IsPath(p) && p.steps != []
    ensures var f, x := p.scans[0].cascades, p.scans[|p.steps|].settings;
      && EnvEntries(x) == ClosedForm(EnvEntries, InheritsEnv(f), p, |p.steps|)
      && VolumeEntries(x) == LiteralForm(VolumeEntries, InheritsVolumes(f), p.scans[0].settings, p.used, Rules(p.steps))
      && MountEntries(x) == LiteralForm(MountEntries, InheritsVolumes(f), p.scans[0].settings, p.used, Rules(p.steps))
      && ExpressionEntries(x) ==
         LiteralForm(ExpressionEntries, InheritsSelector(f), p.scans[0].settings, p.used, Rules(p.steps))
  {
    PathLength(p);
    var f := p.scans[0].cascades;
    var env, volumes, selector := InheritsEnv(f), InheritsVolumes(f), InheritsSelector(f);
    forall k | 0 <= k < |p.steps|
      ensures Inherits(EnvEntries, env, p, k)
      ensures Inherits(VolumeEntries, volumes, p, k) && AddsLiterally(VolumeEntries, p, k)
      ensures Inherits(MountEntries, volumes, p, k) && AddsLiterally(MountEntries, p, k)
      ensures Inherits(ExpressionEntries, selector, p, k) && AddsLiterally(ExpressionEntries, p, k)
    {
      ListsAreHandedDown(p, k);
      SelectorIsHandedDown(p, k);
    }
    hide IsPath, Inherits, AddsLiterally, ClosedForm, LiteralForm;
    EntriesAlongPath(EnvEntries, env, p, |p.steps|);
    LiteralRulesStopAtTheirScan(VolumeEntries, volumes, p);
    LiteralRulesStopAtTheirScan(MountEntries, volumes, p);
    LiteralRulesStopAtTheirScan(ExpressionEntries, selector, p);
  }

  /** Inherited init containers and tolerations pile up: what a rule adds reaches all scans further down. */
  lemma UnpurgedAlongPath(p: Path)
    requires IsPath(p) && p.steps != []
    ensures var f, x, rules, own :=
            p.scans[0].cascades, p.scans[|p.steps|].settings, Rules(p.steps), p.steps[|p.steps| - 1].rule.settings;
      && ContainerEntries(x) == Pile(ContainerEntries, InheritsContainers(f), p, |p.steps|)
      && TolerationEntries(x) ==
         (if InheritsTolerations(f)
          then TolerationEntries(p.scans[0].settings) + AddedLiterally(TolerationEntries, rules, |rules|)
          else TolerationEntries(own))
  {
    PathLength(p);
    var n, containers, tolerations :=
        |p.steps|, InheritsContainers(p.scans[0].cascades), InheritsTolerations(p.scans[0].cascades);
    forall k | 0 <= k < n
      ensures Accumulates(ContainerEntries, containers, p, k)
      ensures Accumulates(TolerationEntries, tolerations, p, k) && AddsLiterally(TolerationEntries, p, k)
    {
      RestIsHandedDown(p, k);
    }
    hide IsPath, Accumulates, Rendered;
    AccumulatedAlongPath(ContainerEntries, containers, p, n);
    AccumulatedAlongPath(TolerationEntries, tolerations, p, n);
    AddedIsLiteral(TolerationEntries, p, n);
    assert AddsLiterally(TolerationEntries, p, n - 1);
  }

  lemma SettingsAlongPath(p: Path)
    requires IsPath(p) && p.steps != []
    ensures |p.scans| == |p.steps| + 1 && SettingsFollow(p)
  {
    var n := |p.steps|;
    PathLength(p);
    ListsAlongPath(p);
    UnpurgedAlongPath(p);
    LabelsAlongPath(p, n);
    RestIsHandedDown(p, n - 1);
    if InheritsAffinity(p.scans[0].cascades) { AffinityAlongPath(p, n); }
    hide IsPath, ClosedForm, LiteralForm, LabelForm, Pile, AddedLiterally, LastAffinity, Accumulates, AddsLiterally,
        TemplateRule, Rules;
    hide EnvEntries, VolumeEntries, MountEntries, ExpressionEntries, LabelEntries, ContainerEntries,
        TolerationEntries, Names;
    assert Rules(p.steps)[n - 1] == p.steps[n - 1].rule;
  }

  /** Every scan of a cascade has the settings that its root and the steps on its way determine, and its chain
      annotation names the rules of these steps. */
  lemma SettingsOfDescendants(c: Cluster, scan: Scan, depth: nat, x: Scan)
    requires WellFormed(c) && UsedRule(c, scan).Some? && depth > 0 && x in Descendants(c, scan, depth)
    ensures exists p: Path ::
              |p.steps| == depth && Reaches(c, scan, x, p) && |p.scans| == depth + 1 && SettingsFollow(p)
  {
    hide *;
    DescendantHasPath(c, scan, depth, x);
    var p: Path :| |p.steps| == depth && Reaches(c, scan, x, p);
    ReachedByPath(c, scan, x, p);
    SettingsAlongPath(p);
  }

  // ---------------------------------------------------------------- the chain determines the settings

  /** A rule that templating leaves alone, whatever the scan and the finding. */
  ghost predicate Literal(e: Environment, rule: Rule) {
    forall scan, finding :: TemplateRule(e, scan, finding, rule).settings == rule.settings
  }

  /** All settings in terms of the root and the rules, for rules that templating leaves alone. */
  ghost predicate RulesDecideAll(f: Inheritance, root: Settings, used: Option<Rule>, rules: seq<Rule>, x: Settings)
    requires rules != []
  {
    var n, own := |rules|, rules[|rules| - 1].settings;
    && EnvEntries(x) == LiteralForm(EnvEntries, InheritsEnv(f), root, used, rules)
    && ContainerEntries(x) ==
       (if InheritsContainers(f) then ContainerEntries(root) + AddedLiterally(ContainerEntries, rules, n)
        else ContainerEntries(own))
    && x.scanType == own.scanType && x.parameters == own.parameters
  }

  lemma LiteralSettingsAlongPath(p: Path)
    requires IsPath(p) && p.steps != [] && forall k :: 0 <= k < |p.steps| ==> Literal(p.environment, p.steps[k].rule)
    ensures RulesDecideAll(p.scans[0].cascades, p.scans[0].settings, p.used, Rules(p.steps),
                           p.scans[|p.steps|].settings)
  {
    PathLength(p);
    var n, f := |p.steps|, p.scans[0].cascades;
    var env, containers := InheritsEnv(f), InheritsContainers(f);
    forall k | 0 <= k < n
      ensures Inherits(EnvEntries, env, p, k) && AddsLiterally(EnvEntries, p, k)
      ensures Accumulates(ContainerEntries, containers, p, k) && AddsLiterally(ContainerEntries, p, k)
    {
      ListsAreHandedDown(p, k);
      RestIsHandedDown(p, k);
      assert Literal(p.environment, p.steps[k].rule);
      hide IsPath, TemplateRule, Inherits, Accumulates;
    }
    RestIsHandedDown(p, n - 1);
    RuleAt(p, n - 1);
    assert Literal(p.environment, p.steps[n - 1].rule);
    hide IsPath, Inherits, Accumulates, LiteralForm, TemplateRule, Rules;
    LiteralRulesStopAtTheirScan(EnvEntries, env, p);
    AccumulatedAlongPath(ContainerEntries, containers, p, n);
    AddedIsLiteral(ContainerEntries, p, n);
    assert AddsLiterally(ContainerEntries, p, n - 1);
  }

  /** The same settings, except for what templating can touch. */
  ghost predicate Agree(x: Settings, y: Settings) {
    && VolumeEntries(x) == VolumeEntries(y) && MountEntries(x) == MountEntries(y)
    && ExpressionEntries(x) == ExpressionEntries(y) && LabelEntries(x) == LabelEntries(y)
    && TolerationEntries(x) == TolerationEntries(y) && x.affinity == y.affinity
  }

  ghost predicate AgreeAll(x: Settings, y: Settings) {
    && Agree(x, y) && EnvEntries(x) == EnvEntries(y) && ContainerEntries(x) == ContainerEntries(y)
    && x.scanType == y.scanType && x.parameters == y.parameters
  }

  /** Two scans of a cascade with the same chain annotation have the same settings, whatever findings started them,
      as far as templating does not touch them; with rules that have no templates, all settings. */
  lemma ChainDeterminesSettings(c: Cluster, scan: Scan, depth: nat, x: Scan, otherDepth: nat, y: Scan)
    requires WellFormed(c) && UsedRule(c, scan).Some? && Chain(x) == Chain(y)
    requires x in Descendants(c, scan, depth) && y in Descendants(c, scan, otherDepth) && depth > 0 && otherDepth > 0
    ensures Agree(x.settings, y.settings)
    ensures (forall r <- c.selected :: Literal(c.environment, r)) ==> AgreeAll(x.settings, y.settings)
  {
    hide *;
    DescendantHasPath(c, scan, depth, x);
    var p: Path :| |p.steps| == depth && Reaches(c, scan, x, p);
    DescendantHasPath(c, scan, otherDepth, y);
    var q: Path :| |q.steps| == otherDepth && Reaches(c, scan, y, q);
    ReachedByPath(c, scan, x, p);
    ReachedByPath(c, scan, y, q);
    SameTail(Chain(scan), Names(Rules(p.steps)), Names(Rules(q.steps)));
    ChainNamesRules(c, p.steps, q.steps);
    SettingsAlongPath(p);
    SettingsAlongPath(q);
    SameRulesAgree(p, q);
    if forall r <- c.selected :: Literal(c.environment, r) {
      FreshRulesAreSelected(c, p.steps);
      FreshRulesAreSelected(c, q.steps);
      LiteralSettingsAlongPath(p);
      LiteralSettingsAlongPath(q);
      SameRulesAgreeAll(p, q);
    }
  }

  lemma FreshRulesAreSelected(c: Cluster, steps: seq<Step>)
    requires FreshRules(c, steps)
    ensures forall k :: 0 <= k < |steps| ==> steps[k].rule in c.selected
  {}

  lemma SameRulesAgree(p: Path, q: Path)
    requires p.steps != [] && q.steps != [] && Rules(p.steps) == Rules(q.steps) && p.used == q.used
    requires |p.scans| == |p.steps| + 1 && |q.scans| == |q.steps| + 1 && p.scans[0] == q.scans[0]
    requires SettingsFollow(p) && SettingsFollow(q)
    ensures Agree(p.scans[|p.steps|].settings, q.scans[|q.steps|].settings)
  {
    hide *;
    RulesDecideIn(p);
    RulesDecideIn(q);
    DecidedAlike(p.scans[0].cascades, p.scans[0].settings, p.used, Rules(p.steps), p.scans[|p.steps|].settings,
                 q.scans[|q.steps|].settings);
  }

  lemma RulesDecideIn(p: Path)
    requires |p.scans| == |p.steps| + 1 && p.steps != [] && SettingsFollow(p)
    ensures Rules(p.steps) != []
    ensures RulesDecide(p.scans[0].cascades, p.scans[0].settings, p.used, Rules(p.steps), p.scans[|p.steps|].settings)
  {
    hide RulesDecide;
  }

  lemma DecidedAlike(f: Inheritance, root: Settings, used: Option<Rule>, rules: seq<Rule>, x: Settings, y: Settings)
    requires rules != [] && RulesDecide(f, root, used, rules, x) && RulesDecide(f, root, used, rules, y)
    ensures Agree(x, y)
  {
    hide LiteralForm, LabelForm, AddedLiterally, LastAffinity;
  }

  lemma SameRulesAgreeAll(p: Path, q: Path)
    requires p.steps != [] && q.steps != [] && Rules(p.steps) == Rules(q.steps) && Rules(p.steps) != [] &&
             p.used == q.used
    requires |p.scans| == |p.steps| + 1 && |q.scans| == |q.steps| + 1 && p.scans[0] == q.scans[0]
    requires Agree(p.scans[|p.steps|].settings, q.scans[|q.steps|].settings)
    requires RulesDecideAll(p.scans[0].cascades, p.scans[0].settings, p.used, Rules(p.steps),
                            p.scans[|p.steps|].settings)
    requires RulesDecideAll(q.scans[0].cascades, q.scans[0].settings, q.used, Rules(q.steps),
                            q.scans[|q.steps|].settings)
    ensures AgreeAll(p.scans[|p.steps|].settings, q.scans[|q.steps|].settings)
  {
    hide LiteralForm, AddedLiterally, Rules, Agree;
  }

  // ---------------------------------------------------------------- the purge compares literally

  /** With environment inheritance on, a rule's variables stop at the scan it starts if and only if no rendered variable
      of an earlier step escapes the literal comparison. */
  lemma EnvStopsAtItsScan(p: Path, n: nat)
    requires IsPath(p) && 0 < n <= |p.steps| && InheritsEnv(p.scans[0].cascades)
    ensures EnvEntries(p.scans[n].settings) ==
            Without(EnvEntries(p.scans[0].settings), DeclaredBefore(EnvEntries, p.used, Rules(p.steps), n)) +
                Rendered(EnvEntries, p, n - 1)
            <==> DeclaredLater(EnvEntries, p, n)
  {
    PathLength(p);
    forall k | 0 <= k < |p.steps| ensures Inherits(EnvEntries, true, p, k) { ListsAreHandedDown(p, k); }
    hide IsPath, Inherits;
    RuleStopsAtItsScan(EnvEntries, p, n);
  }

  function RenderedVar(e: Environment, scan: Scan, finding: Finding, v: EnvVar): EnvVar {
    if v.value.None? then v else v.(value := Some(e.render(scan, finding, v.value.value)))
  }

  /** Two cascades below a root without variables, where the second rule sets none either. */
  ghost predicate TwoCascades(root: Scan, first: Step, second: Step, v: EnvVar) {
    && InheritsEnv(root.cascades) && EnvEntries(root.settings) == []
    && first.rule.settings.env == Some([v]) && EnvEntries(second.rule.settings) == []
  }

  ghost function Child(e: Environment, parent: Scan, used: Option<Rule>, step: Step): Scan {
    GetCascadingScan(e, PurgedScan(parent, used), step.finding, step.rule).(name := step.name)
  }

  ghost function TwoSteps(e: Environment, root: Scan, first: Step, second: Step): Path {
    var child := Child(e, root, None, first);
    Path(e, None, [root, child, Child(e, child, Some(first.rule), second)], [first, second])
  }

  /** A variable whose value templating changes is handed on: the purge looks for the text of the template, but the scan
      has the rendered text. So the first rule's variable reaches the second scan, unless rendering left it alone. */
  lemma TemplatedEnvLeaks(e: Environment, root: Scan, first: Step, second: Step, v: EnvVar)
    requires TwoCascades(root, first, second, v)
    ensures var p, rendered := TwoSteps(e, root, first, second), RenderedVar(e, root, first.finding, v);
      && IsPath(p)
      && EnvEntries(p.scans[1].settings) == [rendered]
      && EnvEntries(p.scans[2].settings) == if rendered == v then [] else [rendered]
  {
    var p, rendered := TwoSteps(e, root, first, second), RenderedVar(e, root, first.finding, v);
    TwoStepPath(e, root, first, second);
    FirstAdds(e, root, first, second, v);
    SecondAdds(e, root, first, second, v);
    hide *;
    WithoutOne(rendered, v);
  }

  lemma WithoutOne<T>(x: T, v: T)
    ensures Without([x], [v]) == if x == v then [] else [x]
  {
    assert [x][1..] == [] && Without([x][1..], [v]) == [];
  }

  lemma FirstAdds(e: Environment, root: Scan, first: Step, second: Step, v: EnvVar)
    requires TwoCascades(root, first, second, v) && IsPath(TwoSteps(e, root, first, second))
    ensures |TwoSteps(e, root, first, second).scans| == 3
    ensures EnvEntries(TwoSteps(e, root, first, second).scans[1].settings) == [RenderedVar(e, root, first.finding, v)]
  {
    var p := TwoSteps(e, root, first, second);
    ListsAreHandedDown(p, 0);
    assert Parent(p, 0) == root;
    hide IsPath, GetCascadingScan, TemplateRule;
    RenderedEnv(e, root, first, [v]);
    assert RenderedVars(e, root, first.finding, [v]) == [RenderedVar(e, root, first.finding, v)];
    WithoutNone<EnvVar>([]);
    assert Rendered(EnvEntries, p, 0) == [RenderedVar(e, root, first.finding, v)];
    hide Rendered, RenderedVar, Rules;
    assert Inherits(EnvEntries, true, p, 0);
  }

  lemma SecondAdds(e: Environment, root: Scan, first: Step, second: Step, v: EnvVar)
    requires TwoCascades(root, first, second, v) && IsPath(TwoSteps(e, root, first, second))
    ensures var p := TwoSteps(e, root, first, second);
      |p.scans| == 3 && EnvEntries(p.scans[2].settings) == Without(EnvEntries(p.scans[1].settings), [v])
  {
    var p := TwoSteps(e, root, first, second);
    ListsAreHandedDown(p, 1);
    hide IsPath, GetCascadingScan, TemplateRule, Without;
    RuleAt(p, 0);
    hide Rules;
    RenderedEnv(e, Parent(p, 1), second, []);
    assert Rendered(EnvEntries, p, 1) == [];
    assert DeclaredAt(EnvEntries, p, 1) == [v];
    assert Inherits(EnvEntries, true, p, 1);
    var kept := Without(EnvEntries(p.scans[1].settings), [v]);
    assert kept + [] == kept;
  }

  function RenderedVars(e: Environment, scan: Scan, finding: Finding, env: seq<EnvVar>): seq<EnvVar> {
    seq(|env|, i requires 0 <= i < |env| => RenderedVar(e, scan, finding, env[i]))
  }

  lemma RenderedEnv(e: Environment, scan: Scan, step: Step, env: seq<EnvVar>)
    requires EnvEntries(step.rule.settings) == env
    ensures EnvEntries(TemplateRule(e, scan, step.finding, step.rule).settings) ==
            RenderedVars(e, scan, step.finding, env)
  {}

  lemma TwoStepPath(e: Environment, root: Scan, first: Step, second: Step)
    ensures IsPath(TwoSteps(e, root, first, second))
  {
    hide GetCascadingScan, PurgedScan;
    var p := TwoSteps(e, root, first, second);
    assert Rules(p.steps)[0] == first.rule;
  }
}
