/** What templating makes of the rule in the follow-up scan, field by field, in terms of the renderer alone. */
module FollowUpScan {
  import opened Options
  import opened Text
  import opened CascadingScans

  /** One variable rendered: a text value is templated, the rest is left alone. */
  ghost predicate VariableRendered(e: Environment, parent: Scan, finding: Finding, before: EnvVar, after: EnvVar) {
    && after.name == before.name && after.valueFrom == before.valueFrom
    && (before.value.None? ==> after.value.None?)
    && (before.value.Some? ==> after.value == Some(e.render(parent, finding, before.value.value)))
  }

  ghost predicate VariablesRendered(e: Environment, parent: Scan, finding: Finding, before: seq<EnvVar>,
                                    after: seq<EnvVar>) {
    |after| == |before| &&
    forall i :: 0 <= i < |before| ==> VariableRendered(e, parent, finding, before[i], after[i])
  }

  ghost predicate TextsRendered(e: Environment, parent: Scan, finding: Finding, before: seq<string>,
                                after: seq<string>) {
    |after| == |before| && forall i :: 0 <= i < |before| ==> after[i] == e.render(parent, finding, before[i])
  }

  ghost predicate ContainerRendered(e: Environment, parent: Scan, finding: Finding, before: Container,
                                    after: Container) {
    && after.name == before.name && TextsRendered(e, parent, finding, before.command, after.command)
    && (before.env.None? ==> after.env.None?)
    && (before.env.Some? ==>
          after.env.Some? && VariablesRendered(e, parent, finding, before.env.value, after.env.value))
  }

  ghost predicate ContainersRendered(e: Environment, parent: Scan, finding: Finding, before: seq<Container>,
                                     after: seq<Container>) {
    |after| == |before| &&
    forall i :: 0 <= i < |before| ==> ContainerRendered(e, parent, finding, before[i], after[i])
  }

  /** The entries the parent hands on. */
  function Inherited<T>(entries: Option<seq<T>>, inherit: Option<bool>): seq<T> {
    if inherit == Some(true) && entries.Some? then entries.value else []
  }

  /** Scan type and parameters are the rule's, rendered; environment and init containers are what the parent hands on,
      unchanged, followed by the rule's, rendered; volumes and volume mounts are not rendered. */
  lemma RuleIsRendered(e: Environment, parent: Scan, finding: Finding, rule: Rule)
    ensures var x, s, f := GetCascadingScan(e, parent, finding, rule).settings, rule.settings, parent.cascades;
            var env, containers := Inherited(parent.settings.env, f.inheritEnv),
                                   Inherited(parent.settings.initContainers, f.inheritInitContainers);
      && x.scanType == e.render(parent, finding, s.scanType)
      && TextsRendered(e, parent, finding, s.parameters, x.parameters)
      && x.env.Some? && env <= x.env.value
      && VariablesRendered(e, parent, finding, if s.env.Some? then s.env.value else [], x.env.value[|env|..])
      && x.initContainers.Some? && containers <= x.initContainers.value
      && ContainersRendered(e, parent, finding, if s.initContainers.Some? then s.initContainers.value else [],
                            x.initContainers.value[|containers|..])
      && x.volumes == Some(Inherited(parent.settings.volumes, f.inheritVolumes) + Inherited(s.volumes, Some(true)))
      && x.volumeMounts ==
         Some(Inherited(parent.settings.volumeMounts, f.inheritVolumes) + Inherited(s.volumeMounts, Some(true)))
  {
    hide *;
    var t, f := TemplateRule(e, parent, finding, rule).settings, parent.cascades;
    MergedSettings(e, parent, finding, rule);
    RuleIsTemplated(e, parent, finding, rule);
    AfterInherited(Inherited(parent.settings.env, f.inheritEnv), Inherited(t.env, Some(true)));
    AfterInherited(Inherited(parent.settings.initContainers, f.inheritInitContainers),
                   Inherited(t.initContainers, Some(true)));
    OwnEntries(rule.settings.env);
    OwnEntries(rule.settings.initContainers);
  }

  lemma AfterInherited<T>(inherited: seq<T>, own: seq<T>)
    ensures inherited <= inherited + own && (inherited + own)[|inherited|..] == own
  {}

  lemma OwnEntries<T>(entries: Option<seq<T>>)
    ensures Inherited(entries, Some(true)) == if entries.Some? then entries.value else []
  {}

  lemma MergedSettings(e: Environment, parent: Scan, finding: Finding, rule: Rule)
    ensures var x, t := GetCascadingScan(e, parent, finding, rule).settings,
                        TemplateRule(e, parent, finding, rule).settings;
            var s, f, own := parent.settings, parent.cascades, Some(true);
      && x.scanType == t.scanType && x.parameters == t.parameters
      && x.env == Some(Inherited(s.env, f.inheritEnv) + Inherited(t.env, own))
      && x.initContainers ==
         Some(Inherited(s.initContainers, f.inheritInitContainers) + Inherited(t.initContainers, own))
      && x.volumes == Some(Inherited(s.volumes, f.inheritVolumes) + Inherited(t.volumes, own))
      && x.volumeMounts == Some(Inherited(s.volumeMounts, f.inheritVolumes) + Inherited(t.volumeMounts, own))
  {
    hide TemplateRule, MergeInheritedSelector, MergeInheritedMap, ScopeOf, GetScanChain;
  }

  lemma RuleIsTemplated(e: Environment, parent: Scan, finding: Finding, rule: Rule)
    ensures var t, s := TemplateRule(e, parent, finding, rule).settings, rule.settings;
      && t.scanType == e.render(parent, finding, s.scanType)
      && TextsRendered(e, parent, finding, s.parameters, t.parameters)
      && VariablesRendered(e, parent, finding, Inherited(s.env, Some(true)), Inherited(t.env, Some(true)))
      && ContainersRendered(e, parent, finding, Inherited(s.initContainers, Some(true)),
                            Inherited(t.initContainers, Some(true)))
      && t.volumes == s.volumes && t.volumeMounts == s.volumeMounts
  {}

  /** The name of a follow-up scan: its parent's, with its own scan type in place of the parent's where the name begins
      with that, then the rule's name; the API appends the rest. It lives where its parent does and cascades alike. */
  lemma NameAndPlace(e: Environment, parent: Scan, finding: Finding, rule: Rule)
    ensures var x := GetCascadingScan(e, parent, finding, rule);
      && (forall rest :: parent.name == parent.settings.scanType + rest ==>
            x.name == e.render(parent, finding, rule.settings.scanType) + rest + "-" + rule.name + "-")
      && (!(parent.settings.scanType <= parent.name) ==> x.name == parent.name + "-" + rule.name + "-")
      && x.resourceMode == Some(if parent.resourceMode.Some? then parent.resourceMode.value else "namespaceLocal")
      && x.cascades == parent.cascades
  {
    hide MergeSettings, MergeInheritedMap, ScopeOf, GetScanChain;
  }
}
