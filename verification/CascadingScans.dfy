/** The cascading scans hook: which follow-up scans a finished scan starts, and what they inherit.
    Models hooks/cascading-scans/hook/hook.ts and scan-helpers.ts. */
module CascadingScans {
  import opened Options
  import opened Text
  import opened LabelSelector
  import opened ScopeLimiter

  const CHAIN := "cascading.securecodebox.io/chain"
  const PARENT := "cascading.securecodebox.io/parent-scan"
  const MATCHED_FINDING := "cascading.securecodebox.io/matched-finding"
  const HOOK := "securecodebox.io/hook"

  datatype EnvVar = EnvVar(name: string, value: Option<string>, valueFrom: string)
  datatype Volume = Volume(name: string, source: string)
  datatype VolumeMount = VolumeMount(name: string, mountPath: string)
  datatype Container = Container(name: string, command: seq<string>, env: Option<seq<EnvVar>>)
  datatype Selector = Selector(matchExpressions: Option<seq<Expression>>, matchLabels: Option<map<string, string>>)

  /** The parts of a scan specification that a cascading rule can set; None stands for `undefined`. */
  datatype Settings = Settings(
    scanType: string, parameters: seq<string>,
    env: Option<seq<EnvVar>>, volumes: Option<seq<Volume>>, volumeMounts: Option<seq<VolumeMount>>,
    initContainers: Option<seq<Container>>, hookSelector: Option<Selector>,
    affinity: Option<string>, tolerations: Option<seq<string>>)

  datatype Inheritance = Inheritance(
    scopeLimiter: Option<Limiter>,
    inheritLabels: Option<bool>,
    inheritAnnotations: Option<bool>,
    inheritEnv: Option<bool>,
    inheritVolumes: Option<bool>,
    inheritInitContainers: Option<bool>,
    inheritHookSelector: Option<bool>,
    inheritAffinity: Option<bool>,
    inheritTolerations: Option<bool>)

  datatype Scan = Scan(name: string, annotations: map<string, string>, labels: map<string, string>,
                       cascades: Inheritance, settings: Settings, resourceMode: Option<string>)

  datatype Rule = Rule(name: string, settings: Settings,
                       scanAnnotations: Option<map<string, string>>, scanLabels: Option<map<string, string>>)

  datatype Finding = Finding(id: string, content: string)

  /** The scope limiter aliases of a parse definition. */
  type Aliases = map<string, string>

  /** Mustache with a scan and a finding, the rule matcher, and the libraries of the scope limiter, of which Mustache
      also depends on the aliases. */
  datatype Environment = Environment(
    render: (Scan, Finding, string) -> string,
    matches: (Rule, Finding) -> bool,
    libraries: (Aliases, Finding) -> Libraries)

  function GetOr<T>(option: Option<T>, default: T): T {
    match option case None => default case Some(x) => x
  }

  // ---------------------------------------------------------------- the chain

  /** The rules that led to a scan, oldest first. */
  function GetScanChain(annotations: map<string, string>): seq<string> {
    if CHAIN in annotations && annotations[CHAIN] != "" then Split(annotations[CHAIN], ",") else []
  }

  // ---------------------------------------------------------------- merging

  function MergeInheritedMap(parent: map<string, string>, rule: Option<map<string, string>>,
                             inherit: Option<bool>): map<string, string> {
    var base := if GetOr(inherit, true) then parent else map[];
    base + GetOr(rule, map[])
  }

  function MergeInheritedArray<T>(parent: Option<seq<T>>, rule: Option<seq<T>>, inherit: Option<bool>): seq<T> {
    (if GetOr(inherit, false) then GetOr(parent, []) else []) + GetOr(rule, [])
  }

  function MergeInheritedSelector(parent: Selector, rule: Selector, inherit: Option<bool>): Selector {
    var i := Some(GetOr(inherit, false));
    Selector(
      if parent.matchExpressions.Some? || rule.matchExpressions.Some?
      then Some(MergeInheritedArray(parent.matchExpressions, rule.matchExpressions, i)) else None,
      if parent.matchLabels.Some? || rule.matchLabels.Some?
      then Some(MergeInheritedMap(GetOr(parent.matchLabels, map[]), rule.matchLabels, i)) else None)
  }

  const NO_SELECTOR := Selector(None, None)

  function MergeSettings(scan: Scan, rule: Settings): Settings {
    var parent, flags := scan.settings, scan.cascades;
    rule.(
      env := Some(MergeInheritedArray(parent.env, rule.env, flags.inheritEnv)),
      volumes := Some(MergeInheritedArray(parent.volumes, rule.volumes, flags.inheritVolumes)),
      volumeMounts := Some(MergeInheritedArray(parent.volumeMounts, rule.volumeMounts, flags.inheritVolumes)),
      initContainers := Some(MergeInheritedArray(parent.initContainers, rule.initContainers,
                                                 flags.inheritInitContainers)),
      hookSelector := Some(MergeInheritedSelector(GetOr(parent.hookSelector, NO_SELECTOR),
                                                  GetOr(rule.hookSelector, NO_SELECTOR),
                                                  flags.inheritHookSelector)),
      affinity := if rule.affinity.Some? then rule.affinity
                  else if GetOr(flags.inheritAffinity, true) then parent.affinity else None,
      tolerations := if rule.tolerations.Some?
                     then Some(MergeInheritedArray(parent.tolerations, rule.tolerations,
                                                   Some(GetOr(flags.inheritTolerations, true))))
                     else if GetOr(flags.inheritTolerations, true) then parent.tolerations else None)
  }

  // ---------------------------------------------------------------- purging

  function Without<T(==)>(items: seq<T>, removed: seq<T>): seq<T> {
    if items == [] then []
    else (if items[0] in removed then [] else [items[0]]) + Without(items[1..], removed)
  }

  function PurgeArray<T(==)>(scan: Option<seq<T>>, rule: Option<seq<T>>): Option<seq<T>> {
    if scan.Some? && rule.Some? then Some(Without(scan.value, rule.value)) else scan
  }

  function PurgeMap(scan: Option<map<string, string>>, rule: Option<map<string, string>>): Option<map<string, string>> {
    if scan.Some? && rule.Some? then Some(scan.value - rule.value.Keys) else scan
  }

  function PurgeSelector(scan: Option<Selector>, rule: Option<Selector>): Option<Selector> {
    if scan.Some? && rule.Some? then
      Some(Selector(PurgeArray(scan.value.matchExpressions, rule.value.matchExpressions),
                    PurgeMap(scan.value.matchLabels, rule.value.matchLabels)))
    else scan
  }

  /** What the parent hands on: its own settings without those of the rule that started it. */
  function Purged(settings: Settings, rule: Option<Rule>): Settings {
    match rule
    case None => settings
    case Some(r) =>
      settings.(
        env := PurgeArray(settings.env, r.settings.env),
        volumes := PurgeArray(settings.volumes, r.settings.volumes),
        volumeMounts := PurgeArray(settings.volumeMounts, r.settings.volumeMounts),
        hookSelector := PurgeSelector(settings.hookSelector, r.settings.hookSelector))
  }

  /** The parent scan object, whose specification the hook changes in place. */
  class ScanObject {
    var scan: Scan

    constructor (scan: Scan)
      ensures this.scan == scan
    {
      this.scan := scan;
    }

    method PurgeCascadedRuleFromScan(rule: Option<Rule>)
      modifies this
      ensures scan == old(scan).(settings := Purged(old(scan).settings, rule))
    {
      if rule.None? { return; }
      var used := rule.value.settings;
      if scan.settings.env.Some? && used.env.Some? {
        scan := scan.(settings := scan.settings.(env := Some(Without(scan.settings.env.value, used.env.value))));
      }
      if scan.settings.volumes.Some? && used.volumes.Some? {
        scan := scan.(settings :=
                      scan.settings.(volumes := Some(Without(scan.settings.volumes.value, used.volumes.value))));
      }
      if scan.settings.volumeMounts.Some? && used.volumeMounts.Some? {
        scan := scan.(settings :=
                      scan.settings.(volumeMounts :=
                                     Some(Without(scan.settings.volumeMounts.value, used.volumeMounts.value))));
      }
      if scan.settings.hookSelector.Some? && used.hookSelector.Some? {
        var selector, usedSelector := scan.settings.hookSelector.value, used.hookSelector.value;
        if selector.matchExpressions.Some? && usedSelector.matchExpressions.Some? {
          selector := selector.(matchExpressions :=
                                Some(Without(selector.matchExpressions.value, usedSelector.matchExpressions.value)));
        }
        if selector.matchLabels.Some? && usedSelector.matchLabels.Some? {
          var remaining := DeleteKeys(selector.matchLabels.value, usedSelector.matchLabels.value);
          selector := selector.(matchLabels := Some(remaining));
        }
        scan := scan.(settings := scan.settings.(hookSelector := Some(selector)));
      }
    }
  }

  /** The loop that deletes the rule's labels one by one. */
  method DeleteKeys(labels: map<string, string>, used: map<string, string>) returns (remaining: map<string, string>)
    ensures remaining == labels - used.Keys
  {
    remaining := labels;
    var keys := used.Keys;
    while keys != {}
      invariant keys <= used.Keys
      invariant remaining == labels - (used.Keys - keys)
      decreases keys
    {
      var key :| key in keys;
      remaining := remaining - {key};
      keys := keys - {key};
    }
  }

  // ---------------------------------------------------------------- one follow-up scan

  function TemplateEnv(e: Environment, scan: Scan, finding: Finding, env: seq<EnvVar>): seq<EnvVar> {
    seq(|env|, i requires 0 <= i < |env| =>
      match env[i].value
      case None => env[i]
      case Some(v) => env[i].(value := Some(e.render(scan, finding, v))))
  }

  function TemplateStrings(e: Environment, scan: Scan, finding: Finding, texts: seq<string>): seq<string> {
    seq(|texts|, i requires 0 <= i < |texts| => e.render(scan, finding, texts[i]))
  }

  function TemplateContainers(e: Environment, scan: Scan, finding: Finding,
                              containers: seq<Container>): seq<Container> {
    seq(|containers|, i requires 0 <= i < |containers| =>
      containers[i].(
        command := TemplateStrings(e, scan, finding, containers[i].command),
        env := match containers[i].env case None => None case Some(env) => Some(TemplateEnv(e, scan, finding, env))))
  }

  function TemplateMap(e: Environment, scan: Scan, finding: Finding,
                       m: Option<map<string, string>>): map<string, string> {
    match m
    case None => map[]
    case Some(values) => map k | k in values :: e.render(scan, finding, values[k])
  }

  function TemplateRule(e: Environment, scan: Scan, finding: Finding, rule: Rule): Rule {
    var s := rule.settings;
    rule.(
      settings := s.(
        scanType := e.render(scan, finding, s.scanType),
        parameters := TemplateStrings(e, scan, finding, s.parameters),
        env := match s.env case None => None case Some(env) => Some(TemplateEnv(e, scan, finding, env)),
        initContainers := match s.initContainers
                          case None => None
                          case Some(cs) => Some(TemplateContainers(e, scan, finding, cs))),
      scanAnnotations := Some(TemplateMap(e, scan, finding, rule.scanAnnotations)),
      scanLabels := Some(TemplateMap(e, scan, finding, rule.scanLabels)))
  }

  function ScopeOf(annotations: map<string, string>): map<string, string> {
    map k | k in annotations && StartsWith(k, SCOPE_DOMAIN) :: annotations[k]
  }

  function CascadingScanName(parent: Scan, rule: Rule): string {
    (if StartsWith(parent.name, parent.settings.scanType)
     then rule.settings.scanType + parent.name[|parent.settings.scanType|..] else parent.name) + "-" + rule.name
  }

  function GetCascadingScan(e: Environment, parent: Scan, finding: Finding, rule: Rule): Scan {
    var templated := TemplateRule(e, parent, finding, rule);
    Scan(
      CascadingScanName(parent, templated) + "-",
      MergeInheritedMap(parent.annotations, templated.scanAnnotations, parent.cascades.inheritAnnotations) +
        map[HOOK := "cascading-scans", PARENT := parent.name, MATCHED_FINDING := finding.id,
            CHAIN := Join(GetScanChain(parent.annotations) + [rule.name], ",")] +
        ScopeOf(parent.annotations),
      MergeInheritedMap(parent.labels, templated.scanLabels, parent.cascades.inheritLabels),
      parent.cascades,
      MergeSettings(parent, templated.settings),
      Some(GetOr(parent.resourceMode, "namespaceLocal")))
  }

  // ---------------------------------------------------------------- all follow-up scans

  /** Concatenation of two results; an error (None) in either loses both. */
  function Concat(first: Option<seq<Scan>>, rest: Option<seq<Scan>>): Option<seq<Scan>> {
    if first.None? || rest.None? then None else Some(first.value + rest.value)
  }

  lemma ConcatAssociates(a: Option<seq<Scan>>, b: Option<seq<Scan>>, c: Option<seq<Scan>>)
    ensures Concat(Concat(a, b), c) == Concat(a, Concat(b, c))
  {
    if a.Some? && b.Some? && c.Some? {
      assert (a.value + b.value) + c.value == a.value + (b.value + c.value);
    }
  }

  lemma ConcatUnit(a: Option<seq<Scan>>)
    ensures Concat(Some([]), a) == a && Concat(a, Some([])) == a
  {
    if a.Some? { assert [] + a.value == a.value && a.value + [] == a.value; }
  }

  /** The scan started by one rule for one finding, if any; the scope check may throw. */
  function ScanForFinding(e: Environment, aliases: Aliases, parent: Scan, finding: Finding,
                          rule: Rule): Option<seq<Scan>> {
    match IsInScope(e.libraries(aliases, finding), parent.cascades.scopeLimiter, parent.annotations)
    case None => None
    case Some(inScope) =>
      Some(if inScope && e.matches(rule, finding) then [GetCascadingScan(e, parent, finding, rule)] else [])
  }

  function ScansForFindings(e: Environment, aliases: Aliases, parent: Scan, findings: seq<Finding>,
                            rule: Rule): Option<seq<Scan>> {
    if findings == [] then Some([])
    else Concat(ScanForFinding(e, aliases, parent, findings[0], rule),
                ScansForFindings(e, aliases, parent, findings[1..], rule))
  }

  ghost predicate AddsScope(rule: Rule) {
    rule.scanAnnotations.Some? && exists k <- rule.scanAnnotations.value :: StartsWith(k, SCOPE_DOMAIN)
  }

  /** A rule already in the chain is skipped; one that sets a scope annotation is an error. */
  ghost function ScansForRule(e: Environment, aliases: Aliases, parent: Scan, findings: seq<Finding>, rule: Rule,
                              chain: seq<string>): Option<seq<Scan>> {
    if rule.name in chain then Some([])
    else if AddsScope(rule) then None
    else ScansForFindings(e, aliases, parent, findings, rule)
  }

  ghost function ScansForRules(e: Environment, aliases: Aliases, parent: Scan, findings: seq<Finding>,
                               rules: seq<Rule>, chain: seq<string>): Option<seq<Scan>> {
    if rules == [] then Some([])
    else Concat(ScansForRule(e, aliases, parent, findings, rules[0], chain),
                ScansForRules(e, aliases, parent, findings, rules[1..], chain))
  }

  method GetScansMatchingRule(e: Environment, aliases: Aliases, parent: Scan, findings: seq<Finding>, rule: Rule)
      returns (r: Option<seq<Scan>>)
    ensures r == ScansForFindings(e, aliases, parent, findings, rule)
  {
    var scans: seq<Scan> := [];
    assert findings[0..] == findings;
    ConcatUnit(ScansForFindings(e, aliases, parent, findings, rule));
    for i := 0 to |findings|
      invariant ScansForFindings(e, aliases, parent, findings, rule) ==
                Concat(Some(scans), ScansForFindings(e, aliases, parent, findings[i..], rule))
    {
      assert findings[i..][0] == findings[i] && findings[i..][1..] == findings[i + 1..];
      ConcatAssociates(Some(scans), ScanForFinding(e, aliases, parent, findings[i], rule),
                       ScansForFindings(e, aliases, parent, findings[i + 1..], rule));
      ConcatUnit(Some(scans));
      hide IsInScope, GetCascadingScan;
      var inScope := IsInScope(e.libraries(aliases, findings[i]), parent.cascades.scopeLimiter, parent.annotations);
      if inScope.None? { return None; }
      if inScope.value && e.matches(rule, findings[i]) {
        scans := scans + [GetCascadingScan(e, parent, findings[i], rule)];
      }
    }
    ConcatUnit(Some(scans));
    return Some(scans);
  }

  method HasScopeAnnotation(annotations: map<string, string>) returns (found: bool)
    ensures found <==> exists k <- annotations :: StartsWith(k, SCOPE_DOMAIN)
  {
    var keys := annotations.Keys;
    while keys != {}
      invariant keys <= annotations.Keys
      invariant forall k <- annotations :: k in keys || !StartsWith(k, SCOPE_DOMAIN)
      decreases keys
    {
      var k :| k in keys;
      if StartsWith(k, SCOPE_DOMAIN) { return true; }
      keys := keys - {k};
    }
    return false;
  }

  method GetCascadingScans(e: Environment, aliases: Aliases, parent: ScanObject, findings: seq<Finding>,
                           rules: seq<Rule>, used: Option<Rule>)
    returns (r: Option<seq<Scan>>)
    modifies parent
    ensures parent.scan == old(parent.scan).(settings := Purged(old(parent.scan).settings, used))
    ensures r == ScansForRules(e, aliases, parent.scan, findings, rules, GetScanChain(old(parent.scan).annotations))
  {
    hide ScansForFindings, GetScanChain, Purged;
    var scans: seq<Scan> := [];
    var chain := GetScanChain(parent.scan.annotations);
    parent.PurgeCascadedRuleFromScan(used);
    assert rules[0..] == rules;
    ConcatUnit(ScansForRules(e, aliases, parent.scan, findings, rules, chain));
    for i := 0 to |rules|
      modifies {}
      invariant ScansForRules(e, aliases, parent.scan, findings, rules, chain) ==
                Concat(Some(scans), ScansForRules(e, aliases, parent.scan, findings, rules[i..], chain))
    {
      var rule := rules[i];
      assert rules[i..][0] == rule && rules[i..][1..] == rules[i + 1..];
      ConcatAssociates(Some(scans), ScansForRule(e, aliases, parent.scan, findings, rule, chain),
                       ScansForRules(e, aliases, parent.scan, findings, rules[i + 1..], chain));
      ConcatUnit(Some(scans));
      if rule.name in chain { continue; }
      if rule.scanAnnotations.Some? {
        var adds := HasScopeAnnotation(rule.scanAnnotations.value);
        if adds { return None; }
      }
      var matching := GetScansMatchingRule(e, aliases, parent.scan, findings, rule);
      if matching.None? { return None; }
      scans := scans + matching.value;
    }
    ConcatUnit(Some(scans));
    return Some(scans);
  }
}
