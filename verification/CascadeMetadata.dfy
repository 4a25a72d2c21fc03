/** The labels and annotations of the scans of a cascade, in terms of the root and of the rules on the way. */
module CascadeMetadata {
  import opened Options
  import opened Text
  import opened ScopeLimiter
  import opened CascadingScans
  import opened CascadeTree
  import opened CascadePaths

  function RuleLabels(r: Rule): map<string, string> { GetOr(r.scanLabels, map[]) }
  function RuleAnnotations(r: Rule): map<string, string> { GetOr(r.scanAnnotations, map[]) }

  predicate InheritsLabels(f: Inheritance) { f.inheritLabels != Some(false) }
  predicate InheritsAnnotations(f: Inheritance) { f.inheritAnnotations != Some(false) }

  function Lookup(m: map<string, string>, key: string): Option<string> { if key in m then Some(m[key]) else None }

  /** The annotations that are neither the hook's own nor those of the scope. */
  predicate Ordinary(key: string) {
    key !in {HOOK, PARENT, MATCHED_FINDING, CHAIN} && !StartsWith(key, SCOPE_DOMAIN)
  }

  // ---------------------------------------------------------------- the nearest rule

  /** The last of the first n rules that sets the key. */
  function LastSetter(sets: Rule -> map<string, string>, rules: seq<Rule>, key: string, n: nat): (r: Option<nat>)
    requires n <= |rules|
    ensures r.Some? ==> r.value < n && key in sets(rules[r.value])
  {
    if n == 0 then None
    else if key in sets(rules[n - 1]) then Some(n - 1)
    else LastSetter(sets, rules, key, n - 1)
  }

  lemma {:induction false} LastSetterMeaning(sets: Rule -> map<string, string>, rules: seq<Rule>, key: string, n: nat)
    requires n <= |rules|
    ensures match LastSetter(sets, rules, key, n)
      case None => forall k :: 0 <= k < n ==> key !in sets(rules[k])
      case Some(last) => last < n && key in sets(rules[last]) && forall k :: last < k < n ==> key !in sets(rules[k])
  {
    if n > 0 { LastSetterMeaning(sets, rules, key, n - 1); }
  }

  /** What templating makes of a key that the k-th rule sets. */
  ghost function RenderedAt(sets: Rule -> map<string, string>, p: Path, key: string, k: nat): string
    requires k < |p.steps| < |p.scans| && key in sets(p.steps[k].rule)
  {
    p.environment.render(Parent(p, k), p.steps[k].finding, sets(p.steps[k].rule)[key])
  }

  /** The value of a key: that of the nearest rule above the n-th scan that sets it, its own included, else the
      root's. Where the map is not inherited, only the own rule counts. */
  ghost function Nearest(sets: Rule -> map<string, string>, inherit: bool, root: map<string, string>, p: Path,
                         key: string, n: nat): Option<string>
    requires n <= |p.steps| < |p.scans|
  {
    match LastSetter(sets, Rules(p.steps), key, n)
    case Some(k) => if inherit || k == n - 1 then Some(RenderedAt(sets, p, key, k)) else None
    case None => if inherit || n == 0 then Lookup(root, key) else None
  }

  // ---------------------------------------------------------------- one step

  /** The annotations that the hook adds to those it merged. */
  function WithOrigin(merged: map<string, string>, parent: string, finding: string, chain: string,
                      annotations: map<string, string>): map<string, string>
  {
    merged + map[HOOK := "cascading-scans", PARENT := parent, MATCHED_FINDING := finding, CHAIN := chain] +
    ScopeOf(annotations)
  }

  ghost function MergedAnnotations(p: Path, k: nat): map<string, string>
    requires k < |p.steps| < |p.scans|
  {
    MergeInheritedMap(
      p.scans[k].annotations,
      Some(TemplateMap(p.environment, Parent(p, k), p.steps[k].finding, p.steps[k].rule.scanAnnotations)),
      p.scans[0].cascades.inheritAnnotations)
  }

  lemma MetadataStep(p: Path, k: nat)
    requires IsPath(p) && k < |p.steps| < |p.scans|
    ensures p.scans[k + 1].labels == MergeInheritedMap(
              p.scans[k].labels,
              Some(TemplateMap(p.environment, Parent(p, k), p.steps[k].finding, p.steps[k].rule.scanLabels)),
              p.scans[0].cascades.inheritLabels)
    ensures p.scans[k + 1].annotations ==
            WithOrigin(MergedAnnotations(p, k), p.scans[k].name, p.steps[k].finding.id,
                       Join(GetScanChain(p.scans[k].annotations) + [p.steps[k].rule.name], ","),
                       p.scans[k].annotations)
  {
    FlagsAreKept(p, k);
    hide MergeSettings, MergeInheritedMap, TemplateMap, CascadingScanName, GetScanChain, ScopeOf, TemplateStrings,
        TemplateEnv, TemplateContainers;
  }

  lemma MergedKey(e: Environment, scan: Scan, finding: Finding, parent: map<string, string>,
                  rule: Option<map<string, string>>, inherit: Option<bool>, key: string)
    ensures var own := GetOr(rule, map[]);
      Lookup(MergeInheritedMap(parent, Some(TemplateMap(e, scan, finding, rule)), inherit), key) ==
      if key in own then Some(e.render(scan, finding, own[key]))
      else if inherit != Some(false) then Lookup(parent, key) else None
  {}

  /** One step hands the key on. */
  ghost predicate HandsOn(sets: Rule -> map<string, string>, inherit: bool, before: map<string, string>,
                          after: map<string, string>, p: Path, key: string, k: nat)
    requires k < |p.steps| < |p.scans|
  {
    Lookup(after, key) ==
    if key in sets(p.steps[k].rule) then Some(RenderedAt(sets, p, key, k))
    else if inherit then Lookup(before, key) else None
  }

  lemma LabelStep(p: Path, k: nat, key: string)
    requires IsPath(p) && k < |p.steps| < |p.scans|
    ensures HandsOn(RuleLabels, InheritsLabels(p.scans[0].cascades), p.scans[k].labels, p.scans[k + 1].labels, p,
                    key, k)
  {
    MetadataStep(p, k);
    MergedKey(p.environment, Parent(p, k), p.steps[k].finding, p.scans[k].labels, p.steps[k].rule.scanLabels,
              p.scans[0].cascades.inheritLabels, key);
    hide IsPath, MergeInheritedMap, TemplateMap, Rules, Parent, Lookup;
  }

  lemma AnnotationStep(p: Path, k: nat, key: string)
    requires IsPath(p) && k < |p.steps| < |p.scans| && Ordinary(key)
    ensures HandsOn(RuleAnnotations, InheritsAnnotations(p.scans[0].cascades), p.scans[k].annotations,
                    p.scans[k + 1].annotations, p, key, k)
  {
    MetadataStep(p, k);
    MergedKey(p.environment, Parent(p, k), p.steps[k].finding, p.scans[k].annotations,
              p.steps[k].rule.scanAnnotations, p.scans[0].cascades.inheritAnnotations, key);
    var chain := Join(GetScanChain(p.scans[k].annotations) + [p.steps[k].rule.name], ",");
    OrdinaryIsKept(MergedAnnotations(p, k), p.scans[k].name, p.steps[k].finding.id, chain, p.scans[k].annotations, key);
    hide IsPath, MergeInheritedMap, TemplateMap, Rules, Parent, Lookup, GetScanChain, Join, Ordinary, WithOrigin;
  }

  lemma OrdinaryIsKept(merged: map<string, string>, parent: string, finding: string, chain: string,
                       annotations: map<string, string>, key: string)
    requires Ordinary(key)
    ensures Lookup(WithOrigin(merged, parent, finding, chain, annotations), key) == Lookup(merged, key)
  {}

  /** The annotations name the hook, the parent scan and the finding. */
  ghost predicate Origin(annotations: map<string, string>, parent: string, finding: string) {
    && Lookup(annotations, HOOK) == Some("cascading-scans") && Lookup(annotations, PARENT) == Some(parent)
    && Lookup(annotations, MATCHED_FINDING) == Some(finding)
  }

  lemma OriginIsKept(merged: map<string, string>, parent: string, finding: string, chain: string,
                     annotations: map<string, string>)
    ensures Origin(WithOrigin(merged, parent, finding, chain, annotations), parent, finding)
  {
    assert |HOOK| < |CHAIN| < |PARENT| < |MATCHED_FINDING|;
    assert HOOK[1] != SCOPE_DOMAIN[1] && PARENT[0] != SCOPE_DOMAIN[0] && MATCHED_FINDING[0] != SCOPE_DOMAIN[0];
  }

  // ---------------------------------------------------------------- along a path

  lemma NearestNext(sets: Rule -> map<string, string>, inherit: bool, root: map<string, string>,
                    before: map<string, string>, after: map<string, string>, p: Path, key: string, k: nat)
    requires k < |p.steps| < |p.scans| && HandsOn(sets, inherit, before, after, p, key, k)
    requires inherit ==> Lookup(before, key) == Nearest(sets, inherit, root, p, key, k)
    ensures Lookup(after, key) == Nearest(sets, inherit, root, p, key, k + 1)
  {
    hide RenderedAt, Lookup;
  }

  lemma NearestIsRoots(sets: Rule -> map<string, string>, inherit: bool, root: map<string, string>, p: Path,
                       key: string)
    requires |p.steps| < |p.scans|
    ensures Lookup(root, key) == Nearest(sets, inherit, root, p, key, 0)
  {}

  /** A scan has the label value of the nearest rule above it that sets the label, itself included, else its root's. */
  lemma {:induction false} LabelsAlongPath(p: Path, n: nat, key: string)
    requires IsPath(p) && n <= |p.steps| < |p.scans|
    ensures Lookup(p.scans[n].labels, key) ==
            Nearest(RuleLabels, InheritsLabels(p.scans[0].cascades), p.scans[0].labels, p, key, n)
  {
    hide *;
    var inherit, root := InheritsLabels(p.scans[0].cascades), p.scans[0].labels;
    if n == 0 {
      NearestIsRoots(RuleLabels, inherit, root, p, key);
    } else {
      LabelsAlongPath(p, n - 1, key);
      LabelStep(p, n - 1, key);
      NearestNext(RuleLabels, inherit, root, p.scans[n - 1].labels, p.scans[n].labels, p, key, n - 1);
    }
  }

  /** The same for every annotation that is neither the hook's own nor a scope annotation. */
  lemma {:induction false} AnnotationsAlongPath(p: Path, n: nat, key: string)
    requires IsPath(p) && n <= |p.steps| < |p.scans| && Ordinary(key)
    ensures Lookup(p.scans[n].annotations, key) ==
            Nearest(RuleAnnotations, InheritsAnnotations(p.scans[0].cascades), p.scans[0].annotations, p, key, n)
  {
    hide *;
    var inherit, root := InheritsAnnotations(p.scans[0].cascades), p.scans[0].annotations;
    if n == 0 {
      NearestIsRoots(RuleAnnotations, inherit, root, p, key);
    } else {
      AnnotationsAlongPath(p, n - 1, key);
      AnnotationStep(p, n - 1, key);
      NearestNext(RuleAnnotations, inherit, root, p.scans[n - 1].annotations, p.scans[n].annotations, p, key, n - 1);
    }
  }

  // ---------------------------------------------------------------- all scans of a cascade

  ghost predicate LabelsFollow(p: Path)
    requires |p.steps| < |p.scans|
  {
    var n, inherit, root := |p.steps|, InheritsLabels(p.scans[0].cascades), p.scans[0].labels;
    forall key :: Lookup(p.scans[n].labels, key) == Nearest(RuleLabels, inherit, root, p, key, n)
  }

  ghost predicate AnnotationsFollow(p: Path)
    requires |p.steps| < |p.scans|
  {
    var n, inherit, root := |p.steps|, InheritsAnnotations(p.scans[0].cascades), p.scans[0].annotations;
    forall key :: Ordinary(key) ==>
      Lookup(p.scans[n].annotations, key) == Nearest(RuleAnnotations, inherit, root, p, key, n)
  }

  lemma OriginOfLast(p: Path)
    requires IsPath(p) && 0 < |p.steps| < |p.scans|
    ensures Origin(p.scans[|p.steps|].annotations, p.scans[|p.steps| - 1].name, p.steps[|p.steps| - 1].finding.id)
  {
    hide *;
    var k := |p.steps| - 1;
    MetadataStep(p, k);
    OriginIsKept(MergedAnnotations(p, k), p.scans[k].name, p.steps[k].finding.id,
                 Join(GetScanChain(p.scans[k].annotations) + [p.steps[k].rule.name], ","), p.scans[k].annotations);
  }

  lemma LabelsOfLast(p: Path)
    requires IsPath(p) && |p.steps| < |p.scans|
    ensures LabelsFollow(p)
  {
    hide IsPath, Nearest, Lookup, InheritsLabels, RuleLabels;
    forall key ensures Lookup(p.scans[|p.steps|].labels, key) ==
      Nearest(RuleLabels, InheritsLabels(p.scans[0].cascades), p.scans[0].labels, p, key, |p.steps|)
    {
      LabelsAlongPath(p, |p.steps|, key);
    }
  }

  lemma AnnotationsOfLast(p: Path)
    requires IsPath(p) && |p.steps| < |p.scans|
    ensures AnnotationsFollow(p)
  {
    hide IsPath, Nearest, Lookup, Ordinary, InheritsAnnotations, RuleAnnotations;
    forall key | Ordinary(key) ensures Lookup(p.scans[|p.steps|].annotations, key) ==
      Nearest(RuleAnnotations, InheritsAnnotations(p.scans[0].cascades), p.scans[0].annotations, p, key, |p.steps|)
    {
      AnnotationsAlongPath(p, |p.steps|, key);
    }
  }

  /** Every scan of a cascade has the labels and annotations that its root and the steps on its way determine. */
  lemma MetadataOfDescendants(c: Cluster, scan: Scan, depth: nat, x: Scan)
    requires WellFormed(c) && UsedRule(c, scan).Some? && depth > 0 && x in Descendants(c, scan, depth)
    ensures exists p: Path ::
              |p.steps| == depth && Reaches(c, scan, x, p) && |p.scans| == depth + 1 && LabelsFollow(p) &&
              AnnotationsFollow(p) && Origin(x.annotations, p.scans[depth - 1].name, p.steps[depth - 1].finding.id)
  {
    hide *;
    DescendantHasPath(c, scan, depth, x);
    var p: Path :| |p.steps| == depth && Reaches(c, scan, x, p);
    ReachedByPath(c, scan, x, p);
    LabelsOfLast(p);
    AnnotationsOfLast(p);
    OriginOfLast(p);
  }

  // ---------------------------------------------------------------- the chain determines the labels

  /** Templating leaves the labels of the rule alone, whatever the scan and the finding. */
  ghost predicate LiteralLabels(e: Environment, rule: Rule) {
    forall scan, finding, key :: key in RuleLabels(rule) ==>
      e.render(scan, finding, RuleLabels(rule)[key]) == RuleLabels(rule)[key]
  }

  /** Two scans of a cascade with the same chain annotation have the same label keys, whatever findings started them;
      with rules whose labels have no templates, the same labels. */
  lemma ChainDeterminesLabels(c: Cluster, scan: Scan, depth: nat, x: Scan, otherDepth: nat, y: Scan)
    requires WellFormed(c) && UsedRule(c, scan).Some? && Chain(x) == Chain(y)
    requires x in Descendants(c, scan, depth) && y in Descendants(c, scan, otherDepth)
    ensures x.labels.Keys == y.labels.Keys
    ensures (forall r <- c.selected :: LiteralLabels(c.environment, r)) ==> x.labels == y.labels
  {
    hide *;
    DescendantHasPath(c, scan, depth, x);
    var p: Path :| |p.steps| == depth && Reaches(c, scan, x, p);
    DescendantHasPath(c, scan, otherDepth, y);
    var q: Path :| |q.steps| == otherDepth && Reaches(c, scan, y, q);
    ReachedByPath(c, scan, x, p);
    ReachedByPath(c, scan, y, q);
    SameTail(Chain(scan), Names(Rules(p.steps)), Names(Rules(q.steps)));
    ChainNamesRules(c, p.steps, q.steps);
    forall key ensures Lookup(x.labels, key).Some? <==> Lookup(y.labels, key).Some?
      ensures (forall r <- c.selected :: LiteralLabels(c.environment, r)) ==>
                Lookup(x.labels, key) == Lookup(y.labels, key)
    {
      LabelsAlongPath(p, |p.steps|, key);
      LabelsAlongPath(q, |q.steps|, key);
      SameRulesSameLabel(c, p, q, key);
    }
    SameLookups(x.labels, y.labels);
  }

  lemma SameLookups(a: map<string, string>, b: map<string, string>)
    requires forall key :: Lookup(a, key).Some? <==> Lookup(b, key).Some?
    ensures a.Keys == b.Keys
    ensures (forall key :: Lookup(a, key) == Lookup(b, key)) ==> a == b
  {
    forall key ensures key in a <==> key in b { assert Lookup(a, key).Some? <==> Lookup(b, key).Some?; }
    if forall key :: Lookup(a, key) == Lookup(b, key) {
      forall key | key in a ensures a[key] == b[key] { assert Lookup(a, key) == Lookup(b, key); }
    }
  }

  lemma SameRulesSameLabel(c: Cluster, p: Path, q: Path, key: string)
    requires IsPath(p) && IsPath(q) && FreshRules(c, p.steps) && FreshRules(c, q.steps)
    requires Rules(p.steps) == Rules(q.steps) && |p.steps| < |p.scans| && |q.steps| < |q.scans|
    requires p.scans[0] == q.scans[0] && p.environment == q.environment == c.environment
    ensures var inherit, root := InheritsLabels(p.scans[0].cascades), p.scans[0].labels;
            var a, b :=
            Nearest(RuleLabels, inherit, root, p, key, |p.steps|),
                Nearest(RuleLabels, inherit, root, q, key, |q.steps|);
      && (a.Some? <==> b.Some?)
      && ((forall r <- c.selected :: LiteralLabels(c.environment, r)) ==> a == b)
  {
    hide IsPath, InheritsLabels, Parent, RuleLabels;
    assert |p.steps| == |q.steps|;
    var k := LastSetter(RuleLabels, Rules(p.steps), key, |p.steps|);
    if k.Some? {
      assert p.steps[k.value].rule == q.steps[k.value].rule && p.steps[k.value].rule in c.selected;
    }
  }
}
