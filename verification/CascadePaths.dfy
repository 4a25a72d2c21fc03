/** The way from the root of a cascade down to one of its scans: which rules and findings led there. */
module CascadePaths {
  import opened Options
  import opened CascadingScans
  import opened CascadeTree

  /** One cascade: the rule and finding that started the scan, and the name it was given. */
  datatype Step = Step(rule: Rule, finding: Finding, name: string)

  /** scans[0] was started by `used`, each next scan by the step before it. */
  datatype Path = Path(environment: Environment, used: Option<Rule>, scans: seq<Scan>, steps: seq<Step>)

  function Rules(steps: seq<Step>): (r: seq<Rule>)
    ensures |r| == |steps| && forall k :: 0 <= k < |steps| ==> r[k] == steps[k].rule
  {
    if steps == [] then [] else Rules(steps[..|steps| - 1]) + [steps[|steps| - 1].rule]
  }

  function Names(rules: seq<Rule>): (r: seq<string>)
    ensures |r| == |rules| && forall k :: 0 <= k < |rules| ==> r[k] == rules[k].name
  {
    if rules == [] then [] else Names(rules[..|rules| - 1]) + [rules[|rules| - 1].name]
  }

  /** The rule that started the k-th scan. */
  function UsedAt(used: Option<Rule>, rules: seq<Rule>, k: nat): Option<Rule>
    requires k <= |rules|
  {
    if k == 0 then used else Some(rules[k - 1])
  }

  /** The k-th scan as the hook sees it when it starts the next one. */
  ghost function Parent(p: Path, k: nat): Scan
    requires k <= |p.steps| < |p.scans|
  {
    PurgedScan(p.scans[k], UsedAt(p.used, Rules(p.steps), k))
  }

  ghost predicate IsPath(p: Path) {
    && |p.scans| == |p.steps| + 1
    && forall k :: 0 <= k < |p.steps| ==>
         p.scans[k + 1] ==
         GetCascadingScan(p.environment, Parent(p, k), p.steps[k].finding, p.steps[k].rule).(name := p.steps[k].name)
  }

  /** The steps of a cascade apply selected rules, each at most once. */
  ghost predicate FreshRules(c: Cluster, steps: seq<Step>) {
    && (forall k :: 0 <= k < |steps| ==> steps[k].rule in c.selected)
    && (forall i, k :: 0 <= i < k < |steps| ==> steps[i].rule.name != steps[k].rule.name)
  }

  /** The path leads from `scan` to `x`, and the chain annotation of `x` names its rules, in order. */
  ghost predicate Reaches(c: Cluster, scan: Scan, x: Scan, p: Path) {
    && p.environment == c.environment && UsedRule(c, scan) == Some(p.used)
    && IsPath(p) && p.scans[0] == scan && p.scans[|p.steps|] == x
    && FreshRules(c, p.steps) && Chain(x) == Chain(scan) + Names(Rules(p.steps))
    && UsedRule(c, x) == Some(UsedAt(p.used, Rules(p.steps), |p.steps|))
  }

  /** Every scan of a cascade is reached by such a path, so what is proved about paths holds for the whole tree. */
  lemma {:induction false} DescendantHasPath(c: Cluster, scan: Scan, depth: nat, x: Scan)
    requires WellFormed(c) && UsedRule(c, scan).Some? && x in Descendants(c, scan, depth)
    ensures exists p: Path :: |p.steps| == depth && Reaches(c, scan, x, p)
    decreases depth
  {
    hide WellFormed, Reaches, NextGeneration, Children, UsedRule;
    if depth == 0 {
      PathSelf(c, scan);
      assert |Path(c.environment, UsedRule(c, scan).value, [scan], []).steps| == 0;
    } else {
      HasParent(c, Descendants(c, scan, depth - 1), x);
      var parent :| parent in Descendants(c, scan, depth - 1) && x in Children(c, parent);
      DescendantHasPath(c, scan, depth - 1, parent);
      var p: Path :| |p.steps| == depth - 1 && Reaches(c, scan, parent, p);
      var step := PathGrows(c, scan, parent, p, x);
      assert |Extended(p, step, x).steps| == depth;
    }
  }

  function Extended(p: Path, step: Step, x: Scan): Path { p.(scans := p.scans + [x], steps := p.steps + [step]) }

  lemma PathSelf(c: Cluster, scan: Scan)
    requires UsedRule(c, scan).Some?
    ensures Reaches(c, scan, scan, Path(c.environment, UsedRule(c, scan).value, [scan], []))
  {
    hide Chain;
    assert Chain(scan) + [] == Chain(scan);
  }

  lemma PathGrows(c: Cluster, scan: Scan, parent: Scan, p: Path, x: Scan) returns (step: Step)
    requires WellFormed(c) && Reaches(c, scan, parent, p) && x in Children(c, parent)
    ensures Reaches(c, scan, x, Extended(p, step, x))
  {
    hide Reaches, WellFormed, Children;
    ChildHasRule(c, parent, x);
    var rule, finding, name :| ChildVia(c, parent, x, rule, finding, name);
    step := Step(rule, finding, name);
    ChildUsed(c, parent, x, step);
    hide *;
    ExtendedReaches(c, scan, parent, p, step, x);
  }

  /** What a follow-up scan owes to its parent and to the step that started it. */
  ghost predicate Follows(c: Cluster, parent: Scan, x: Scan, step: Step) {
    && UsedRule(c, parent).Some? && step.rule in c.selected && step.rule.name !in Chain(parent)
    && x == GetCascadingScan(c.environment, PurgedScan(parent, UsedRule(c, parent).value), step.finding,
                             step.rule).(name := step.name)
    && Chain(x) == Chain(parent) + [step.rule.name] && UsedRule(c, x) == Some(Some(step.rule))
  }

  lemma ChildUsed(c: Cluster, parent: Scan, x: Scan, step: Step)
    requires WellFormed(c) && ChildVia(c, parent, x, step.rule, step.finding, step.name)
    ensures Follows(c, parent, x, step)
  {
    ChainGrows(c.environment, PurgedScan(parent, UsedRule(c, parent).value), step.finding, step.rule);
    hide GetCascadingScan, GetScanChain, Triggers, AddsScope;
    assert Chain(PurgedScan(parent, UsedRule(c, parent).value)) == Chain(parent);
  }

  lemma ExtendedReaches(c: Cluster, scan: Scan, parent: Scan, p: Path, step: Step, x: Scan)
    requires Reaches(c, scan, parent, p) && Follows(c, parent, x, step)
    ensures Reaches(c, scan, x, Extended(p, step, x))
  {
    hide Chain, UsedRule, GetCascadingScan, PurgedScan, FreshRules, IsPath, Rules, Names;
    PathLength(p);
    RulesNext(p.steps, step);
    NewRuleIsFresh(c, p.steps, step, Chain(scan));
    PathExtends(p, step, x);
    assert Chain(scan) + Names(Rules(p.steps)) + [step.rule.name] ==
           Chain(scan) + (Names(Rules(p.steps)) + [step.rule.name]);
  }

  lemma RulesNext(steps: seq<Step>, step: Step)
    ensures Rules(steps + [step]) == Rules(steps) + [step.rule]
    ensures Names(Rules(steps + [step])) == Names(Rules(steps)) + [step.rule.name]
  {}

  lemma PathLength(p: Path)
    requires IsPath(p)
    ensures |p.scans| == |p.steps| + 1
  {}

  lemma NewRuleIsFresh(c: Cluster, steps: seq<Step>, step: Step, before: seq<string>)
    requires FreshRules(c, steps) && step.rule in c.selected && step.rule.name !in before + Names(Rules(steps))
    ensures FreshRules(c, steps + [step])
  {
    var names := Names(Rules(steps));
    forall k | 0 <= k < |steps| ensures steps[k].rule.name != step.rule.name { assert names[k] in before + names; }
  }

  lemma PathExtends(p: Path, step: Step, x: Scan)
    requires IsPath(p)
    requires x == GetCascadingScan(p.environment, Parent(p, |p.steps|), step.finding, step.rule).(name := step.name)
    ensures IsPath(Extended(p, step, x))
  {
    hide GetCascadingScan, PurgedScan;
    var q := Extended(p, step, x);
    forall k | 0 <= k < |q.steps| ensures Parent(q, k) == Parent(p, k) {}
  }

  lemma {:induction false} FlagsAreKept(p: Path, k: nat)
    requires IsPath(p) && k <= |p.steps|
    ensures p.scans[k].cascades == p.scans[0].cascades
  {
    hide GetCascadingScan, PurgedScan;
    if k > 0 {
      FlagsAreKept(p, k - 1);
      var parent := Parent(p, k - 1);
      assert p.scans[k - 1 + 1].cascades ==
             GetCascadingScan(p.environment, parent, p.steps[k - 1].finding, p.steps[k - 1].rule).cascades;
      FlagsOfChild(p.environment, p.scans[k - 1], UsedAt(p.used, Rules(p.steps), k - 1), p.steps[k - 1]);
    }
  }

  lemma FlagsOfChild(e: Environment, parent: Scan, used: Option<Rule>, step: Step)
    ensures GetCascadingScan(e, PurgedScan(parent, used), step.finding, step.rule).cascades == parent.cascades
  {}

  lemma ReachedByPath(c: Cluster, scan: Scan, x: Scan, p: Path)
    requires Reaches(c, scan, x, p)
    ensures p.environment == c.environment && UsedRule(c, scan) == Some(p.used)
    ensures IsPath(p) && |p.scans| == |p.steps| + 1 && p.scans[0] == scan && p.scans[|p.steps|] == x
    ensures FreshRules(c, p.steps) && Chain(x) == Chain(scan) + Names(Rules(p.steps))
  {
    hide Chain, UsedRule;
  }

  /** Two paths of one cascade with the same chain of rule names follow the same rules. */
  lemma ChainNamesRules(c: Cluster, steps: seq<Step>, other: seq<Step>)
    requires WellFormed(c) && FreshRules(c, steps) && FreshRules(c, other) && Names(Rules(steps)) == Names(Rules(other))
    ensures Rules(steps) == Rules(other)
  {
    forall k | 0 <= k < |steps| ensures steps[k].rule == other[k].rule {
      assert Names(Rules(steps))[k] == Names(Rules(other))[k];
      var i :| 0 <= i < |c.selected| && c.selected[i] == steps[k].rule;
      var j :| 0 <= j < |c.selected| && c.selected[j] == other[k].rule;
    }
  }

  lemma SameTail(a: seq<string>, b: seq<string>, c: seq<string>)
    requires a + b == a + c
    ensures b == c
  {
    assert (a + b)[|a|..] == b && (a + c)[|a|..] == c;
  }
}
