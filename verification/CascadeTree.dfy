/** The whole tree of scans a cascade can start, for arbitrary findings, rule matches and scan names. */
module CascadeTree {
  import opened Options
  import opened Sequences
  import opened Text
  import opened ScopeLimiter
  import opened CascadingScans

  /** `aliases` are the scope limiter aliases of the parse definition for a scan's results; None when there is none.
      `selected` are the rules a scan's cascade selector finds, `catalog` all rules by name. Every scan of a cascade
      carries the same selector. `givenName` is the name the API gives to the i-th follow-up scan. */
  datatype Cluster = Cluster(
    environment: Environment,
    catalog: map<string, Rule>,
    selected: seq<Rule>,
    findings: Scan -> seq<Finding>,
    aliases: Scan -> Option<Aliases>,
    givenName: (Scan, nat) -> string)

  /** Rule names are Kubernetes names: not empty, without commas, and unique. */
  ghost predicate WellFormed(c: Cluster) {
    && (forall i, j :: 0 <= i < j < |c.selected| ==> c.selected[i].name != c.selected[j].name)
    && (forall r <- c.selected :: r.name != "" && ',' !in r.name && r.name in c.catalog && c.catalog[r.name] == r)
  }

  function Chain(scan: Scan): seq<string> { GetScanChain(scan.annotations) }

  /** The rule that started a scan; the inner None is a scan no rule started, the outer None a rule that is gone. */
  function UsedRule(c: Cluster, scan: Scan): Option<Option<Rule>> {
    var chain := Chain(scan);
    if chain == [] then Some(None)
    else if chain[|chain| - 1] in c.catalog then Some(Some(c.catalog[chain[|chain| - 1]]))
    else None
  }

  /** The aliases the hook uses for a scan. */
  function Aliased(c: Cluster, scan: Scan): Aliases { GetOr(c.aliases(scan), map[]) }

  /** The hook, run for one finished scan: it starts no scan when it throws or exits, as it does when the rule that
      started the scan or the parse definition of its results is gone. */
  ghost function Started(c: Cluster, scan: Scan): seq<Scan> {
    match UsedRule(c, scan)
    case None => []
    case Some(used) =>
      if c.aliases(scan).None? then [] else
      var parent := scan.(settings := Purged(scan.settings, used));
      GetOr(ScansForRules(c.environment, Aliased(c, scan), parent, c.findings(scan), c.selected, Chain(scan)), [])
  }

  /** The scans as created, the first of them being the `i`-th follow-up scan of `parent`. */
  function Named(c: Cluster, parent: Scan, scans: seq<Scan>, i: nat): (r: seq<Scan>)
    ensures |r| == |scans|
    decreases |scans|
  {
    if scans == [] then [] else [scans[0].(name := c.givenName(parent, i))] + Named(c, parent, scans[1..], i + 1)
  }

  ghost function Children(c: Cluster, scan: Scan): seq<Scan> { Named(c, scan, Started(c, scan), 0) }

  /** All follow-up scans of a list of scans. */
  ghost function NextGeneration(c: Cluster, scans: seq<Scan>): seq<Scan> {
    if scans == [] then [] else Children(c, scans[0]) + NextGeneration(c, scans[1..])
  }

  /** The scans exactly `depth` cascades below a scan. */
  ghost function Descendants(c: Cluster, scan: Scan, depth: nat): seq<Scan> {
    if depth == 0 then [scan] else NextGeneration(c, Descendants(c, scan, depth - 1))
  }

  // ---------------------------------------------------------------- one generation

  ghost predicate Triggers(e: Environment, aliases: Aliases, parent: Scan, finding: Finding, rule: Rule) {
    && IsInScope(e.libraries(aliases, finding), parent.cascades.scopeLimiter, parent.annotations) == Some(true)
    && e.matches(rule, finding)
  }

  ghost predicate StartedBy(e: Environment, aliases: Aliases, parent: Scan, findings: seq<Finding>, rule: Rule,
                            finding: Finding, child: Scan) {
    finding in findings && Triggers(e, aliases, parent, finding, rule) &&
        child == GetCascadingScan(e, parent, finding, rule)
  }

  lemma {:induction false} FindingsMeaning(e: Environment, aliases: Aliases, parent: Scan, findings: seq<Finding>,
                                           rule: Rule)
    requires ScansForFindings(e, aliases, parent, findings, rule).Some?
    ensures var scans := ScansForFindings(e, aliases, parent, findings, rule).value;
      && |scans| <= |findings|
      && (forall s <- scans :: exists f :: StartedBy(e, aliases, parent, findings, rule, f, s))
      && (forall f <- findings :: Triggers(e, aliases, parent, f, rule) ==>
          GetCascadingScan(e, parent, f, rule) in scans)
  {
    hide IsInScope, GetCascadingScan;
    if findings != [] {
      FindingsMeaning(e, aliases, parent, findings[1..], rule);
      var first, rest := ScanForFinding(e, aliases, parent, findings[0], rule).value,
          ScansForFindings(e, aliases, parent, findings[1..], rule).value;
      forall s | s in first + rest ensures exists f :: StartedBy(e, aliases, parent, findings, rule, f, s) {
        if s in first {
          assert StartedBy(e, aliases, parent, findings, rule, findings[0], s);
        } else {
          var f :| StartedBy(e, aliases, parent, findings[1..], rule, f, s);
          assert StartedBy(e, aliases, parent, findings, rule, f, s);
        }
      }
    }
  }

  /** The scans started are exactly one per rule and finding that trigger, for rules new to the chain. */
  lemma {:induction false} RulesMeaning(e: Environment, aliases: Aliases, parent: Scan, findings: seq<Finding>,
                                        rules: seq<Rule>, chain: seq<string>)
    requires ScansForRules(e, aliases, parent, findings, rules, chain).Some?
    ensures var scans := ScansForRules(e, aliases, parent, findings, rules, chain).value;
      && (forall s <- scans :: exists r, f ::
            r in rules && r.name !in chain && !AddsScope(r) && StartedBy(e, aliases, parent, findings, r, f, s))
      && (forall r <- rules, f <- findings ::
            r.name !in chain && Triggers(e, aliases, parent, f, r) ==> GetCascadingScan(e, parent, f, r) in scans)
  {
    hide GetCascadingScan, StartedBy, AddsScope, Triggers;
    if rules != [] {
      RulesMeaning(e, aliases, parent, findings, rules[1..], chain);
      var first, rest := ScansForRule(e, aliases, parent, findings, rules[0], chain).value,
          ScansForRules(e, aliases, parent, findings, rules[1..], chain).value;
      if rules[0].name !in chain { FindingsMeaning(e, aliases, parent, findings, rules[0]); }
      hide ScansForFindings;
      forall s | s in first + rest
        ensures exists r, f ::
                  r in rules && r.name !in chain && !AddsScope(r) && StartedBy(e, aliases, parent, findings, r, f, s)
      {
        if s in first {
          var f :| StartedBy(e, aliases, parent, findings, rules[0], f, s);
        } else {
          var r, f :| r in rules[1..] && r.name !in chain && !AddsScope(r) &&
              StartedBy(e, aliases, parent, findings, r, f, s);
          assert r in rules;
        }
      }
    }
  }

  /** The parent as the hook sees it, after purging. */
  ghost function PurgedScan(scan: Scan, used: Option<Rule>): Scan { scan.(settings := Purged(scan.settings, used)) }

  ghost predicate ChildVia(c: Cluster, scan: Scan, child: Scan, rule: Rule, finding: Finding, name: string) {
    && UsedRule(c, scan).Some?
    && rule in c.selected && rule.name !in Chain(scan) && !AddsScope(rule)
    && finding in c.findings(scan) && Triggers(c.environment, Aliased(c, scan), scan, finding, rule)
    && child == GetCascadingScan(c.environment, PurgedScan(scan, UsedRule(c, scan).value), finding, rule).(name := name)
  }

  lemma ChildHasRule(c: Cluster, scan: Scan, child: Scan)
    requires child in Children(c, scan)
    ensures exists rule, finding, name :: ChildVia(c, scan, child, rule, finding, name)
  {
    NamedMember(c, scan, Started(c, scan), 0, child);
    var s, name :| s in Started(c, scan) && child == s.(name := name);
    var parent := PurgedScan(scan, UsedRule(c, scan).value);
    RulesMeaning(c.environment, Aliased(c, scan), parent, c.findings(scan), c.selected, Chain(scan));
    var r, f :| r in c.selected && r.name !in Chain(scan) && !AddsScope(r) &&
        StartedBy(c.environment, Aliased(c, scan), parent, c.findings(scan), r, f, s);
    assert ChildVia(c, scan, child, r, f, name);
  }

  lemma {:induction false} NamedMember(c: Cluster, parent: Scan, scans: seq<Scan>, i: nat, child: Scan)
    requires child in Named(c, parent, scans, i)
    ensures exists s, name :: s in scans && child == s.(name := name)
    decreases |scans|
  {
    if child in Named(c, parent, scans[1..], i + 1) {
      NamedMember(c, parent, scans[1..], i + 1, child);
    } else {
      assert scans[0] in scans && child == scans[0].(name := c.givenName(parent, i));
    }
  }

  // ---------------------------------------------------------------- chain and scope of a child

  lemma {:induction false} JoinNotEmpty(items: seq<string>, last: string)
    requires last != ""
    ensures Join(items + [last], ",") != ""
  {
    if items == [] {
      assert items + [last] == [last];
    } else {
      assert (items + [last])[1..] == items[1..] + [last];
    }
  }

  lemma PlainKeys()
    ensures !StartsWith(CHAIN, SCOPE_DOMAIN) && !StartsWith(PARENT, SCOPE_DOMAIN)
    ensures !StartsWith(MATCHED_FINDING, SCOPE_DOMAIN) && !StartsWith(HOOK, SCOPE_DOMAIN)
  {
    assert SCOPE_DOMAIN[0] == 's' && CHAIN[0] == 'c' && PARENT[0] == 'c' && MATCHED_FINDING[0] == 'c';
    assert SCOPE_DOMAIN[1] == 'c' && HOOK[1] == 'e';
  }

  lemma ChainAnnotation(e: Environment, parent: Scan, finding: Finding, rule: Rule)
    ensures var annotations := GetCascadingScan(e, parent, finding, rule).annotations;
      CHAIN in annotations && annotations[CHAIN] == Join(Chain(parent) + [rule.name], ",")
  {
    PlainKeys();
    hide TemplateRule, MergeSettings, MergeInheritedMap, CascadingScanName, Split, Join;
  }

  /** The chain annotation of a follow-up scan parses back to its parent's chain and the rule. */
  lemma ChainGrows(e: Environment, parent: Scan, finding: Finding, rule: Rule)
    requires rule.name != "" && ',' !in rule.name
    ensures Chain(GetCascadingScan(e, parent, finding, rule)) == Chain(parent) + [rule.name]
  {
    ChainAnnotation(e, parent, finding, rule);
    hide GetCascadingScan;
    var chain := Chain(parent);
    if chain != [] { SplitIsClean(parent.annotations[CHAIN], ","); }
    WithoutCharIsClean(rule.name, ',');
    JoinNotEmpty(chain, rule.name);
    SplitJoin(chain + [rule.name], ",");
    hide Split, Join;
  }

  /** A follow-up scan has exactly its parent's scope annotations. */
  lemma ScopeIsKept(e: Environment, parent: Scan, finding: Finding, rule: Rule)
    requires !AddsScope(rule)
    ensures SameScope(GetCascadingScan(e, parent, finding, rule).annotations, parent.annotations)
  {
    PlainKeys();
  }

  // ---------------------------------------------------------------- main results

  /** The number of selected rules a chain has not used. */
  function Unused(rules: seq<Rule>, chain: seq<string>): nat {
    if rules == [] then 0 else (if rules[0].name in chain then 0 else 1) + Unused(rules[1..], chain)
  }

  ghost predicate Below(c: Cluster, scan: Scan, x: Scan, depth: nat) {
    && |Chain(x)| == |Chain(scan)| + depth && Chain(scan) <= Chain(x)
    && (forall n <- Chain(x)[|Chain(scan)|..] :: exists r <- c.selected :: r.name == n)
    && (NoDuplicates(Chain(scan)) ==> NoDuplicates(Chain(x)))
    && Unused(c.selected, Chain(x)) + depth == Unused(c.selected, Chain(scan))
    && SameScope(x.annotations, scan.annotations)
    && x.cascades == scan.cascades
  }

  /** Every scan of a cascade: its chain extends the root's by one new selected rule per level, without repetition,
      and its scope annotations are the root's. */
  lemma {:induction false} DescendantsExtendTheChain(c: Cluster, scan: Scan, depth: nat, x: Scan)
    requires WellFormed(c) && x in Descendants(c, scan, depth)
    ensures Below(c, scan, x, depth)
    decreases depth
  {
    hide Below, WellFormed, Children;
    if depth == 0 {
      BelowSelf(c, scan);
    } else {
      HasParent(c, Descendants(c, scan, depth - 1), x);
      var parent :| parent in Descendants(c, scan, depth - 1) && x in Children(c, parent);
      DescendantsExtendTheChain(c, scan, depth - 1, parent);
      ChildIsBelow(c, parent, x);
      BelowComposes(c, scan, parent, x, depth - 1);
    }
  }

  /** A cascade is no deeper than the number of rules its root has not used; in particular it is finite. */
  lemma CascadesAreFinite(c: Cluster, scan: Scan, depth: nat)
    requires WellFormed(c) && depth > Unused(c.selected, Chain(scan))
    ensures Descendants(c, scan, depth) == []
  {
    if |Descendants(c, scan, depth)| > 0 {
      var x := Descendants(c, scan, depth)[0];
      DescendantsExtendTheChain(c, scan, depth, x);
      assert false;
    }
  }

  function Power(base: nat, exponent: nat): nat { if exponent == 0 then 1 else Power(base, exponent - 1) * base }

  /** The k-th factor of n * (n - 1) * ... */
  function Left(n: nat, k: nat): nat { if n >= k - 1 then n - k + 1 else 0 }

  /** n * (n - 1) * ... * (n - k + 1), and 0 for k > n. */
  function Falling(n: nat, k: nat): nat { if k == 0 then 1 else Falling(n, k - 1) * Left(n, k) }

  /** With at most F findings per scan there are at most F^d * R * (R-1) * ... * (R-d+1) scans at depth d. */
  lemma {:induction false} CascadesAreBounded(c: Cluster, scan: Scan, depth: nat, maxFindings: nat)
    requires WellFormed(c) && forall s :: |c.findings(s)| <= maxFindings
    ensures |Descendants(c, scan, depth)| <= Power(maxFindings, depth) * Falling(Unused(c.selected, Chain(scan)), depth)
    decreases depth
  {
    hide *;
    if depth == 0 {
      RootIsBounded(c, scan, maxFindings);
    } else {
      CascadesAreBounded(c, scan, depth - 1, maxFindings);
      ParentsAreBounded(c, scan, depth - 1, maxFindings);
      var u, parents := Unused(c.selected, Chain(scan)), Descendants(c, scan, depth - 1);
      GenerationBound(c, parents, maxFindings * Left(u, depth));
      ProductBound(|parents|, maxFindings, u, depth);
      DescendantsNext(c, scan, depth);
    }
  }

  lemma RootIsBounded(c: Cluster, scan: Scan, maxFindings: nat)
    ensures |Descendants(c, scan, 0)| <= Power(maxFindings, 0) * Falling(Unused(c.selected, Chain(scan)), 0)
  {}

  lemma DescendantsNext(c: Cluster, scan: Scan, depth: nat)
    requires depth > 0
    ensures Descendants(c, scan, depth) == NextGeneration(c, Descendants(c, scan, depth - 1))
  {}

  /** A scan at some depth starts at most so many scans for each of the rules its chain has left. */
  lemma ParentsAreBounded(c: Cluster, scan: Scan, depth: nat, maxFindings: nat)
    requires WellFormed(c) && forall s :: |c.findings(s)| <= maxFindings
    ensures forall p <- Descendants(c, scan, depth) ::
              |Children(c, p)| <= maxFindings * Left(Unused(c.selected, Chain(scan)), depth + 1)
  {
    hide WellFormed, Children, Chain, Unused, Below, Descendants;
    forall p | p in Descendants(c, scan, depth)
      ensures |Children(c, p)| <= maxFindings * Left(Unused(c.selected, Chain(scan)), depth + 1)
    {
      DescendantsExtendTheChain(c, scan, depth, p);
      UnusedBelow(c, scan, p, depth);
      ChildrenAreBounded(c, p, maxFindings);
    }
  }

  /** Whatever rules were applied on the way, the scope limiter decides for a descendant exactly as for the root, given
      the same libraries, that is the same finding and the same aliases. */
  lemma ScopeNeverWidens(c: Cluster, scan: Scan, depth: nat, x: Scan, lib: Libraries)
    requires WellFormed(c) && x in Descendants(c, scan, depth)
    ensures IsInScope(lib, x.cascades.scopeLimiter, x.annotations) ==
            IsInScope(lib, scan.cascades.scopeLimiter, scan.annotations)
  {
    DescendantsExtendTheChain(c, scan, depth, x);
    ScopeDecidesAlone(lib, x.cascades.scopeLimiter, x.annotations, scan.annotations);
  }

  // ---------------------------------------------------------------- steps of the induction

  lemma {:induction false} HasParent(c: Cluster, scans: seq<Scan>, x: Scan)
    requires x in NextGeneration(c, scans)
    ensures exists parent :: parent in scans && x in Children(c, parent)
  {
    if x in Children(c, scans[0]) {
      assert scans[0] in scans;
    } else {
      HasParent(c, scans[1..], x);
    }
  }

  lemma {:induction false} UnusedNext(rules: seq<Rule>, chain: seq<string>, rule: Rule)
    requires forall i, j :: 0 <= i < j < |rules| ==> rules[i].name != rules[j].name
    requires rule.name !in chain
    ensures Unused(rules, chain + [rule.name]) ==
            Unused(rules, chain) - (if exists r <- rules :: r.name == rule.name then 1 else 0)
  {
    if rules != [] {
      UnusedNext(rules[1..], chain, rule);
      assert forall r :: r in rules <==> r == rules[0] || r in rules[1..];
      if rules[0].name == rule.name {
        forall r | r in rules[1..] ensures r.name != rule.name {
          var j :| 0 <= j < |rules[1..]| && rules[1..][j] == r;
          assert rules[j + 1] == r;
        }
      }
    }
  }

  lemma ChildIsBelow(c: Cluster, scan: Scan, child: Scan)
    requires WellFormed(c) && child in Children(c, scan)
    ensures Below(c, scan, child, 1)
  {
    ChildHasRule(c, scan, child);
    var rule, finding, name :| ChildVia(c, scan, child, rule, finding, name);
    var parent := PurgedScan(scan, UsedRule(c, scan).value);
    ChainGrows(c.environment, parent, finding, rule);
    ScopeIsKept(c.environment, parent, finding, rule);
    hide Below, GetScanChain, SameScope, AddsScope, Triggers, TemplateRule, MergeSettings, Purged, Children;
    NewRuleIsBelow(c, scan, child, rule);
  }

  lemma NewRuleIsBelow(c: Cluster, scan: Scan, child: Scan, rule: Rule)
    requires WellFormed(c) && rule in c.selected && rule.name !in Chain(scan)
    requires Chain(child) == Chain(scan) + [rule.name]
    requires SameScope(child.annotations, scan.annotations) && child.cascades == scan.cascades
    ensures Below(c, scan, child, 1)
  {
    hide GetScanChain, SameScope;
    UnusedNext(c.selected, Chain(scan), rule);
    hide Unused;
    assert Chain(child)[|Chain(scan)|..] == [rule.name];
  }

  lemma BelowSelf(c: Cluster, scan: Scan)
    ensures Below(c, scan, scan, 0)
  {
    hide GetScanChain, Unused;
    assert Chain(scan)[|Chain(scan)|..] == [];
  }

  lemma BelowComposes(c: Cluster, scan: Scan, parent: Scan, x: Scan, depth: nat)
    requires Below(c, scan, parent, depth) && Below(c, parent, x, 1)
    ensures Below(c, scan, x, depth + 1)
  {
    hide Unused, GetScanChain;
    var s, m, e := Chain(scan), Chain(parent), Chain(x);
    assert m == s + m[|s|..];
    assert e == m + e[|m|..];
    forall n | n in e[|s|..] ensures exists r <- c.selected :: r.name == n {
      assert e[|s|..] == m[|s|..] + e[|m|..];
      assert n in m[|s|..] || n in e[|m|..];
    }
  }

  lemma UnusedBelow(c: Cluster, scan: Scan, x: Scan, depth: nat)
    requires Below(c, scan, x, depth)
    ensures Unused(c.selected, Chain(x)) + depth == Unused(c.selected, Chain(scan))
  {
    hide GetScanChain, Unused;
  }

  lemma {:induction false} GenerationBound(c: Cluster, scans: seq<Scan>, k: nat)
    requires forall p <- scans :: |Children(c, p)| <= k
    ensures |NextGeneration(c, scans)| <= |scans| * k
  {
    hide Children;
    if scans != [] {
      assert scans[0] in scans;
      GenerationBound(c, scans[1..], k);
      OneMore(|scans[1..]|, k);
    }
  }

  lemma ProductBound(n: nat, maxFindings: nat, u: nat, k: nat)
    requires k > 0 && n <= Power(maxFindings, k - 1) * Falling(u, k - 1)
    ensures n * (maxFindings * Left(u, k)) <= Power(maxFindings, k) * Falling(u, k)
  {
    var p, q, r := Power(maxFindings, k - 1), Falling(u, k - 1), Left(u, k);
    assert Power(maxFindings, k) == p * maxFindings && Falling(u, k) == q * r;
    hide Power, Falling, Left;
    Multiply(n, p * q, maxFindings * r);
    Rearrange(p, q, maxFindings, r);
  }

  lemma Rearrange(p: nat, q: nat, maxFindings: nat, r: nat)
    ensures p * q * (maxFindings * r) == (p * maxFindings) * (q * r)
  {}

  lemma Multiply(a: nat, b: nat, k: nat)
    requires a <= b
    ensures a * k <= b * k
  {}

  lemma OneMore(n: nat, k: nat)
    ensures (n + 1) * k == n * k + k && k * (n + 1) == k * n + k
  {}

  lemma {:induction false} RulesAreBounded(e: Environment, aliases: Aliases, parent: Scan, findings: seq<Finding>,
                                           rules: seq<Rule>, chain: seq<string>, maxFindings: nat)
    requires |findings| <= maxFindings
    requires ScansForRules(e, aliases, parent, findings, rules, chain).Some?
    ensures |ScansForRules(e, aliases, parent, findings, rules, chain).value| <= maxFindings * Unused(rules, chain)
  {
    hide *;
    if rules == [] {
      NoRules(e, aliases, parent, findings, chain);
    } else {
      RulesNext(e, aliases, parent, findings, rules, chain);
      RulesAreBounded(e, aliases, parent, findings, rules[1..], chain, maxFindings);
      if rules[0].name !in chain { FindingsMeaning(e, aliases, parent, findings, rules[0]); }
      OneMore(Unused(rules[1..], chain), maxFindings);
    }
  }

  lemma NoRules(e: Environment, aliases: Aliases, parent: Scan, findings: seq<Finding>, chain: seq<string>)
    ensures ScansForRules(e, aliases, parent, findings, [], chain) == Some([]) && Unused([], chain) == 0
  {}

  lemma RulesNext(e: Environment, aliases: Aliases, parent: Scan, findings: seq<Finding>, rules: seq<Rule>,
                  chain: seq<string>)
    requires rules != [] && ScansForRules(e, aliases, parent, findings, rules, chain).Some?
    ensures var all, rest := ScansForRules(e, aliases, parent, findings, rules, chain),
                             ScansForRules(e, aliases, parent, findings, rules[1..], chain);
            var first := ScansForFindings(e, aliases, parent, findings, rules[0]);
      && rest.Some?
      && (rules[0].name in chain ==> all == rest && Unused(rules, chain) == Unused(rules[1..], chain))
      && (rules[0].name !in chain ==>
            && first.Some? && |all.value| == |first.value| + |rest.value|
            && Unused(rules, chain) == Unused(rules[1..], chain) + 1)
  {
    hide ScansForFindings, AddsScope;
    ConcatUnit(ScansForRules(e, aliases, parent, findings, rules[1..], chain));
  }

  lemma ChildrenAreBounded(c: Cluster, scan: Scan, maxFindings: nat)
    requires |c.findings(scan)| <= maxFindings
    ensures |Children(c, scan)| <= maxFindings * Unused(c.selected, Chain(scan))
  {
    if UsedRule(c, scan).Some? {
      var parent := PurgedScan(scan, UsedRule(c, scan).value);
      if ScansForRules(c.environment, Aliased(c, scan), parent, c.findings(scan), c.selected, Chain(scan)).Some? {
        RulesAreBounded(c.environment, Aliased(c, scan), parent, c.findings(scan), c.selected, Chain(scan),
                        maxFindings);
      }
    }
  }
}
