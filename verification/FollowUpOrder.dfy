/** Exactly which follow-up scans the hook starts, in which order, and when it starts none. */
module FollowUpOrder {
  import opened Options
  import opened Text
  import opened ScopeLimiter
  import opened CascadingScans
  import opened CascadeTree

  /** What one run of the hook looks at. */
  datatype Batch = Batch(environment: Environment, aliases: Aliases, parent: Scan, findings: seq<Finding>,
                         rules: seq<Rule>, chain: seq<string>)

  /** The rule is new to the chain, and the finding is in scope and matches it. */
  ghost predicate TriggersAt(b: Batch, r: nat, f: nat)
    requires r < |b.rules| && f < |b.findings|
  {
    && b.rules[r].name !in b.chain && b.environment.matches(b.rules[r], b.findings[f])
    && IsInScope(b.environment.libraries(b.aliases, b.findings[f]), b.parent.cascades.scopeLimiter,
                 b.parent.annotations) == Some(true)
  }

  /** The scan stands for the pair of rule and finding. */
  ghost predicate StandsFor(b: Batch, pair: (nat, nat), scan: Scan) {
    && pair.0 < |b.rules| && pair.1 < |b.findings| && TriggersAt(b, pair.0, pair.1)
    && scan == GetCascadingScan(b.environment, b.parent, b.findings[pair.1], b.rules[pair.0])
  }

  predicate Earlier(a: (nat, nat), b: (nat, nat)) { a.0 < b.0 || (a.0 == b.0 && a.1 < b.1) }

  /** The scans stand for these pairs, one each, rule by rule and for each rule finding by finding. */
  ghost predicate InOrder(b: Batch, pairs: seq<(nat, nat)>, scans: seq<Scan>) {
    && |scans| == |pairs| && (forall i :: 0 <= i < |pairs| ==> StandsFor(b, pairs[i], scans[i]))
    && forall i, k :: 0 <= i < k < |pairs| ==> Earlier(pairs[i], pairs[k])
  }

  /** ... and no pair that triggers is missing. */
  ghost predicate Lists(b: Batch, pairs: seq<(nat, nat)>, scans: seq<Scan>) {
    && InOrder(b, pairs, scans)
    && forall r: nat, f: nat :: r < |b.rules| && f < |b.findings| && TriggersAt(b, r, f) ==> (r, f) in pairs
  }

  /** The rule makes the hook fail: it is new and sets a scope annotation, or deciding the scope of a finding for it
      throws. */
  ghost predicate Fails(b: Batch, rule: Rule) {
    rule.name !in b.chain &&
    ((rule.scanAnnotations.Some? &&
      exists k <- rule.scanAnnotations.value :: "scope.cascading.securecodebox.io/" <= k) ||
     exists f <- b.findings ::
       IsInScope(b.environment.libraries(b.aliases, f), b.parent.cascades.scopeLimiter, b.parent.annotations) == None)
  }

  ghost function All(b: Batch): Option<seq<Scan>> {
    ScansForRules(b.environment, b.aliases, b.parent, b.findings, b.rules, b.chain)
  }

  // ---------------------------------------------------------------- when the hook fails

  lemma {:induction false} FindingsFail(e: Environment, aliases: Aliases, parent: Scan, findings: seq<Finding>,
                                        rule: Rule)
    ensures ScansForFindings(e, aliases, parent, findings, rule).None? <==> exists f <- findings ::
              IsInScope(e.libraries(aliases, f), parent.cascades.scopeLimiter, parent.annotations) == None
  {
    hide IsInScope, GetCascadingScan;
    if findings != [] {
      FindingsFail(e, aliases, parent, findings[1..], rule);
      assert findings[0] in findings && forall f :: f in findings <==> f == findings[0] || f in findings[1..];
    }
  }

  /** The hook throws exactly if one of the rules makes it fail. */
  lemma {:induction false} FailsExactly(b: Batch)
    ensures All(b).None? <==> exists r <- b.rules :: Fails(b, r)
    decreases |b.rules|
  {
    if b.rules != [] {
      FailsExactly(b.(rules := b.rules[1..]));
      FindingsFail(b.environment, b.aliases, b.parent, b.findings, b.rules[0]);
      ScopeIsAdded(b.rules[0]);
      hide ScansForFindings, IsInScope, AddsScope;
      assert b.rules[0] in b.rules && forall r :: r in b.rules <==> r == b.rules[0] || r in b.rules[1..];
      forall r ensures Fails(b, r) <==> Fails(b.(rules := b.rules[1..]), r) {}
    }
  }

  lemma ScopeIsAdded(rule: Rule)
    ensures AddsScope(rule) <==>
            rule.scanAnnotations.Some? &&
                exists k <- rule.scanAnnotations.value :: "scope.cascading.securecodebox.io/" <= k
  {}

  // ---------------------------------------------------------------- which scans are started

  lemma InOrderConcat(b: Batch, pairs: seq<(nat, nat)>, scans: seq<Scan>, more: seq<(nat, nat)>, others: seq<Scan>)
    requires InOrder(b, pairs, scans) && InOrder(b, more, others)
    requires forall x <- pairs, y <- more :: Earlier(x, y)
    ensures InOrder(b, pairs + more, scans + others)
  {
    hide StandsFor, Earlier;
    forall i, k | 0 <= i < k < |pairs + more| ensures Earlier((pairs + more)[i], (pairs + more)[k]) {
      if i < |pairs| <= k { assert pairs[i] in pairs && more[k - |pairs|] in more; }
    }
  }

  /** One rule, from the f-th finding on. */
  lemma {:induction false} FindingsFrom(b: Batch, r: nat, f: nat) returns (pairs: seq<(nat, nat)>)
    requires r < |b.rules| && f <= |b.findings| && b.rules[r].name !in b.chain
    requires ScansForFindings(b.environment, b.aliases, b.parent, b.findings[f..], b.rules[r]).Some?
    ensures InOrder(b, pairs, ScansForFindings(b.environment, b.aliases, b.parent, b.findings[f..], b.rules[r]).value)
    ensures forall x <- pairs :: x.0 == r && f <= x.1
    ensures forall k: nat :: f <= k < |b.findings| && TriggersAt(b, r, k) ==> (r, k) in pairs
    decreases |b.findings| - f
  {
    hide IsInScope, GetCascadingScan;
    if f == |b.findings| {
      pairs := [];
    } else {
      var rest := FindingsFrom(b, r, f + 1);
      assert b.findings[f..][0] == b.findings[f] && b.findings[f..][1..] == b.findings[f + 1..];
      var scans := ScanForFinding(b.environment, b.aliases, b.parent, b.findings[f], b.rules[r]).value;
      var first: seq<(nat, nat)> := if TriggersAt(b, r, f) then [(r, f)] else [];
      assert InOrder(b, first, scans);
      var others := ScansForFindings(b.environment, b.aliases, b.parent, b.findings[f + 1..], b.rules[r]).value;
      assert ScansForFindings(b.environment, b.aliases, b.parent, b.findings[f..], b.rules[r]) == Some(scans + others);
      hide ScansForFindings, ScanForFinding, InOrder, TriggersAt;
      InOrderConcat(b, first, scans, rest, others);
      pairs := first + rest;
    }
  }

  /** The rules from the r-th on. */
  lemma {:induction false} RulesFrom(b: Batch, r: nat) returns (pairs: seq<(nat, nat)>)
    requires r <= |b.rules|
    requires ScansForRules(b.environment, b.aliases, b.parent, b.findings, b.rules[r..], b.chain).Some?
    ensures InOrder(b, pairs,
                    ScansForRules(b.environment, b.aliases, b.parent, b.findings, b.rules[r..], b.chain).value)
    ensures forall x <- pairs :: r <= x.0
    ensures forall q: nat, f: nat :: r <= q < |b.rules| && f < |b.findings| && TriggersAt(b, q, f) ==> (q, f) in pairs
    decreases |b.rules| - r
  {
    hide ScansForFindings, IsInScope, GetCascadingScan, AddsScope;
    if r == |b.rules| {
      pairs := [];
    } else {
      var rule := b.rules[r];
      assert b.rules[r..][0] == rule && b.rules[r..][1..] == b.rules[r + 1..];
      var rest := RulesFrom(b, r + 1);
      var others := ScansForRules(b.environment, b.aliases, b.parent, b.findings, b.rules[r + 1..], b.chain).value;
      var scans := ScansForRule(b.environment, b.aliases, b.parent, b.findings, rule, b.chain).value;
      assert ScansForRules(b.environment, b.aliases, b.parent, b.findings, b.rules[r..], b.chain) ==
             Some(scans + others);
      var first: seq<(nat, nat)> := [];
      if rule.name !in b.chain {
        assert b.findings[0..] == b.findings;
        first := FindingsFrom(b, r, 0);
      }
      assert InOrder(b, first, scans);
      assert rule.name in b.chain ==> forall f: nat :: f < |b.findings| ==> !TriggersAt(b, r, f);
      hide ScansForRules, ScansForRule, InOrder, TriggersAt;
      InOrderConcat(b, first, scans, rest, others);
      pairs := first + rest;
    }
  }

  /** Unless it fails, the hook starts one scan for each pair of a new rule and a finding that triggers it, rule by rule
      and for each rule finding by finding, and no other. */
  lemma StartsInOrder(b: Batch)
    requires All(b).Some?
    ensures exists pairs :: Lists(b, pairs, All(b).value)
  {
    assert b.rules[0..] == b.rules;
    var pairs := RulesFrom(b, 0);
    assert Lists(b, pairs, All(b).value);
  }

  // ---------------------------------------------------------------- the follow-up scans of a scan

  /** What the hook looks at for a scan of the cluster. */
  ghost function BatchOf(c: Cluster, scan: Scan, used: Option<Rule>, aliases: Aliases): Batch {
    Batch(c.environment, aliases, PurgedScan(scan, used), c.findings(scan), c.selected, Chain(scan))
  }

  ghost predicate NamedInOrder(c: Cluster, parent: Scan, scans: seq<Scan>, named: seq<Scan>) {
    |named| == |scans| && forall i :: 0 <= i < |scans| ==> named[i] == scans[i].(name := c.givenName(parent, i))
  }

  /** No scan is started when the rule that started the scan is gone, when there is no parse definition for its results,
      or when a rule makes the hook fail; otherwise exactly the scans of the pairs that trigger, in order, each with the
      name the API gives it. */
  lemma FollowUpsAreExact(c: Cluster, scan: Scan)
    ensures UsedRule(c, scan).None? || c.aliases(scan).None? ==> Children(c, scan) == []
    ensures UsedRule(c, scan).Some? && c.aliases(scan).Some? ==>
              var b := BatchOf(c, scan, UsedRule(c, scan).value, c.aliases(scan).value);
              if exists r <- c.selected :: Fails(b, r) then Children(c, scan) == []
              else exists pairs, scans :: Lists(b, pairs, scans) && NamedInOrder(c, scan, scans, Children(c, scan))
  {
    hide *;
    if UsedRule(c, scan).Some? && c.aliases(scan).Some? {
      var b := BatchOf(c, scan, UsedRule(c, scan).value, c.aliases(scan).value);
      ChildrenOfBatch(c, scan, b);
      FailsExactly(b);
      BatchRules(c, scan, UsedRule(c, scan).value, c.aliases(scan).value);
      if All(b).Some? {
        StartsInOrder(b);
        var pairs :| Lists(b, pairs, All(b).value);
      }
    } else {
      NothingStarts(c, scan);
    }
  }

  lemma BatchRules(c: Cluster, scan: Scan, used: Option<Rule>, aliases: Aliases)
    ensures BatchOf(c, scan, used, aliases).rules == c.selected
  {}

  lemma NothingStarts(c: Cluster, scan: Scan)
    requires UsedRule(c, scan).None? || c.aliases(scan).None?
    ensures Children(c, scan) == []
  {}

  lemma ChildrenOfBatch(c: Cluster, scan: Scan, b: Batch)
    requires UsedRule(c, scan).Some? && c.aliases(scan).Some?
    requires b == BatchOf(c, scan, UsedRule(c, scan).value, c.aliases(scan).value)
    ensures All(b).None? ==> Children(c, scan) == []
    ensures All(b).Some? ==> NamedInOrder(c, scan, All(b).value, Children(c, scan))
  {
    hide ScansForRules, UsedRule, Chain, Purged;
    if All(b).Some? { NamesGiven(c, scan, All(b).value, 0); }
  }

  lemma {:induction false} NamesGiven(c: Cluster, parent: Scan, scans: seq<Scan>, i: nat)
    ensures forall k :: 0 <= k < |scans| ==>
              Named(c, parent, scans, i)[k] == scans[k].(name := c.givenName(parent, i + k))
    decreases |scans|
  {
    if scans != [] { NamesGiven(c, parent, scans[1..], i + 1); }
  }
}
