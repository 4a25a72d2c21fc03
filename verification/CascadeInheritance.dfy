/** How lists of settings are handed down a cascade: closed forms along any path of follow-up scans.
    `entries` picks a list out of a scan's or a rule's settings. */
module CascadeInheritance {
  import opened Options
  import opened CascadingScans
  import opened CascadePaths

  /** What the rule that started the k-th scan declares, before templating. */
  function Declared<T>(entries: Settings -> seq<T>, used: Option<Rule>, rules: seq<Rule>, k: nat): seq<T>
    requires k <= |rules|
  {
    match UsedAt(used, rules, k) case None => [] case Some(rule) => entries(rule.settings)
  }

  /** What the rules that started the first n scans declare. */
  function DeclaredBefore<T>(entries: Settings -> seq<T>, used: Option<Rule>, rules: seq<Rule>, n: nat): seq<T>
    requires n <= |rules| + 1
  {
    if n == 0 then [] else DeclaredBefore(entries, used, rules, n - 1) + Declared(entries, used, rules, n - 1)
  }

  /** The same for the k-th scan of a path. */
  function DeclaredAt<T>(entries: Settings -> seq<T>, p: Path, k: nat): seq<T>
    requires k <= |p.steps|
  {
    Declared(entries, p.used, Rules(p.steps), k)
  }

  /** What the k-th step adds, after templating. */
  ghost function Rendered<T>(entries: Settings -> seq<T>, p: Path, k: nat): seq<T>
    requires k < |p.steps| < |p.scans|
  {
    entries(TemplateRule(p.environment, Parent(p, k), p.steps[k].finding, p.steps[k].rule).settings)
  }

  /** The entries that earlier steps added and that no rule declares literally afterwards. */
  ghost function Leaked<T>(entries: Settings -> seq<T>, p: Path, n: nat): seq<T>
    requires 0 < n <= |p.steps| < |p.scans|
  {
    if n == 1 then []
    else Without(Leaked(entries, p, n - 1) + Rendered(entries, p, n - 2), DeclaredAt(entries, p, n - 1))
  }

  /** One step: the parent's entries without those of its rule if they are inherited, then the new rule's. */
  ghost predicate Inherits<T>(entries: Settings -> seq<T>, inherit: bool, p: Path, k: nat)
    requires k < |p.steps| && |p.scans| == |p.steps| + 1
  {
    entries(p.scans[k + 1].settings) ==
    (if inherit then Without(entries(p.scans[k].settings), DeclaredAt(entries, p, k)) else []) + Rendered(entries, p, k)
  }

  ghost predicate InheritsAlong<T>(entries: Settings -> seq<T>, inherit: bool, p: Path) {
    |p.scans| == |p.steps| + 1 && forall k :: 0 <= k < |p.steps| ==> Inherits(entries, inherit, p, k)
  }

  // ---------------------------------------------------------------- lists without some entries

  lemma {:induction false} WithoutMember<T>(items: seq<T>, removed: seq<T>, x: T)
    ensures x in Without(items, removed) <==> x in items && x !in removed
  {
    if items != [] {
      WithoutMember(items[1..], removed, x);
      assert x in items <==> x == items[0] || x in items[1..];
    }
  }

  lemma WithoutHead<T>(items: seq<T>, removed: seq<T>)
    requires items != []
    ensures Without(items, removed) == (if items[0] in removed then [] else [items[0]]) + Without(items[1..], removed)
  {}

  lemma {:induction false} WithoutAppend<T>(a: seq<T>, b: seq<T>, removed: seq<T>)
    ensures Without(a + b, removed) == Without(a, removed) + Without(b, removed)
  {
    hide Without;
    if a == [] {
      WithoutNone<T>(removed);
      assert a + b == b && [] + Without(b, removed) == Without(b, removed);
    } else {
      WithoutAppend(a[1..], b, removed);
      WithoutHead(a, removed);
      WithoutHead(a + b, removed);
      assert (a + b)[1..] == a[1..] + b && (a + b)[0] == a[0];
      Associates(if a[0] in removed then [] else [a[0]], Without(a[1..], removed), Without(b, removed));
    }
  }

  lemma WithoutNone<T>(removed: seq<T>)
    ensures Without([], removed) == []
  {}

  lemma Associates<T>(a: seq<T>, b: seq<T>, c: seq<T>)
    ensures a + (b + c) == a + b + c
  {}

  lemma {:induction false} WithoutTwice<T>(items: seq<T>, a: seq<T>, b: seq<T>)
    ensures Without(Without(items, a), b) == Without(items, a + b)
  {
    if items != [] {
      WithoutTwice(items[1..], a, b);
      var head: seq<T> := if items[0] in a then [] else [items[0]];
      WithoutAppend(head, Without(items[1..], a), b);
      assert items[0] in a + b <==> items[0] in a || items[0] in b;
    }
  }

  lemma {:induction false} WithoutNothing<T>(items: seq<T>)
    ensures Without(items, []) == items
  {
    if items != [] { WithoutNothing(items[1..]); }
  }

  lemma PurgeOnceMore<T>(root: seq<T>, before: seq<T>, declared: seq<T>, leaked: seq<T>, added: seq<T>)
    ensures Without(Without(root, before) + leaked + added, declared) ==
            Without(root, before + declared) + Without(leaked + added, declared)
  {
    hide Without;
    WithoutTwice(root, before, declared);
    WithoutAppend(Without(root, before), leaked + added, declared);
    Associates(Without(root, before), leaked, added);
  }

  // ---------------------------------------------------------------- the closed form

  /** The root's entries that no rule up to the parent's declares, in order, then what leaked, then what the scan's own
      rule adds; only the last if nothing is inherited. */
  ghost function ClosedForm<T>(entries: Settings -> seq<T>, inherit: bool, p: Path, n: nat): seq<T>
    requires 0 < n <= |p.steps| < |p.scans|
  {
    (if inherit
     then Without(entries(p.scans[0].settings), DeclaredBefore(entries, p.used, Rules(p.steps), n)) +
         Leaked(entries, p, n)
     else []) + Rendered(entries, p, n - 1)
  }

  lemma {:induction false} EntriesAlongPath<T>(entries: Settings -> seq<T>, inherit: bool, p: Path, n: nat)
    requires InheritsAlong(entries, inherit, p) && 0 < n <= |p.steps|
    ensures entries(p.scans[n].settings) == ClosedForm(entries, inherit, p, n)
  {
    hide Without, Leaked, DeclaredBefore, Rendered, DeclaredAt;
    assert Inherits(entries, inherit, p, n - 1);
    hide InheritsAlong;
    if inherit {
      var root, before := entries(p.scans[0].settings), DeclaredBefore(entries, p.used, Rules(p.steps), n - 1);
      DeclaredNext(entries, p, n);
      LeakedNext(entries, p, n);
      if n == 1 {
        assert Without(root, DeclaredAt(entries, p, 0)) + [] == Without(root, DeclaredAt(entries, p, 0));
      } else {
        EntriesAlongPath(entries, inherit, p, n - 1);
        PurgeOnceMore(root, before, DeclaredAt(entries, p, n - 1), Leaked(entries, p, n - 1),
                      Rendered(entries, p, n - 2));
      }
    }
  }

  lemma DeclaredNext<T>(entries: Settings -> seq<T>, p: Path, n: nat)
    requires 0 < n <= |p.steps| + 1
    ensures DeclaredBefore(entries, p.used, Rules(p.steps), n) ==
            DeclaredBefore(entries, p.used, Rules(p.steps), n - 1) + DeclaredAt(entries, p, n - 1)
    ensures n == 1 ==> DeclaredBefore(entries, p.used, Rules(p.steps), n) == DeclaredAt(entries, p, 0)
  {
    hide Declared;
    assert [] + DeclaredAt(entries, p, 0) == DeclaredAt(entries, p, 0);
  }

  lemma LeakedNext<T>(entries: Settings -> seq<T>, p: Path, n: nat)
    requires 0 < n <= |p.steps| < |p.scans|
    ensures Leaked(entries, p, n) ==
            if n == 1 then []
            else Without(Leaked(entries, p, n - 1) + Rendered(entries, p, n - 2), DeclaredAt(entries, p, n - 1))
  {}

  // ---------------------------------------------------------------- what leaks

  /** The i-th step added x, and no rule from its own to the parent's declares x literally. */
  ghost predicate LeaksFrom<T>(entries: Settings -> seq<T>, p: Path, n: nat, x: T, i: nat)
    requires n <= |p.steps| < |p.scans| && i < n
  {
    x in Rendered(entries, p, i) && forall j :: i < j < n ==> x !in DeclaredAt(entries, p, j)
  }

  /** An entry leaks exactly when it leaks from some earlier step. */
  lemma {:induction false} LeakedMeaning<T>(entries: Settings -> seq<T>, p: Path, n: nat, x: T)
    requires 0 < n <= |p.steps| < |p.scans|
    ensures x in Leaked(entries, p, n) <==> exists i :: 0 <= i < n - 1 && LeaksFrom(entries, p, n, x, i)
  {
    hide Rendered, DeclaredAt, Without, LeaksFrom, Leaked;
    LeakedNext(entries, p, n);
    if n > 1 {
      var leaked, added := Leaked(entries, p, n - 1), Rendered(entries, p, n - 2);
      LeakedMeaning(entries, p, n - 1, x);
      WithoutMember(leaked + added, DeclaredAt(entries, p, n - 1), x);
      forall i | 0 <= i < n - 1
        ensures LeaksFrom(entries, p, n, x, i) <==>
                (if i < n - 2 then LeaksFrom(entries, p, n - 1, x, i) else x in added) &&
                    x !in DeclaredAt(entries, p, n - 1)
      {
        LeaksFurther(entries, p, n, x, i);
      }
      if x in Leaked(entries, p, n) {
        var i: nat := if x in added then n - 2 else
          var i: nat :| i < n - 2 && LeaksFrom(entries, p, n - 1, x, i); i;
        assert LeaksFrom(entries, p, n, x, i);
      }
    }
  }

  lemma LeaksFurther<T>(entries: Settings -> seq<T>, p: Path, n: nat, x: T, i: nat)
    requires n <= |p.steps| < |p.scans| && i < n - 1
    ensures LeaksFrom(entries, p, n, x, i) <==>
            (if i < n - 2 then LeaksFrom(entries, p, n - 1, x, i) else x in Rendered(entries, p, n - 2)) &&
            x !in DeclaredAt(entries, p, n - 1)
  {
    hide Rendered, DeclaredAt;
  }

  /** Each step adds only what its rule, or a rule applied between it and the n-th scan, declares literally. */
  ghost predicate DeclaredLater<T(!new)>(entries: Settings -> seq<T>, p: Path, n: nat)
    requires n <= |p.steps| < |p.scans|
  {
    forall i, x :: 0 <= i < n - 1 && x in Rendered(entries, p, i) ==>
        exists j :: i < j < n && x in DeclaredAt(entries, p, j)
  }

  lemma NothingLeaks<T(!new)>(entries: Settings -> seq<T>, p: Path, n: nat)
    requires 0 < n <= |p.steps| < |p.scans|
    ensures Leaked(entries, p, n) == [] <==> DeclaredLater(entries, p, n)
  {
    hide Rendered, DeclaredAt, Leaked;
    var leaked := Leaked(entries, p, n);
    if leaked != [] {
      var x := leaked[0];
      LeakedMeaning(entries, p, n, x);
      var i: nat :| i < n - 1 && LeaksFrom(entries, p, n, x, i);
    }
    if !DeclaredLater(entries, p, n) {
      var i, x :|
        0 <= i < n - 1 && x in Rendered(entries, p, i) && !exists j :: i < j < n && x in DeclaredAt(entries, p, j);
      LeakedMeaning(entries, p, n, x);
      assert LeaksFrom(entries, p, n, x, i);
    }
  }

  /** The documented inheritance, a rule's entries reach the scan it starts and no further, holds if and only if
      nothing rendered escapes the literal comparison of the purge. */
  lemma RuleStopsAtItsScan<T(!new)>(entries: Settings -> seq<T>, p: Path, n: nat)
    requires InheritsAlong(entries, true, p) && 0 < n <= |p.steps|
    ensures entries(p.scans[n].settings) ==
            Without(entries(p.scans[0].settings), DeclaredBefore(entries, p.used, Rules(p.steps), n)) +
                Rendered(entries, p, n - 1)
            <==> DeclaredLater(entries, p, n)
  {
    hide Rendered, DeclaredAt, Leaked, Without, DeclaredBefore, DeclaredLater;
    EntriesAlongPath(entries, true, p, n);
    NothingLeaks(entries, p, n);
  }

  // ---------------------------------------------------------------- rules that templating leaves alone

  ghost predicate AddsLiterally<T>(entries: Settings -> seq<T>, p: Path, k: nat)
    requires k < |p.steps| < |p.scans|
  {
    Rendered(entries, p, k) == entries(p.steps[k].rule.settings)
  }

  /** The closed form in terms of the root and the rules alone. */
  ghost function LiteralForm<T>(entries: Settings -> seq<T>, inherit: bool, root: Settings, used: Option<Rule>,
                                rules: seq<Rule>): seq<T>
    requires rules != []
  {
    (if inherit then Without(entries(root), DeclaredBefore(entries, used, rules, |rules|)) else []) +
    entries(rules[|rules| - 1].settings)
  }

  /** Rules whose entries templating leaves alone reach exactly the scans they start. */
  lemma LiteralRulesStopAtTheirScan<T(!new)>(entries: Settings -> seq<T>, inherit: bool, p: Path)
    requires InheritsAlong(entries, inherit, p) && p.steps != []
    requires forall k :: 0 <= k < |p.steps| ==> AddsLiterally(entries, p, k)
    ensures entries(p.scans[|p.steps|].settings) ==
            LiteralForm(entries, inherit, p.scans[0].settings, p.used, Rules(p.steps))
  {
    var n := |p.steps|;
    LiteralAt(entries, p, n - 1);
    if inherit { LiteralsAreDeclared(entries, p, n); }
    hide Rendered, DeclaredAt, Without, DeclaredBefore, InheritsAlong, Leaked, DeclaredLater, AddsLiterally, Rules;
    EntriesAlongPath(entries, inherit, p, n);
    if inherit {
      NothingLeaks(entries, p, n);
      var kept := Without(entries(p.scans[0].settings), DeclaredBefore(entries, p.used, Rules(p.steps), n));
      assert kept + [] == kept;
    }
  }

  lemma LiteralAt<T>(entries: Settings -> seq<T>, p: Path, k: nat)
    requires k < |p.steps| < |p.scans| && AddsLiterally(entries, p, k)
    ensures |Rules(p.steps)| == |p.steps| && Rendered(entries, p, k) == entries(Rules(p.steps)[k].settings)
    ensures Rendered(entries, p, k) == DeclaredAt(entries, p, k + 1)
  {
    hide Rendered;
  }

  lemma LiteralsAreDeclared<T(!new)>(entries: Settings -> seq<T>, p: Path, n: nat)
    requires n <= |p.steps| < |p.scans| && forall k :: 0 <= k < |p.steps| ==> AddsLiterally(entries, p, k)
    ensures DeclaredLater(entries, p, n)
  {
    hide Rendered, DeclaredAt, AddsLiterally;
    forall i, x | 0 <= i < n - 1 && x in Rendered(entries, p, i)
      ensures exists j :: i < j < n && x in DeclaredAt(entries, p, j)
    {
      LiteralAt(entries, p, i);
      assert x in DeclaredAt(entries, p, i + 1);
    }
  }

  // ---------------------------------------------------------------- lists that are never purged

  /** What the first n steps add, after templating. */
  ghost function AddedBefore<T>(entries: Settings -> seq<T>, p: Path, n: nat): seq<T>
    requires n <= |p.steps| < |p.scans|
  {
    if n == 0 then [] else AddedBefore(entries, p, n - 1) + Rendered(entries, p, n - 1)
  }

  /** One step without purging. */
  ghost predicate Accumulates<T>(entries: Settings -> seq<T>, inherit: bool, p: Path, k: nat)
    requires k < |p.steps| && |p.scans| == |p.steps| + 1
  {
    entries(p.scans[k + 1].settings) == (if inherit then entries(p.scans[k].settings) else []) + Rendered(entries, p, k)
  }

  /** Everything added on the way piles up on top of the root's entries. */
  ghost function Pile<T>(entries: Settings -> seq<T>, inherit: bool, p: Path, n: nat): seq<T>
    requires 0 < n <= |p.steps| < |p.scans|
  {
    if inherit then entries(p.scans[0].settings) + AddedBefore(entries, p, n) else Rendered(entries, p, n - 1)
  }

  lemma {:induction false} AccumulatedAlongPath<T>(entries: Settings -> seq<T>, inherit: bool, p: Path, n: nat)
    requires |p.scans| == |p.steps| + 1 && 0 < n <= |p.steps|
    requires forall k :: 0 <= k < n ==> Accumulates(entries, inherit, p, k)
    ensures entries(p.scans[n].settings) == Pile(entries, inherit, p, n)
  {
    hide Rendered;
    assert Accumulates(entries, inherit, p, n - 1);
    if inherit {
      if n > 1 { AccumulatedAlongPath(entries, inherit, p, n - 1); }
      Associates(entries(p.scans[0].settings), AddedBefore(entries, p, n - 1), Rendered(entries, p, n - 1));
      assert entries(p.scans[0].settings) + [] == entries(p.scans[0].settings);
    }
  }

  /** The pile when templating leaves the rules alone. */
  function AddedLiterally<T>(entries: Settings -> seq<T>, rules: seq<Rule>, n: nat): seq<T>
    requires n <= |rules|
  {
    if n == 0 then [] else AddedLiterally(entries, rules, n - 1) + entries(rules[n - 1].settings)
  }

  lemma RulesLength(p: Path)
    ensures |Rules(p.steps)| == |p.steps|
  {}

  lemma {:induction false} AddedIsLiteral<T>(entries: Settings -> seq<T>, p: Path, n: nat)
    requires n <= |p.steps| < |p.scans| && forall k :: 0 <= k < n ==> AddsLiterally(entries, p, k)
    ensures AddedBefore(entries, p, n) == AddedLiterally(entries, Rules(p.steps), n)
  {
    hide Rendered, AddsLiterally, Rules, DeclaredAt;
    RulesLength(p);
    if n > 0 {
      AddedIsLiteral(entries, p, n - 1);
      LiteralAt(entries, p, n - 1);
    }
  }
}
