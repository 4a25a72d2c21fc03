/** The tree shown by `scbctl cascade` is the tree of scans that the cascading-scans hook created. */
module CascadeDisplay {
  import opened Text
  import opened CascadingScans
  import opened CascadeTree
  import V = CascadeView

  /** What scbctl reads of a scan. */
  function View(scan: Scan): V.Scan {
    V.Scan(scan.name, if PARENT in scan.annotations then scan.annotations[PARENT] else "")
  }

  /** Whatever a rule's annotations say, a follow-up scan names its parent. */
  lemma ChildNamesItsParent(e: Environment, parent: Scan, finding: Finding, rule: Rule)
    ensures var annotations := GetCascadingScan(e, parent, finding, rule).annotations;
      PARENT in annotations && annotations[PARENT] == parent.name
  {
    PlainKeys();
    assert PARENT != CHAIN by { assert PARENT[27] == 'p' && CHAIN[27] == 'c'; }
    hide TemplateRule, MergeSettings, MergeInheritedMap, CascadingScanName, GetScanChain, Join;
  }

  lemma ChildView(c: Cluster, parent: Scan, child: Scan)
    requires child in Children(c, parent)
    ensures View(child).parent == parent.name
  {
    ChildHasRule(c, parent, child);
    hide Children;
    var rule, finding, name :| ChildVia(c, parent, child, rule, finding, name);
    ChildNamesItsParent(c.environment, PurgedScan(parent, UsedRule(c, parent).value), finding, rule);
    hide GetCascadingScan, UsedRule;
  }

  /** If the scans of a cascade are listed and its root is an initial scan, each of them has its place in the tree,
      below the scan that started it. */
  lemma {:induction false} DescendantsAreShown(c: Cluster, root: Scan, depth: nat, x: Scan, listed: seq<V.Scan>)
    requires x in Descendants(c, root, depth) && V.IsInitialScan(View(root))
    requires forall d: nat, y :: d <= depth && y in Descendants(c, root, d) ==> View(y) in listed
    ensures V.Rooted(listed, View(x))
    decreases depth
  {
    hide Children, View, NextGeneration;
    if depth == 0 {
      ShownBelow(listed, [], View(x));
    } else {
      HasParent(c, Descendants(c, root, depth - 1), x);
      var parent :| parent in Descendants(c, root, depth - 1) && x in Children(c, parent);
      DescendantsAreShown(c, root, depth - 1, parent, listed);
      ChildView(c, parent, x);
      var path :| V.LeadsTo(listed, [], path, V.EdgeOf(View(parent)));
      assert V.ParentName(path) == View(parent).name;
      assert View(parent).name == parent.name by { NameIsShown(parent); }
      ShownBelow(listed, path, View(x));
    }
  }

  lemma NameIsShown(scan: Scan)
    ensures View(scan).name == scan.name
  {}

  lemma ShownBelow(listed: seq<V.Scan>, path: seq<V.Scan>, s: V.Scan)
    requires V.IsPath(listed, path) && s in listed && s.parent == V.ParentName(path)
    ensures V.Rooted(listed, s)
  {
    V.ExtendedPath(listed, path, s);
    assert V.LeadsTo(listed, [], path + [s], V.EdgeOf(s));
  }
}
