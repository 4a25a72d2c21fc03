/** The tree of cascading scans that `scbctl cascade` shows. Models scbctl/cmd/cascading.go. */
module CascadeView {
  import opened Sequences

  /** `parent` is the parent-scan annotation; a missing annotation reads as the empty string. */
  datatype Scan = Scan(name: string, parent: string)

  datatype Tree = Node(name: string, children: seq<Tree>)

  /** A scan below the node of its parent; the topmost node stands for the empty name. */
  datatype Edge = Edge(parent: string, name: string)

  function EdgeOf(scan: Scan): Edge { Edge(scan.parent, scan.name) }

  /** All edges of a forest hanging below `parent`, in preorder. */
  function Edges(trees: seq<Tree>, parent: string): seq<Edge> {
    if trees == [] then []
    else
      var last := trees[|trees| - 1];
      Edges(trees[..|trees| - 1], parent) + ([Edge(parent, last.name)] + Edges(last.children, last.name))
  }

  /** What the API server guarantees for the scans of a namespace. */
  ghost predicate UniqueNames(scans: seq<Scan>) {
    && (forall s <- scans :: s.name != "")
    && (forall i, j :: 0 <= i < j < |scans| ==> scans[i].name != scans[j].name)
  }

  // ---------------------------------------------------------------- ancestry

  function ParentName(path: seq<Scan>): string { if path == [] then "" else path[|path| - 1].name }

  /** A chain of scans from an initial scan downwards. */
  ghost predicate IsPath(scans: seq<Scan>, path: seq<Scan>) {
    path == [] ||
    var last, before := path[|path| - 1], path[..|path| - 1];
    last in scans && last.parent == ParentName(before) && IsPath(scans, before)
  }

  ghost predicate LeadsTo(scans: seq<Scan>, path: seq<Scan>, q: seq<Scan>, e: Edge) {
    path < q && IsPath(scans, q) && EdgeOf(q[|q| - 1]) == e
  }

  /** e belongs to a scan whose ancestry continues `path`. */
  ghost predicate IsBelow(scans: seq<Scan>, path: seq<Scan>, e: Edge) { exists q :: LeadsTo(scans, path, q, e) }

  /** The ancestry of the scan reaches an initial scan. */
  ghost predicate Rooted(scans: seq<Scan>, scan: Scan) { scan in scans && IsBelow(scans, [], EdgeOf(scan)) }

  /** The edges are those of the scans below `path`, each once. */
  ghost predicate Shows(scans: seq<Scan>, path: seq<Scan>, edges: seq<Edge>) {
    NoDuplicates(edges) && forall e :: e in edges <==> IsBelow(scans, path, e)
  }

  /** As `Shows`, for the scans below the first n possible children only. */
  ghost predicate ShowsFirst(scans: seq<Scan>, path: seq<Scan>, n: nat, edges: seq<Edge>)
    requires n <= |scans|
  {
    && NoDuplicates(edges)
    && forall e :: e in edges <==> exists j, q :: 0 <= j < n && LeadsTo(scans, path, q, e) && q[|path|] == scans[j]
  }

  lemma SameName(scans: seq<Scan>, a: Scan, b: Scan)
    requires UniqueNames(scans) && a in scans && b in scans && a.name == b.name
    ensures a == b
  {
    var i :| 0 <= i < |scans| && scans[i] == a;
    var j :| 0 <= j < |scans| && scans[j] == b;
  }

  /** There is only one ancestry for a scan. */
  lemma {:induction false} PathIsUnique(scans: seq<Scan>, p: seq<Scan>, q: seq<Scan>)
    requires UniqueNames(scans) && IsPath(scans, p) && IsPath(scans, q) && ParentName(p) == ParentName(q)
    ensures p == q
  {
    if p != [] && q != [] {
      SameName(scans, p[|p| - 1], q[|q| - 1]);
      PathIsUnique(scans, p[..|p| - 1], q[..|q| - 1]);
      assert p == p[..|p| - 1] + [p[|p| - 1]] && q == q[..|q| - 1] + [q[|q| - 1]];
    }
  }

  /** Names never repeat on the way down, so the recursion ends whatever the parent annotations say. */
  lemma {:induction false} PathIsShort(scans: seq<Scan>, p: seq<Scan>)
    requires UniqueNames(scans) && IsPath(scans, p)
    ensures NoDuplicates(p) && |p| <= |scans|
  {
    forall i, j | 0 <= i < j < |p| ensures p[i] != p[j] {
      TakeIsPath(scans, p, i + 1);
      TakeIsPath(scans, p, j + 1);
      hide IsPath;
      assert |p[..i + 1]| == i + 1 < |p[..j + 1]|;
      if p[i] == p[j] { PathIsUnique(scans, p[..i + 1], p[..j + 1]); }
    }
    hide IsPath;
    forall k | 0 <= k < |p| ensures p[k] in scans { TakeIsPath(scans, p, k + 1); }
    Pigeonhole(p, scans);
  }

  lemma {:induction false} TakeIsPath(scans: seq<Scan>, p: seq<Scan>, n: nat)
    requires IsPath(scans, p) && n <= |p|
    ensures IsPath(scans, p[..n])
    ensures n > 0 ==> p[n - 1] in scans && p[n - 1].parent == ParentName(p[..n - 1])
  {
    if n < |p| {
      TakeIsPath(scans, p[..|p| - 1], n);
      assert p[..|p| - 1][..n] == p[..n];
      if n > 0 { assert p[..|p| - 1][..n - 1] == p[..n - 1]; }
    } else {
      assert p[..n] == p;
    }
  }

  // ---------------------------------------------------------------- building the tree

  predicate IsInitialScan(scan: Scan) { scan.parent == "" }

  predicate IsCascadedFrom(child: Scan, parent: Scan) { child.parent == parent.name }

  /** The subtree of a scan: its follow-up scans with theirs. `path` is the ancestry of the scan, itself included. */
  method BuildScanSubtree(scan: Scan, uniqScans: seq<Scan>, ghost path: seq<Scan>) returns (children: seq<Tree>)
    requires UniqueNames(uniqScans) && IsPath(uniqScans, path) && path != [] && path[|path| - 1] == scan
    ensures Shows(uniqScans, path, Edges(children, scan.name))
    decreases |uniqScans| - |path|
  {
    children := [];
    for i := 0 to |uniqScans|
      invariant ShowsFirst(uniqScans, path, i, Edges(children, scan.name))
    {
      var child := uniqScans[i];
      if IsCascadedFrom(child, scan) {
        ExtendedPath(uniqScans, path, child);
        PathIsShort(uniqScans, path + [child]);
        var subtree := BuildScanSubtree(child, uniqScans, path + [child]);
        OneMoreChild(uniqScans, path, i, Edges(children, scan.name), Edges(subtree, child.name));
        EdgesOfOneMore(children, Node(child.name, subtree), scan.name);
        children := children + [Node(child.name, subtree)];
      } else {
        NotAChild(uniqScans, path, i, Edges(children, scan.name));
      }
    }
    AllChildren(uniqScans, path, Edges(children, scan.name));
  }

  /** The scans with a name not seen before. */
  method UniqueScans(scans: seq<Scan>) returns (uniqScans: seq<Scan>)
    ensures forall i, j :: 0 <= i < j < |uniqScans| ==> uniqScans[i].name != uniqScans[j].name
    ensures (forall u <- uniqScans :: u in scans) && forall s <- scans :: exists u <- uniqScans :: u.name == s.name
    ensures UniqueNames(scans) ==> uniqScans == scans
  {
    var uniq: set<string> := {};
    uniqScans := [];
    for i := 0 to |scans|
      invariant forall k, j :: 0 <= k < j < |uniqScans| ==> uniqScans[k].name != uniqScans[j].name
      invariant forall u <- uniqScans :: u in scans[..i]
      invariant uniq == set u <- uniqScans :: u.name
      invariant forall k :: 0 <= k < i ==> scans[k].name in uniq
      invariant UniqueNames(scans) ==> uniqScans == scans[..i]
    {
      assert scans[..i + 1] == scans[..i] + [scans[i]];
      if scans[i].name in uniq { continue; }
      uniqScans := uniqScans + [scans[i]];
      uniq := uniq + {scans[i].name};
    }
  }

  /** Each scan whose ancestry reaches an initial scan is shown exactly once, below its parent, and no other scan. */
  method BuildTree(scans: seq<Scan>) returns (root: Tree)
    requires UniqueNames(scans)
    ensures root.name == "Scans"
    ensures var edges := Edges(root.children, "");
      && (forall i, j :: 0 <= i < j < |edges| ==> edges[i].name != edges[j].name)
      && (forall e <- edges :: exists s :: Rooted(scans, s) && e == EdgeOf(s))
      && (forall s :: Rooted(scans, s) ==> EdgeOf(s) in edges)
  {
    var uniqScans := UniqueScans(scans);
    var children: seq<Tree> := [];
    for i := 0 to |scans|
      invariant ShowsFirst(scans, [], i, Edges(children, ""))
    {
      if IsInitialScan(scans[i]) {
        ExtendedPath(scans, [], scans[i]);
        assert [] + [scans[i]] == [scans[i]];
        var subtree := BuildScanSubtree(scans[i], uniqScans, [scans[i]]);
        OneMoreChild(scans, [], i, Edges(children, ""), Edges(subtree, scans[i].name));
        EdgesOfOneMore(children, Node(scans[i].name, subtree), "");
        children := children + [Node(scans[i].name, subtree)];
      } else {
        NotAChild(scans, [], i, Edges(children, ""));
      }
    }
    AllChildren(scans, [], Edges(children, ""));
    ShownOnce(scans, Edges(children, ""));
    root := Node("Scans", children);
  }

  // ---------------------------------------------------------------- steps of the loops

  lemma ExtendedPath(scans: seq<Scan>, path: seq<Scan>, child: Scan)
    requires IsPath(scans, path) && child in scans && child.parent == ParentName(path)
    ensures IsPath(scans, path + [child])
  {
    assert (path + [child])[..|path|] == path;
  }

  lemma EdgesOfOneMore(trees: seq<Tree>, tree: Tree, parent: string)
    ensures Edges(trees + [tree], parent) ==
            Edges(trees, parent) + ([Edge(parent, tree.name)] + Edges(tree.children, tree.name))
  {
    assert (trees + [tree])[..|trees|] == trees;
  }

  lemma NextOnPath(scans: seq<Scan>, path: seq<Scan>, q: seq<Scan>, e: Edge)
    requires LeadsTo(scans, path, q, e)
    ensures q[|path|].parent == ParentName(path) && q[|path|] in scans
    ensures q == path + [q[|path|]] || path + [q[|path|]] < q
  {
    TakeIsPath(scans, q, |path| + 1);
    hide IsPath;
    assert q[..|path|] == path;
  }

  lemma NotAChild(scans: seq<Scan>, path: seq<Scan>, i: nat, edges: seq<Edge>)
    requires i < |scans| && ShowsFirst(scans, path, i, edges) && scans[i].parent != ParentName(path)
    ensures ShowsFirst(scans, path, i + 1, edges)
  {
    forall e | exists j, q :: 0 <= j < i + 1 && LeadsTo(scans, path, q, e) && q[|path|] == scans[j] ensures e in edges {
      var j, q :| 0 <= j < i + 1 && LeadsTo(scans, path, q, e) && q[|path|] == scans[j];
      NextOnPath(scans, path, q, e);
      assert j < i;
    }
  }

  lemma AllChildren(scans: seq<Scan>, path: seq<Scan>, edges: seq<Edge>)
    requires ShowsFirst(scans, path, |scans|, edges)
    ensures Shows(scans, path, edges)
  {
    forall e | IsBelow(scans, path, e) ensures e in edges {
      var q :| LeadsTo(scans, path, q, e);
      NextOnPath(scans, path, q, e);
      var j :| 0 <= j < |scans| && scans[j] == q[|path|];
    }
  }

  /** Ways down through different children never meet. */
  lemma Disjoint(scans: seq<Scan>, path: seq<Scan>, q: seq<Scan>, r: seq<Scan>, e: Edge)
    requires UniqueNames(scans) && LeadsTo(scans, path, q, e) && LeadsTo(scans, path, r, e)
    ensures q == r
  {
    PathIsUnique(scans, q, r);
  }

  lemma OneMoreChild(scans: seq<Scan>, path: seq<Scan>, i: nat, edges: seq<Edge>, below: seq<Edge>)
    requires UniqueNames(scans) && i < |scans| && ShowsFirst(scans, path, i, edges)
    requires IsPath(scans, path + [scans[i]]) && Shows(scans, path + [scans[i]], below)
    ensures ShowsFirst(scans, path, i + 1, edges + ([EdgeOf(scans[i])] + below))
  {
    var child := path + [scans[i]];
    var added := [EdgeOf(scans[i])] + below;
    hide IsPath;
    forall e ensures e in added <==> exists q :: LeadsTo(scans, path, q, e) && q[|path|] == scans[i] {
      ThroughChild(scans, path, i, below, e);
    }
    hide LeadsTo, IsBelow;
    forall e | e in edges ensures e !in added {
      if e in added {
        var j, q :| 0 <= j < i && LeadsTo(scans, path, q, e) && q[|path|] == scans[j];
        var r :| LeadsTo(scans, path, r, e) && r[|path|] == scans[i];
        Disjoint(scans, path, q, r, e);
        assert false;
      }
    }
    ChildNotBelowItself(scans, child, below);
    NoDuplicatesInSum([EdgeOf(scans[i])], below);
    NoDuplicatesInSum(edges, added);
    forall e ensures e in edges + added <==>
        exists j, q :: 0 <= j < i + 1 && LeadsTo(scans, path, q, e) && q[|path|] == scans[j] {
      if j, q :| 0 <= j < i + 1 && LeadsTo(scans, path, q, e) && q[|path|] == scans[j] {
        assert if j < i then e in edges else e in added;
      }
    }
  }

  lemma ThroughChild(scans: seq<Scan>, path: seq<Scan>, i: nat, below: seq<Edge>, e: Edge)
    requires i < |scans| && IsPath(scans, path + [scans[i]]) && Shows(scans, path + [scans[i]], below)
    ensures e in [EdgeOf(scans[i])] + below <==> exists q :: LeadsTo(scans, path, q, e) && q[|path|] == scans[i]
  {
    if e in [EdgeOf(scans[i])] + below { ThroughChildDown(scans, path, scans[i], below, e); }
    if exists q :: LeadsTo(scans, path, q, e) && q[|path|] == scans[i] {
      var q :| LeadsTo(scans, path, q, e) && q[|path|] == scans[i];
      ThroughChildUp(scans, path, scans[i], below, q, e);
    }
  }

  lemma ThroughChildDown(scans: seq<Scan>, path: seq<Scan>, child: Scan, below: seq<Edge>, e: Edge)
    requires IsPath(scans, path + [child]) && Shows(scans, path + [child], below) && e in [EdgeOf(child)] + below
    ensures exists q :: LeadsTo(scans, path, q, e) && q[|path|] == child
  {
    hide IsPath;
    var p := path + [child];
    assert path < p && p[|path|] == child;
    if e == EdgeOf(child) {
      assert LeadsTo(scans, path, p, e);
    } else {
      assert e in below;
      var q :| LeadsTo(scans, p, q, e);
      assert q[|path|] == child && path < q;
      assert LeadsTo(scans, path, q, e);
    }
  }

  lemma ThroughChildUp(scans: seq<Scan>, path: seq<Scan>, child: Scan, below: seq<Edge>, q: seq<Scan>, e: Edge)
    requires Shows(scans, path + [child], below) && LeadsTo(scans, path, q, e) && q[|path|] == child
    ensures e in [EdgeOf(child)] + below
  {
    NextOnPath(scans, path, q, e);
    hide IsPath;
    if path + [child] < q { assert LeadsTo(scans, path + [child], q, e); }
  }

  lemma ChildNotBelowItself(scans: seq<Scan>, child: seq<Scan>, below: seq<Edge>)
    requires UniqueNames(scans) && child != [] && IsPath(scans, child) && Shows(scans, child, below)
    ensures EdgeOf(child[|child| - 1]) !in below
  {
    var e := EdgeOf(child[|child| - 1]);
    if e in below {
      var q :| LeadsTo(scans, child, q, e);
      PathIsUnique(scans, q, child);
      assert false;
    }
  }

  lemma ShownOnce(scans: seq<Scan>, edges: seq<Edge>)
    requires UniqueNames(scans) && Shows(scans, [], edges)
    ensures forall i, j :: 0 <= i < j < |edges| ==> edges[i].name != edges[j].name
    ensures forall e <- edges :: exists s :: Rooted(scans, s) && e == EdgeOf(s)
    ensures forall s :: Rooted(scans, s) ==> EdgeOf(s) in edges
  {
    forall e | e in edges ensures exists s :: Rooted(scans, s) && e == EdgeOf(s) {
      var q :| LeadsTo(scans, [], q, e);
      assert Rooted(scans, q[|q| - 1]);
    }
    assert NoDuplicates(edges);
    assert forall s :: Rooted(scans, s) ==> s in scans;
    hide Rooted, Shows;
    forall i, j | 0 <= i < j < |edges| ensures edges[i].name != edges[j].name {
      var e, f := edges[i], edges[j];
      assert e in edges && f in edges && e != f;
      var s :| Rooted(scans, s) && e == EdgeOf(s);
      var t :| Rooted(scans, t) && f == EdgeOf(t);
      if e.name == f.name { SameName(scans, s, t); }
    }
  }

  // ---------------------------------------------------------------- when the recursion ends

  /** The scans of nested calls: an initial scan, then follow-up scans among `uniqScans`, one per call. */
  ghost predicate CallChain(scans: seq<Scan>, uniqScans: seq<Scan>, calls: seq<Scan>) {
    && calls != [] && calls[0] in scans && IsInitialScan(calls[0])
    && forall k :: 0 < k < |calls| ==> calls[k] in uniqScans && IsCascadedFrom(calls[k], calls[k - 1])
  }

  ghost predicate DeepestIs(scans: seq<Scan>, uniqScans: seq<Scan>, bound: nat) {
    forall calls :: CallChain(scans, uniqScans, calls) ==> |calls| <= bound
  }

  ghost predicate RecursionEnds(scans: seq<Scan>, uniqScans: seq<Scan>)
  {
    exists bound :: DeepestIs(scans, uniqScans, bound)
  }

  /** No initial scan leads to a scan of `uniqScans` that leads back to itself. */
  ghost predicate NoCycle(scans: seq<Scan>, uniqScans: seq<Scan>) {
    forall calls :: CallChain(scans, uniqScans, calls) ==> NoDuplicates(calls[1..])
  }

  /** The recursion ends exactly if no cycle of parent annotations can be reached from an initial scan. */
  lemma EndsWithoutCycles(scans: seq<Scan>, uniqScans: seq<Scan>)
    ensures RecursionEnds(scans, uniqScans) <==> NoCycle(scans, uniqScans)
  {
    if NoCycle(scans, uniqScans) {
      forall calls | CallChain(scans, uniqScans, calls) ensures |calls| <= |uniqScans| + 1 {
        forall x | x in calls[1..] ensures x in uniqScans
        {
          var k :| 0 <= k < |calls[1..]| && calls[1..][k] == x; assert calls[k + 1] == x;
        }
        Pigeonhole(calls[1..], uniqScans);
      }
      assert DeepestIs(scans, uniqScans, |uniqScans| + 1);
    }
    if bound :| DeepestIs(scans, uniqScans, bound) {
      forall calls | CallChain(scans, uniqScans, calls) ensures NoDuplicates(calls[1..]) {
        if !NoDuplicates(calls[1..]) {
          var i, j :| 0 <= i < j < |calls[1..]| && calls[1..][i] == calls[1..][j];
          var longer := Pump(scans, uniqScans, calls, i + 1, j + 1, bound);
          assert false;
        }
      }
    }
  }

  /** Going round a cycle as often as it takes. */
  lemma {:induction false} Pump(scans: seq<Scan>, uniqScans: seq<Scan>, calls: seq<Scan>, i: nat, j: nat, n: nat)
      returns (longer: seq<Scan>)
    requires CallChain(scans, uniqScans, calls) && 0 < i < j < |calls| && calls[i] == calls[j]
    ensures CallChain(scans, uniqScans, longer) && |longer| > n
    decreases n - |calls|
  {
    longer := calls;
    if |calls| <= n {
      var again := calls[..j] + calls[i..];
      assert again[j] == calls[i] == calls[j] && again[i] == calls[i];
      longer := Pump(scans, uniqScans, again, i, j, n);
    }
  }

  /** Unique names leave no cycle. */
  lemma UniqueNamesEnd(scans: seq<Scan>)
    requires UniqueNames(scans)
    ensures NoCycle(scans, scans) && RecursionEnds(scans, scans)
  {
    forall calls | CallChain(scans, scans, calls) ensures NoDuplicates(calls[1..]) {
      CallsArePath(scans, calls);
      PathIsShort(scans, calls);
    }
    EndsWithoutCycles(scans, scans);
  }

  lemma {:induction false} CallsArePath(scans: seq<Scan>, calls: seq<Scan>)
    requires CallChain(scans, scans, calls)
    ensures IsPath(scans, calls)
  {
    if |calls| > 1 { CallsArePath(scans, calls[..|calls| - 1]); }
  }

  /** Skipping repeated names is not enough: when the initial scan of a name is the one skipped, there can be a
      cycle. */
  lemma RepeatedNamesCanCycle()
    ensures var scans := [Scan("a", "b"), Scan("b", "a"), Scan("a", "")];
      !NoCycle(scans, scans[..2]) && !RecursionEnds(scans, scans[..2])
  {
    var scans := [Scan("a", "b"), Scan("b", "a"), Scan("a", "")];
    var uniqScans, calls := scans[..2], [scans[2], scans[1], scans[0], scans[1]];
    assert uniqScans[0] == scans[0] && uniqScans[1] == scans[1];
    assert CallChain(scans, uniqScans, calls);
    assert calls[1..][0] == calls[1..][2];
    EndsWithoutCycles(scans, uniqScans);
  }
}
