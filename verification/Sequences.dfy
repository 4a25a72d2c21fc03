/** Sequences without repetition. */
module Sequences {
  ghost predicate NoDuplicates<T>(items: seq<T>) { forall i, j :: 0 <= i < j < |items| ==> items[i] != items[j] }

  lemma {:induction false} Pigeonhole<T>(p: seq<T>, s: seq<T>)
    requires NoDuplicates(p) && forall x <- p :: x in s
    ensures |p| <= |s|
  {
    if p != [] {
      var last := p[|p| - 1];
      assert last in p;
      var k :| 0 <= k < |s| && s[k] == last;
      var rest := s[..k] + s[k + 1..];
      forall x | x in p[..|p| - 1] ensures x in rest {
        assert x in p;
        var i :| 0 <= i < |s| && s[i] == x;
        assert if i < k then s[..k][i] == x else s[k + 1..][i - k - 1] == x;
      }
      Pigeonhole(p[..|p| - 1], rest);
    }
  }

  lemma NoDuplicatesInSum<T>(a: seq<T>, b: seq<T>)
    requires NoDuplicates(a) && NoDuplicates(b) && forall x <- a :: x !in b
    ensures NoDuplicates(a + b)
  {
    var s := a + b;
    forall i, j | 0 <= i < j < |s| ensures s[i] != s[j] {
      var x, y := s[i], s[j];
      assert x == if i < |a| then a[i] else b[i - |a|];
      assert y == if j < |a| then a[j] else b[j - |a|];
      if i < |a| <= j { assert x in a && y in b; }
    }
  }
}
