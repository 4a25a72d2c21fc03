/** Splitting and joining strings, as JavaScript's `split` and `join` do. */
module Text {
  import opened Options

  ghost predicate OccursAt(s: string, delimiter: string, i: nat)
  {
    i + |delimiter| <= |s| && s[i..i + |delimiter|] == delimiter
  }

  function IndexOf(s: string, delimiter: string, from: nat := 0): (r: Option<nat>)
    requires from <= |s|
    ensures r.Some? ==> from <= r.value && OccursAt(s, delimiter, r.value)
    ensures r.Some? ==> forall i :: from <= i < r.value ==> !OccursAt(s, delimiter, i)
    ensures r.None? ==> forall i :: from <= i ==> !OccursAt(s, delimiter, i)
    decreases |s| - from
  {
    if from + |delimiter| > |s| then None
    else if s[from..from + |delimiter|] == delimiter then Some(from)
    else if from == |s| then None
    else IndexOf(s, delimiter, from + 1)
  }

  function Split(s: string, delimiter: string): seq<string>
    requires delimiter != ""
    decreases |s|
  {
    match IndexOf(s, delimiter)
    case None => [s]
    case Some(i) => [s[..i]] + Split(s[i + |delimiter|..], delimiter)
  }

  function Join(items: seq<string>, delimiter: string): string {
    if items == [] then ""
    else if |items| == 1 then items[0]
    else items[0] + delimiter + Join(items[1..], delimiter)
  }

  predicate StartsWith(s: string, prefix: string) { prefix <= s }

  /** The delimiter that follows an item is its first occurrence. */
  ghost predicate Clean(item: string, delimiter: string) {
    forall i :: 0 <= i < |item| ==> !OccursAt(item + delimiter, delimiter, i)
  }

  lemma DelimiterFound(item: string, delimiter: string, rest: string)
    requires delimiter != ""
    ensures IndexOf(item + delimiter + rest, delimiter).Some?
    ensures IndexOf(item + delimiter + rest, delimiter).value <= |item|
    ensures Clean(item, delimiter) <==> IndexOf(item + delimiter + rest, delimiter).value == |item|
  {
    var s := item + delimiter + rest;
    assert OccursAt(s, delimiter, |item|);
    forall i | 0 <= i < |item| ensures OccursAt(s, delimiter, i) <==> OccursAt(item + delimiter, delimiter, i) {
      assert s[i..i + |delimiter|] == (item + delimiter)[i..i + |delimiter|];
    }
  }

  lemma CleanAlone(item: string, delimiter: string)
    requires delimiter != "" && Clean(item, delimiter)
    ensures IndexOf(item, delimiter).None?
  {
    if IndexOf(item, delimiter).Some? {
      var i := IndexOf(item, delimiter).value;
      assert (item + delimiter)[i..i + |delimiter|] == item[i..i + |delimiter|];
      assert OccursAt(item + delimiter, delimiter, i);
    }
  }

  /** Splitting undoes joining when no item, followed by the delimiter, contains an earlier delimiter. */
  lemma {:induction false} SplitJoin(items: seq<string>, delimiter: string)
    requires delimiter != "" && items != []
    requires forall x <- items :: Clean(x, delimiter)
    ensures Split(Join(items, delimiter), delimiter) == items
  {
    assert items[0] in items;
    if |items| == 1 {
      CleanAlone(items[0], delimiter);
    } else {
      var rest := Join(items[1..], delimiter);
      DelimiterFound(items[0], delimiter, rest);
      var s := items[0] + delimiter + rest;
      assert s[..|items[0]|] == items[0] && s[|items[0]| + |delimiter|..] == rest;
      SplitJoin(items[1..], delimiter);
    }
  }

  /** Pieces of a split never contain the delimiter; for one character that makes them clean. */
  lemma {:induction false} SplitIsClean(s: string, delimiter: string)
    requires |delimiter| == 1
    ensures forall x <- Split(s, delimiter) :: Clean(x, delimiter)
    ensures Split(s, delimiter) != []
    decreases |s|
  {
    var found := IndexOf(s, delimiter);
    var piece := if found.Some? then s[..found.value] else s;
    forall i | 0 <= i < |piece| ensures !OccursAt(piece + delimiter, delimiter, i) {
      assert (piece + delimiter)[i..i + 1] == s[i..i + 1];
      assert OccursAt(s, delimiter, i) <==> OccursAt(piece + delimiter, delimiter, i);
    }
    if found.Some? { SplitIsClean(s[found.value + 1..], delimiter); }
  }

  lemma {:induction false} JoinSplit(s: string, delimiter: string)
    requires delimiter != ""
    ensures Join(Split(s, delimiter), delimiter) == s
    ensures Split(s, delimiter) != []
    decreases |s|
  {
    SplitNext(s, delimiter);
    var found := IndexOf(s, delimiter);
    if found.Some? {
      var rest := s[found.value + |delimiter|..];
      JoinSplit(rest, delimiter);
      JoinNext(s[..found.value], Split(rest, delimiter), delimiter);
      hide Split, Join, IndexOf;
      assert s == s[..found.value] + delimiter + rest;
    }
  }

  lemma SplitNext(s: string, delimiter: string)
    requires delimiter != ""
    ensures var found := IndexOf(s, delimiter);
      Split(s, delimiter) ==
      if found.None? then [s] else [s[..found.value]] + Split(s[found.value + |delimiter|..], delimiter)
  {
    hide IndexOf;
  }

  lemma JoinNext(first: string, items: seq<string>, delimiter: string)
    requires items != []
    ensures Join([first] + items, delimiter) == first + delimiter + Join(items, delimiter)
  {
    assert ([first] + items)[1..] == items;
  }

  lemma WithoutCharIsClean(item: string, c: char)
    requires c !in item
    ensures Clean(item, [c])
  {
    forall i | 0 <= i < |item| ensures !OccursAt(item + [c], [c], i) {
      assert (item + [c])[i..i + 1][0] == item[i];
    }
  }

  // ---------------------------------------------------------------- rendered lists

  /** A list rendered item by item, each followed by the delimiter. */
  function RenderList(items: seq<string>, delimiter: string): string {
    if items == [] then "" else items[0] + delimiter + RenderList(items[1..], delimiter)
  }

  lemma SplitFirst(first: string, delimiter: string, rest: string)
    requires delimiter != ""
    ensures var pieces := Split(first + delimiter + rest, delimiter);
      if Clean(first, delimiter) then pieces == [first] + Split(rest, delimiter) else pieces[0] != first
  {
    var s := first + delimiter + rest;
    DelimiterFound(first, delimiter, rest);
    var i := IndexOf(s, delimiter).value;
    if i == |first| {
      assert s[..i] == first && s[i + |delimiter|..] == rest;
    } else {
      assert |s[..i]| != |first|;
    }
  }

  lemma ConsEqual(x: string, s: seq<string>, t: seq<string>)
    ensures [x] + s == [x] + t <==> s == t
  {
    assert ([x] + s)[1..] == s && ([x] + t)[1..] == t;
  }

  ghost predicate AllClean(items: seq<string>, delimiter: string) {
    forall x <- items :: Clean(x, delimiter)
  }

  lemma AllCleanNext(items: seq<string>, delimiter: string)
    requires items != []
    ensures AllClean(items, delimiter) <==> Clean(items[0], delimiter) && AllClean(items[1..], delimiter)
  {
    hide Clean;
    forall x | x in items ensures x == items[0] || x in items[1..] {}
    assert items[0] in items;
  }

  lemma RenderNext(items: seq<string>, delimiter: string)
    requires items != []
    ensures RenderList(items, delimiter) == items[0] + delimiter + RenderList(items[1..], delimiter)
  {}

  lemma SplitNothing(delimiter: string)
    requires delimiter != ""
    ensures Split(RenderList([], delimiter), delimiter) == [] + [""] && AllClean([], delimiter)
  {}

  /** Splitting a rendered list recovers the items (and a last empty piece) exactly when every item is clean. */
  lemma {:induction false} SplitRendered(items: seq<string>, delimiter: string)
    requires delimiter != ""
    ensures Split(RenderList(items, delimiter), delimiter) == items + [""] <==> AllClean(items, delimiter)
  {
    hide *;
    if items == [] {
      SplitNothing(delimiter);
    } else {
      var first, rest := items[0], RenderList(items[1..], delimiter);
      RenderNext(items, delimiter);
      SplitFirst(first, delimiter, rest);
      AllCleanNext(items, delimiter);
      SplitRendered(items[1..], delimiter);
      assert items + [""] == [first] + (items[1..] + [""]);
      ConsEqual(first, Split(rest, delimiter), items[1..] + [""]);
    }
  }
}
