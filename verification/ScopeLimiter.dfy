/** The scope limiter of the cascading scans hook: decides whether a finding may trigger further scans.
    Models hooks/cascading-scans/hook/scope-limiter.ts. None stands for a thrown error. */
module ScopeLimiter {
  import opened Options
  import opened Text

  const SCOPE_DOMAIN := "scope.cascading.securecodebox.io/"
  const LIST_DELIMITER := ";;;;"

  datatype Operator =
    In | NotIn | Contains | DoesNotContain | InCIDR | NotInCIDR | SubdomainOf | NotSubdomainOf | Unknown

  datatype Requirement = Requirement(key: string, operator: Operator, values: Option<seq<string>>)

  datatype Limiter = Limiter(
    validOnMissingRender: bool,
    anyOf: Option<seq<Requirement>>,
    allOf: Option<seq<Requirement>>,
    noneOf: Option<seq<Requirement>>)

  datatype Address = Address(v6: bool, bits: nat)

  /** The libraries: Mustache with the scope limiter aliases and with one finding, parse-domain, ip-address. */
  datatype Libraries = Libraries(
    renderAlias: string -> Option<string>,
    renderFinding: string -> Option<string>,
    listedDomain: string -> Option<seq<string>>,
    parseAddress: string -> Option<Address>,
    inSubnet: (Address, Address) -> bool)

  datatype Rendered = Rendered(values: seq<string>, rendered: bool)

  // ---------------------------------------------------------------- every and some, over tests that may throw

  function Every<T>(items: seq<T>, test: T -> Option<bool>): Option<bool> {
    if items == [] then Some(true)
    else match test(items[0])
      case Some(true) => Every(items[1..], test)
      case other => other
  }

  function Any<T>(items: seq<T>, test: T -> Option<bool>): Option<bool> {
    if items == [] then Some(false)
    else match test(items[0])
      case Some(false) => Any(items[1..], test)
      case other => other
  }

  function Not(b: Option<bool>): Option<bool> {
    match b case None => None case Some(x) => Some(!x)
  }

  // ---------------------------------------------------------------- template values

  /** Turns the final rendering into a list when it holds the list delimiter. */
  function Unpack(rendered: string): Rendered {
    if IndexOf(rendered, LIST_DELIMITER).Some? then
      var pieces := Split(rendered, LIST_DELIMITER);
      var list := pieces[..|pieces| - 1];
      Rendered(list, forall v <- list :: v != "")
    else Rendered([rendered], rendered != "")
  }

  function TemplateValue(lib: Libraries, value: string): Option<Rendered> {
    match lib.renderAlias(value)
    case None => None
    case Some(alias) =>
      match lib.renderFinding(if alias == "" then value else alias)
      case None => None
      case Some(rendered) => Some(Unpack(rendered))
  }

  function TemplateValues(lib: Libraries, values: seq<string>): Option<seq<Rendered>> {
    if values == [] then Some([])
    else match TemplateValue(lib, values[0])
      case None => None
      case Some(first) =>
        match TemplateValues(lib, values[1..])
        case None => None
        case Some(rest) => Some([first] + rest)
  }

  function Flatten(renders: seq<Rendered>): seq<string> {
    if renders == [] then [] else renders[0].values + Flatten(renders[1..])
  }

  // ---------------------------------------------------------------- operators

  function OperatorIn(scope: string, findingValues: seq<string>): Option<bool> { Some(scope in findingValues) }

  function OperatorContains(scope: string, findingValues: seq<string>): Option<bool> {
    Some(forall v <- findingValues :: v in Split(scope, ","))
  }

  function OperatorInCIDR(lib: Libraries, scope: string, findingValues: seq<string>): Option<bool> {
    match lib.parseAddress(scope)
    case None => None
    case Some(subnet) =>
      Every(findingValues, v =>
        match lib.parseAddress(v)
        case None => None
        case Some(address) => Some(address.v6 != subnet.v6 || lib.inSubnet(address, subnet)))
  }

  /** The scope's labels are the last labels of the value's domain. */
  predicate LabelsEndWith(labels: seq<string>, scope: seq<string>) {
    |scope| <= |labels| && labels[|labels| - |scope|..] == scope
  }

  function OperatorSubdomainOf(lib: Libraries, scope: string, findingValues: seq<string>): Option<bool> {
    match lib.listedDomain(scope)
    case None => None
    case Some(scopeLabels) =>
      Every(findingValues, v =>
        match lib.listedDomain(v)
        case None => None
        case Some(labels) => Some(LabelsEndWith(labels, scopeLabels)))
  }

  function Apply(lib: Libraries, operator: Operator, scope: string, findingValues: seq<string>): Option<bool> {
    match operator
    case In => OperatorIn(scope, findingValues)
    case NotIn => Not(OperatorIn(scope, findingValues))
    case Contains => OperatorContains(scope, findingValues)
    case DoesNotContain => Not(OperatorContains(scope, findingValues))
    case InCIDR => OperatorInCIDR(lib, scope, findingValues)
    case NotInCIDR => Not(OperatorInCIDR(lib, scope, findingValues))
    case SubdomainOf => OperatorSubdomainOf(lib, scope, findingValues)
    case NotSubdomainOf => Not(OperatorSubdomainOf(lib, scope, findingValues))
    case Unknown => None
  }

  // ---------------------------------------------------------------- the decision

  function Validate(lib: Libraries, limiter: Limiter, annotations: map<string, string>,
                    req: Requirement): Option<bool> {
    if !StartsWith(req.key, SCOPE_DOMAIN) || req.operator == Unknown || req.values.None? then None
    else match TemplateValues(lib, req.values.value)
      case None => None
      case Some(renders) =>
        if exists r <- renders :: !r.rendered then Some(limiter.validOnMissingRender)
        else if req.key !in annotations then None
        else Apply(lib, req.operator, annotations[req.key], Flatten(renders))
  }

  function Listed(requirements: Option<seq<Requirement>>): seq<Requirement> {
    match requirements case None => [] case Some(rs) => rs
  }

  function And(a: Option<bool>, b: Option<bool>): Option<bool> {
    if a.None? || b.None? then None else Some(a.value && b.value)
  }

  function IsInScope(lib: Libraries, limiter: Option<Limiter>, annotations: map<string, string>): Option<bool> {
    match limiter
    case None => Some(true)
    case Some(l) =>
      var test := (req: Requirement) => Validate(lib, l, annotations, req);
      And(Every(Listed(l.allOf), test),
          And(if Listed(l.anyOf) == [] then Some(true) else Any(Listed(l.anyOf), test),
              Not(Any(Listed(l.noneOf), test))))
  }

  // ---------------------------------------------------------------- main results

  /** Two annotation maps with the same scope annotations. */
  ghost predicate SameScope(a: map<string, string>, b: map<string, string>) {
    forall k :: StartsWith(k, SCOPE_DOMAIN) ==> (k in a <==> k in b) && (k in a ==> a[k] == b[k])
  }

  /** The decision depends on nothing but the scope annotations. */
  lemma ScopeDecidesAlone(lib: Libraries, limiter: Option<Limiter>, a: map<string, string>, b: map<string, string>)
    requires SameScope(a, b)
    ensures IsInScope(lib, limiter, a) == IsInScope(lib, limiter, b)
  {
    if limiter.Some? {
      var l := limiter.value;
      var f := (req: Requirement) => Validate(lib, l, a, req);
      var g := (req: Requirement) => Validate(lib, l, b, req);
      forall req ensures f(req) == g(req) {
        assert Validate(lib, l, a, req) == Validate(lib, l, b, req);
      }
      EveryAgrees(Listed(l.allOf), f, g);
      AnyAgrees(Listed(l.anyOf), f, g);
      AnyAgrees(Listed(l.noneOf), f, g);
    }
  }

  /** Wherever it is inserted, a further allOf requirement never brings anything into scope. */
  lemma AllOfOnlyNarrows(lib: Libraries, l: Limiter, annotations: map<string, string>,
                         before: seq<Requirement>, extra: Requirement, after: seq<Requirement>)
    requires Listed(l.allOf) == before + after
    requires IsInScope(lib, Some(l.(allOf := Some(before + [extra] + after))), annotations) == Some(true)
    ensures IsInScope(lib, Some(l), annotations) == Some(true)
  {
    var l' := l.(allOf := Some(before + [extra] + after));
    SameTest(lib, l, l', annotations);
    var test := (req: Requirement) => Validate(lib, l, annotations, req);
    var test' := (req: Requirement) => Validate(lib, l', annotations, req);
    EveryAgrees(before + [extra] + after, test', test);
    AnyAgrees(Listed(l.anyOf), test', test);
    AnyAgrees(Listed(l.noneOf), test', test);
    EveryTrue(before + [extra] + after, test);
    EveryTrue(before + after, test);
  }

  /** Nor does a further noneOf requirement. */
  lemma NoneOfOnlyNarrows(lib: Libraries, l: Limiter, annotations: map<string, string>,
                          before: seq<Requirement>, extra: Requirement, after: seq<Requirement>)
    requires Listed(l.noneOf) == before + after
    requires IsInScope(lib, Some(l.(noneOf := Some(before + [extra] + after))), annotations) == Some(true)
    ensures IsInScope(lib, Some(l), annotations) == Some(true)
  {
    var l' := l.(noneOf := Some(before + [extra] + after));
    SameTest(lib, l, l', annotations);
    var test := (req: Requirement) => Validate(lib, l, annotations, req);
    var test' := (req: Requirement) => Validate(lib, l', annotations, req);
    EveryAgrees(Listed(l.allOf), test', test);
    AnyAgrees(Listed(l.anyOf), test', test);
    AnyAgrees(before + [extra] + after, test', test);
    AnyFalse(before + [extra] + after, test);
    AnyFalse(before + after, test);
  }

  /** A rendered list is recovered exactly when no item contains the delimiter or ends in a semicolon. */
  lemma UnpackRecoversList(items: seq<string>)
    requires items != []
    ensures Unpack(RenderList(items, LIST_DELIMITER)).values == items <==>
            forall x <- items :: IndexOf(x, LIST_DELIMITER).None? && (x == "" || x[|x| - 1] != ';')
  {
    DelimiterFound(items[0], LIST_DELIMITER, RenderList(items[1..], LIST_DELIMITER));
    LastPieceIsEmpty(items);
    SplitRendered(items, LIST_DELIMITER);
    forall x ensures Clean(x, LIST_DELIMITER) <==> IndexOf(x, LIST_DELIMITER).None? && (x == "" || x[|x| - 1] != ';') {
      CleanItem(x);
    }
    hide Split, Clean;
  }

  lemma LastPieceIsEmpty(items: seq<string>)
    ensures var pieces := Split(RenderList(items, LIST_DELIMITER), LIST_DELIMITER);
      |pieces| > 0 && (pieces[..|pieces| - 1] == items <==> pieces == items + [""])
  {
    hide Split, RenderList, Join;
    var s := RenderList(items, LIST_DELIMITER);
    JoinSplit(s, LIST_DELIMITER);
    var pieces := Split(s, LIST_DELIMITER);
    var last := pieces[|pieces| - 1];
    assert pieces == pieces[..|pieces| - 1] + [last];
    JoinLast(pieces[..|pieces| - 1], last, LIST_DELIMITER);
    if pieces[..|pieces| - 1] == items {
      assert s + last == s;
      assert last == "";
    }
  }

  /** In scope means: every allOf requirement holds, no noneOf requirement does, and, unless anyOf is empty,
      some anyOf requirement holds with no error before it. */
  lemma InScopeMeaning(lib: Libraries, l: Limiter, annotations: map<string, string>)
    ensures IsInScope(lib, Some(l), annotations) == Some(true) <==>
      && (forall r <- Listed(l.allOf) :: Validate(lib, l, annotations, r) == Some(true))
      && (forall r <- Listed(l.noneOf) :: Validate(lib, l, annotations, r) == Some(false))
      && (Listed(l.anyOf) != [] ==>
            exists i :: 0 <= i < |Listed(l.anyOf)| && Validate(lib, l, annotations, Listed(l.anyOf)[i]) == Some(true)
              && forall k :: 0 <= k < i ==> Validate(lib, l, annotations, Listed(l.anyOf)[k]) == Some(false))
  {
    var test := (req: Requirement) => Validate(lib, l, annotations, req);
    EveryTrue(Listed(l.allOf), test);
    AnyFalse(Listed(l.noneOf), test);
    AnyTrue(Listed(l.anyOf), test);
    hide Validate;
  }

  // ---------------------------------------------------------------- small lemmas

  lemma SameTest(lib: Libraries, l: Limiter, l': Limiter, annotations: map<string, string>)
    requires l.validOnMissingRender == l'.validOnMissingRender
    ensures forall req :: Validate(lib, l, annotations, req) == Validate(lib, l', annotations, req)
  {}

  lemma {:induction false} EveryAgrees<T>(items: seq<T>, f: T -> Option<bool>, g: T -> Option<bool>)
    requires forall x <- items :: f(x) == g(x)
    ensures Every(items, f) == Every(items, g)
  {
    if items != [] {
      assert items[0] in items;
      EveryAgrees(items[1..], f, g);
    }
  }

  lemma {:induction false} AnyAgrees<T>(items: seq<T>, f: T -> Option<bool>, g: T -> Option<bool>)
    requires forall x <- items :: f(x) == g(x)
    ensures Any(items, f) == Any(items, g)
  {
    if items != [] {
      assert items[0] in items;
      AnyAgrees(items[1..], f, g);
    }
  }

  lemma {:induction false} EveryTrue<T>(items: seq<T>, test: T -> Option<bool>)
    ensures Every(items, test) == Some(true) <==> forall x <- items :: test(x) == Some(true)
  {
    if items != [] {
      EveryTrue(items[1..], test);
      assert items[0] in items && forall x :: x in items <==> x == items[0] || x in items[1..];
    }
  }

  lemma {:induction false} AnyFalse<T>(items: seq<T>, test: T -> Option<bool>)
    ensures Any(items, test) == Some(false) <==> forall x <- items :: test(x) == Some(false)
  {
    if items != [] {
      AnyFalse(items[1..], test);
      assert items[0] in items && forall x :: x in items <==> x == items[0] || x in items[1..];
    }
  }

  lemma {:induction false} AnyTrue<T>(items: seq<T>, test: T -> Option<bool>)
    ensures Any(items, test) == Some(true) <==>
      exists i :: 0 <= i < |items| && test(items[i]) == Some(true) && forall k :: 0 <= k < i ==>
          test(items[k]) == Some(false)
  {
    if items != [] {
      AnyTrue(items[1..], test);
      if test(items[0]) == Some(false) {
        if Any(items[1..], test) == Some(true) {
          var i :| 0 <= i < |items[1..]| && test(items[1..][i]) == Some(true) && forall k :: 0 <= k < i ==>
              test(items[1..][k]) == Some(false);
          assert test(items[i + 1]) == Some(true) && forall k :: 0 <= k < i + 1 ==>
                 k == 0 || items[k] == items[1..][k - 1];
        }
        if i :| 0 <= i < |items| && test(items[i]) == Some(true) && forall k :: 0 <= k < i ==>
            test(items[k]) == Some(false) {
          assert items[1..][i - 1] == items[i] && forall k :: 0 <= k < i - 1 ==> items[1..][k] == items[k + 1];
        }
      }
    }
  }

  lemma {:induction false} JoinLast(items: seq<string>, last: string, delimiter: string)
    ensures Join(items + [last], delimiter) == RenderList(items, delimiter) + last
  {
    if items == [] {
      assert items + [last] == [last];
    } else {
      assert (items + [last])[1..] == items[1..] + [last];
      JoinLast(items[1..], last, delimiter);
    }
  }

  lemma FourSemicolons(s: string, i: nat)
    requires i + 4 <= |s|
    ensures OccursAt(s, LIST_DELIMITER, i) <==> s[i] == ';' && s[i + 1] == ';' && s[i + 2] == ';' && s[i + 3] == ';'
  {
    assert s[i..i + 4] == [s[i], s[i + 1], s[i + 2], s[i + 3]];
  }

  lemma CleanItem(x: string)
    ensures Clean(x, LIST_DELIMITER) <==> IndexOf(x, LIST_DELIMITER).None? && (x == "" || x[|x| - 1] != ';')
  {
    var s := x + LIST_DELIMITER;
    if IndexOf(x, LIST_DELIMITER).Some? {
      CleanIsAlone(x);
    } else if x != "" && x[|x| - 1] == ';' {
      FourSemicolons(s, |x| - 1);
    } else {
      forall i | 0 <= i < |x| ensures !OccursAt(s, LIST_DELIMITER, i) {
        FourSemicolons(s, i);
        if i + 4 <= |x| {
          FourSemicolons(x, i);
          assert !OccursAt(x, LIST_DELIMITER, i);
        }
      }
    }
  }

  lemma CleanIsAlone(x: string)
    requires IndexOf(x, LIST_DELIMITER).Some?
    ensures !Clean(x, LIST_DELIMITER)
  {
    if Clean(x, LIST_DELIMITER) { CleanAlone(x, LIST_DELIMITER); }
  }
}
