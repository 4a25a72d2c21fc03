/** How far a scope decision depends on what Mustache makes of the scope limiter aliases. */
module ScopeRendering {
  import opened Options
  import opened Text
  import opened ScopeLimiter

  /** No operator tells the two lists of values apart, against any scope. */
  ghost predicate Indistinguishable(lib: Libraries, a: seq<string>, b: seq<string>) {
    forall operator, scope :: Apply(lib, operator, scope, a) == Apply(lib, operator, scope, b)
  }

  /** Both templates fail, or are not rendered, or are rendered to lists that no operator tells apart. */
  ghost predicate RenderedAlike(lib: Libraries, a: Option<Rendered>, b: Option<Rendered>) {
    match (a, b)
    case (Some(r), Some(s)) => r.rendered == s.rendered && (r.rendered ==> Indistinguishable(lib, r.values, s.values))
    case _ => a.None? && b.None?
  }

  ghost predicate RenderAlike(lib: Libraries, other: Libraries) {
    forall value :: RenderedAlike(lib, TemplateValue(lib, value), TemplateValue(other, value))
  }

  ghost predicate DecideAlike(lib: Libraries, other: Libraries) {
    forall limiter, annotations :: IsInScope(lib, limiter, annotations) == IsInScope(other, limiter, annotations)
  }

  /** The libraries differ in nothing but the aliases that Mustache is given. */
  ghost predicate DifferInAliases(lib: Libraries, other: Libraries) { other == lib.(renderAlias := other.renderAlias) }

  /** For one Mustache and one finding, two alias tables lead to the same decision for every limiter and all
      annotations if and only if each single template renders alike under both. */
  lemma AliasesMatterExactlyWhereTheyRender(lib: Libraries, other: Libraries)
    requires DifferInAliases(lib, other)
    ensures DecideAlike(lib, other) <==> RenderAlike(lib, other)
  {
    hide *;
    if RenderAlike(lib, other) { AlikeDecides(lib, other); }
    if DecideAlike(lib, other) { DecidesAlike(lib, other); }
  }

  // ---------------------------------------------------------------- what operators tell apart

  /** Lists that no operator tells apart have the same members; for single values that is equality. */
  lemma IndistinguishableMembers(lib: Libraries, a: seq<string>, b: seq<string>)
    requires Indistinguishable(lib, a, b)
    ensures forall x :: x in a <==> x in b
    ensures |a| == |b| == 1 ==> a == b
  {
    forall x ensures x in a <==> x in b { assert Apply(lib, In, x, a) == Apply(lib, In, x, b); }
    if |a| == |b| == 1 { assert a[0] in a && b[0] in b; }
  }

  lemma {:induction false} EveryConcat<T>(a: seq<T>, b: seq<T>, test: T -> Option<bool>)
    ensures Every(a + b, test) == if Every(a, test) == Some(true) then Every(b, test) else Every(a, test)
  {
    if a == [] {
      assert a + b == b;
    } else {
      EveryConcat(a[1..], b, test);
      assert (a + b)[1..] == a[1..] + b && (a + b)[0] == a[0];
    }
  }

  /** A positive operator on a concatenation. */
  function Both(a: Option<bool>, b: Option<bool>): Option<bool> { if a == Some(true) then b else a }

  lemma CIDRConcat(lib: Libraries, scope: string, a: seq<string>, b: seq<string>)
    ensures OperatorInCIDR(lib, scope, a + b) ==
            Both(OperatorInCIDR(lib, scope, a), OperatorInCIDR(lib, scope, b))
  {
    if lib.parseAddress(scope).Some? {
      var subnet := lib.parseAddress(scope).value;
      EveryConcat(a, b, v =>
        match lib.parseAddress(v)
        case None => None
        case Some(address) => Some(address.v6 != subnet.v6 || lib.inSubnet(address, subnet)));
    }
    hide Every;
  }

  lemma SubdomainConcat(lib: Libraries, scope: string, a: seq<string>, b: seq<string>)
    ensures OperatorSubdomainOf(lib, scope, a + b) ==
            Both(OperatorSubdomainOf(lib, scope, a), OperatorSubdomainOf(lib, scope, b))
  {
    if lib.listedDomain(scope).Some? {
      var scopeLabels := lib.listedDomain(scope).value;
      EveryConcat(a, b, v =>
        match lib.listedDomain(v)
        case None => None
        case Some(labels) => Some(LabelsEndWith(labels, scopeLabels)));
    }
    hide Every, LabelsEndWith;
  }

  lemma ContainsConcat(scope: string, a: seq<string>, b: seq<string>)
    ensures OperatorContains(scope, a + b) == Both(OperatorContains(scope, a), OperatorContains(scope, b))
  {
    var labels := Split(scope, ",");
    assert forall v :: v in a + b <==> v in a || v in b;
    hide Split;
  }

  lemma InConcat(scope: string, a: seq<string>, b: seq<string>)
    ensures OperatorIn(scope, a + b) == Some(scope in a || scope in b)
  {}

  lemma ConcatIndistinguishable(lib: Libraries, a: seq<string>, b: seq<string>, c: seq<string>, d: seq<string>)
    requires Indistinguishable(lib, a, b) && Indistinguishable(lib, c, d)
    ensures Indistinguishable(lib, a + c, b + d)
  {
    forall operator, scope ensures Apply(lib, operator, scope, a + c) == Apply(lib, operator, scope, b + d) {
      SameApplied(lib, scope, a, b, operator);
      SameApplied(lib, scope, c, d, operator);
      ConcatApplied(lib, operator, scope, a, b, c, d);
    }
  }

  lemma SameApplied(lib: Libraries, scope: string, a: seq<string>, b: seq<string>, operator: Operator)
    requires Indistinguishable(lib, a, b)
    ensures OperatorIn(scope, a) == OperatorIn(scope, b) && OperatorContains(scope, a) == OperatorContains(scope, b)
    ensures OperatorInCIDR(lib, scope, a) == OperatorInCIDR(lib, scope, b)
    ensures OperatorSubdomainOf(lib, scope, a) == OperatorSubdomainOf(lib, scope, b)
  {
    assert Apply(lib, In, scope, a) == Apply(lib, In, scope, b);
    assert Apply(lib, Contains, scope, a) == Apply(lib, Contains, scope, b);
    assert Apply(lib, InCIDR, scope, a) == Apply(lib, InCIDR, scope, b);
    assert Apply(lib, SubdomainOf, scope, a) == Apply(lib, SubdomainOf, scope, b);
    hide OperatorIn, OperatorContains, OperatorInCIDR, OperatorSubdomainOf;
  }

  lemma ConcatApplied(lib: Libraries, operator: Operator, scope: string, a: seq<string>, b: seq<string>, c: seq<string>,
                      d: seq<string>)
    requires OperatorIn(scope, a) == OperatorIn(scope, b) && OperatorIn(scope, c) == OperatorIn(scope, d)
    requires OperatorContains(scope, a) == OperatorContains(scope, b)
    requires OperatorContains(scope, c) == OperatorContains(scope, d)
    requires OperatorInCIDR(lib, scope, a) == OperatorInCIDR(lib, scope, b)
    requires OperatorInCIDR(lib, scope, c) == OperatorInCIDR(lib, scope, d)
    requires OperatorSubdomainOf(lib, scope, a) == OperatorSubdomainOf(lib, scope, b)
    requires OperatorSubdomainOf(lib, scope, c) == OperatorSubdomainOf(lib, scope, d)
    ensures Apply(lib, operator, scope, a + c) == Apply(lib, operator, scope, b + d)
  {
    InConcat(scope, a, c);
    InConcat(scope, b, d);
    assert OperatorIn(scope, a + c) == OperatorIn(scope, b + d);
    hide OperatorIn, OperatorContains, OperatorInCIDR, OperatorSubdomainOf;
    ContainsConcat(scope, a, c);
    ContainsConcat(scope, b, d);
    CIDRConcat(lib, scope, a, c);
    CIDRConcat(lib, scope, b, d);
    SubdomainConcat(lib, scope, a, c);
    SubdomainConcat(lib, scope, b, d);
  }

  // ---------------------------------------------------------------- alike templates, alike decisions

  ghost predicate AllRendered(renders: seq<Rendered>) { forall r <- renders :: r.rendered }

  /** Alike single templates give alike lists of template values. */
  lemma {:induction false} ValuesAlike(lib: Libraries, other: Libraries, values: seq<string>)
    requires RenderAlike(lib, other)
    ensures TemplateValues(lib, values).None? <==> TemplateValues(other, values).None?
    ensures TemplateValues(lib, values).Some? ==>
              var a, b := TemplateValues(lib, values).value, TemplateValues(other, values).value;
              (AllRendered(a) <==> AllRendered(b)) &&
              (AllRendered(a) ==> Indistinguishable(lib, Flatten(a), Flatten(b)))
  {
    if values != [] {
      ValuesAlike(lib, other, values[1..]);
      assert RenderedAlike(lib, TemplateValue(lib, values[0]), TemplateValue(other, values[0]));
      hide RenderAlike, TemplateValue, Indistinguishable;
      if TemplateValues(lib, values).Some? {
        var first, second := TemplateValue(lib, values[0]).value, TemplateValue(other, values[0]).value;
        var a, b := TemplateValues(lib, values[1..]).value, TemplateValues(other, values[1..]).value;
        hide TemplateValues;
        FlattenNext(first, a);
        FlattenNext(second, b);
        if first.rendered && AllRendered(a) {
          ConcatIndistinguishable(lib, first.values, second.values, Flatten(a), Flatten(b));
        }
      }
    }
  }

  lemma FlattenNext(first: Rendered, rest: seq<Rendered>)
    ensures Flatten([first] + rest) == first.values + Flatten(rest)
    ensures AllRendered([first] + rest) <==> first.rendered && AllRendered(rest)
  {
    assert ([first] + rest)[1..] == rest && ([first] + rest)[0] == first;
    forall r ensures r in [first] + rest <==> r == first || r in rest {}
  }

  lemma ValidatesAlike(lib: Libraries, other: Libraries, l: Limiter, annotations: map<string, string>, req: Requirement)
    requires DifferInAliases(lib, other) && RenderAlike(lib, other)
    ensures Validate(lib, l, annotations, req) == Validate(other, l, annotations, req)
  {
    if req.values.Some? {
      ValuesAlike(lib, other, req.values.value);
      hide RenderAlike, TemplateValues, Flatten, StartsWith;
      var a, b := TemplateValues(lib, req.values.value), TemplateValues(other, req.values.value);
      if a.Some? && AllRendered(a.value) && req.key in annotations {
        var scope := annotations[req.key];
        assert Apply(lib, req.operator, scope, Flatten(a.value)) == Apply(lib, req.operator, scope, Flatten(b.value));
        AppliesAlike(lib, other, req.operator, scope, Flatten(b.value));
      }
      hide Apply, Indistinguishable;
    }
  }

  /** The operators do not use the aliases. */
  lemma AppliesAlike(lib: Libraries, other: Libraries, operator: Operator, scope: string, values: seq<string>)
    requires DifferInAliases(lib, other)
    ensures Apply(lib, operator, scope, values) == Apply(other, operator, scope, values)
  {
    hide Every, LabelsEndWith, OperatorContains, OperatorIn;
  }

  lemma AlikeDecides(lib: Libraries, other: Libraries)
    requires DifferInAliases(lib, other) && RenderAlike(lib, other)
    ensures DecideAlike(lib, other)
  {
    forall limiter, annotations
      ensures IsInScope(lib, limiter, annotations) == IsInScope(other, limiter, annotations)
    {
      if limiter.Some? { AlikeDecidesOne(lib, other, limiter.value, annotations); }
    }
  }

  lemma AlikeDecidesOne(lib: Libraries, other: Libraries, l: Limiter, annotations: map<string, string>)
    requires DifferInAliases(lib, other) && RenderAlike(lib, other)
    ensures IsInScope(lib, Some(l), annotations) == IsInScope(other, Some(l), annotations)
  {
    var f := (req: Requirement) => Validate(lib, l, annotations, req);
    var g := (req: Requirement) => Validate(other, l, annotations, req);
    forall req ensures f(req) == g(req) { ValidatesAlike(lib, other, l, annotations, req); }
    hide Validate, RenderAlike;
    EveryAgrees(Listed(l.allOf), f, g);
    AnyAgrees(Listed(l.anyOf), f, g);
    AnyAgrees(Listed(l.noneOf), f, g);
  }

  // ---------------------------------------------------------------- alike decisions, alike templates

  function Single(operator: Operator, value: string): Requirement
  {
    Requirement(SCOPE_DOMAIN, operator, Some([value]))
  }

  function Only(operator: Operator, value: string, missing: bool): Limiter
  {
    Limiter(missing, None, Some([Single(operator, value)]), None)
  }

  /** The decision that follows from what the template of the only requirement renders to. */
  function Decision(lib: Libraries, r: Option<Rendered>, operator: Operator, scope: string,
                    missing: bool): Option<bool> {
    match r
    case None => None
    case Some(x) => if x.rendered then Apply(lib, operator, scope, x.values) else Some(missing)
  }

  /** A limiter of one requirement shows what one template renders to. */
  lemma OnlyDecides(lib: Libraries, operator: Operator, value: string, missing: bool, scope: string)
    requires operator != Unknown
    ensures IsInScope(lib, Some(Only(operator, value, missing)), map[SCOPE_DOMAIN := scope]) ==
            Decision(lib, TemplateValue(lib, value), operator, scope, missing)
  {
    var l, annotations, req := Only(operator, value, missing), map[SCOPE_DOMAIN := scope], Single(operator, value);
    OneTemplate(lib, value);
    assert Validate(lib, l, annotations, req) == Decision(lib, TemplateValue(lib, value), operator, scope, missing) by {
      hide Apply, TemplateValue, TemplateValues, Flatten;
      if TemplateValue(lib, value).Some? {
        assert TemplateValue(lib, value).value in [TemplateValue(lib, value).value];
      }
    }
    var test := (r: Requirement) => Validate(lib, l, annotations, r);
    assert test(req) == Validate(lib, l, annotations, req);
    hide Validate, Decision, TemplateValue;
    EveryOne(req, test);
  }

  lemma EveryOne(req: Requirement, test: Requirement -> Option<bool>)
    ensures Every([req], test) == test(req)
  {
    assert [req][1..] == [];
  }

  lemma OneTemplate(lib: Libraries, value: string)
    ensures TemplateValues(lib, [value]) ==
            match TemplateValue(lib, value) case None => None case Some(r) => Some([r])
    ensures TemplateValue(lib, value).Some? ==>
              Flatten([TemplateValue(lib, value).value]) == TemplateValue(lib, value).value.values
  {
    hide TemplateValue;
    assert [value][1..] == [] && TemplateValues(lib, [value][1..]) == Some([]);
    if TemplateValue(lib, value).Some? {
      var r := TemplateValue(lib, value).value;
      assert [r] + [] == [r] && [r][1..] == [] && r.values + [] == r.values;
    }
  }

  lemma DecidesAlike(lib: Libraries, other: Libraries)
    requires DifferInAliases(lib, other) && DecideAlike(lib, other)
    ensures RenderAlike(lib, other)
  {
    forall value ensures RenderedAlike(lib, TemplateValue(lib, value), TemplateValue(other, value)) {
      DecidesAlikeOne(lib, other, value);
    }
    hide TemplateValue, RenderedAlike;
  }

  lemma DecidesAlikeOne(lib: Libraries, other: Libraries, value: string)
    requires DifferInAliases(lib, other) && DecideAlike(lib, other)
    ensures RenderedAlike(lib, TemplateValue(lib, value), TemplateValue(other, value))
  {
    var a, b := TemplateValue(lib, value), TemplateValue(other, value);
    Shown(lib, other, In, value, true, "");
    Shown(lib, other, In, value, false, "");
    hide DecideAlike, TemplateValue;
    if a.Some? && b.Some? && a.value.rendered && b.value.rendered {
      forall operator, scope
        ensures Apply(lib, operator, scope, a.value.values) == Apply(lib, operator, scope, b.value.values)
      {
        if operator != Unknown { Shown(lib, other, operator, value, true, scope); }
      }
    }
    hide Apply;
  }

  /** Alike decisions show the same of one template under both alias tables. */
  lemma Shown(lib: Libraries, other: Libraries, operator: Operator, value: string, missing: bool, scope: string)
    requires DifferInAliases(lib, other) && DecideAlike(lib, other) && operator != Unknown
    ensures Decision(lib, TemplateValue(lib, value), operator, scope, missing) ==
            Decision(lib, TemplateValue(other, value), operator, scope, missing)
  {
    hide IsInScope, TemplateValue, Apply;
    OnlyDecides(lib, operator, value, missing, scope);
    OnlyDecides(other, operator, value, missing, scope);
    if TemplateValue(other, value).Some? {
      AppliesAlike(lib, other, operator, scope, TemplateValue(other, value).value.values);
    }
  }
}
