/** What the scope limiter answers, operator by operator and requirement by requirement, in terms of the libraries. */
module ScopeOperators {
  import opened Options
  import opened Text
  import opened ScopeLimiter

  /** The i-th item fails, after only items that pass. */
  ghost predicate FailsAt<T>(items: seq<T>, test: T -> Option<bool>, i: nat)
    requires i < |items|
  {
    test(items[i]) == None && forall k :: 0 <= k < i ==> test(items[k]) == Some(true)
  }

  lemma {:induction false} EveryFails<T>(items: seq<T>, test: T -> Option<bool>)
    ensures Every(items, test) == None <==> exists i :: 0 <= i < |items| && FailsAt(items, test, i)
  {
    if items != [] {
      EveryFails(items[1..], test);
      if test(items[0]) == Some(true) {
        if i :| 0 <= i < |items[1..]| && FailsAt(items[1..], test, i) { FailsLater(items, test, i + 1); }
        if i :| 0 <= i < |items| && FailsAt(items, test, i) { FailsLater(items, test, i); }
      } else {
        assert test(items[0]) == None ==> FailsAt(items, test, 0);
      }
    }
  }

  lemma FailsLater<T>(items: seq<T>, test: T -> Option<bool>, i: nat)
    requires i < |items| && test(items[0]) == Some(true)
    ensures FailsAt(items, test, i) <==> i > 0 && FailsAt(items[1..], test, i - 1)
  {
    if i > 0 {
      assert items[1..][i - 1] == items[i];
      assert forall k :: 0 <= k < i - 1 ==> items[1..][k] == items[k + 1];
      assert forall k :: 0 < k < i ==> items[k] == items[1..][k - 1];
    }
  }

  // ---------------------------------------------------------------- the operators

  /** In: the scope is one of the values. Contains: each value is one of the scope's comma-separated items. */
  lemma ListOperators(lib: Libraries, scope: string, values: seq<string>)
    ensures Apply(lib, In, scope, values) == Some(exists i :: 0 <= i < |values| && values[i] == scope)
    ensures Apply(lib, Contains, scope, values) ==
            Some(forall i :: 0 <= i < |values| ==> values[i] in Split(scope, ","))
  {
    hide Split;
    forall i | 0 <= i < |values| ensures values[i] in values {}
  }

  /** Both are addresses, of different versions, which cannot be compared, or the value lies in the subnet. */
  ghost predicate Inside(lib: Libraries, scope: string, value: string) {
    && lib.parseAddress(scope).Some? && lib.parseAddress(value).Some?
    && var subnet, address := lib.parseAddress(scope).value, lib.parseAddress(value).value;
       address.v6 == subnet.v6 ==> lib.inSubnet(address, subnet)
  }

  /** InCIDR: whether all addresses lie in the subnet; an error if the scope is no address, or if the first value that
      does not is none. */
  lemma CIDROperator(lib: Libraries, scope: string, values: seq<string>)
    ensures Apply(lib, InCIDR, scope, values) == Some(true) <==>
            lib.parseAddress(scope).Some? && forall v <- values :: Inside(lib, scope, v)
    ensures Apply(lib, InCIDR, scope, values) == None <==>
            lib.parseAddress(scope).None? || exists i ::
              && 0 <= i < |values| && lib.parseAddress(values[i]).None?
              && forall k :: 0 <= k < i ==> Inside(lib, scope, values[k])
  {
    if lib.parseAddress(scope).Some? {
      var subnet := lib.parseAddress(scope).value;
      var test := v =>
        match lib.parseAddress(v)
        case None => None
        case Some(address) => Some(address.v6 != subnet.v6 || lib.inSubnet(address, subnet));
      assert forall v :: test(v) == Some(true) <==> Inside(lib, scope, v);
      assert forall v :: test(v) == None <==> lib.parseAddress(v).None?;
      EveryTrue(values, test);
      EveryFails(values, test);
      assert Apply(lib, InCIDR, scope, values) == Every(values, test);
      hide Every, Inside, Apply;
      if i :| && 0 <= i < |values| && lib.parseAddress(values[i]).None?
              && forall k :: 0 <= k < i ==> Inside(lib, scope, values[k]) {
        assert FailsAt(values, test, i);
      }
    }
  }

  /** Both are listed domains, and the last labels of the value are those of the scope. */
  ghost predicate Below(lib: Libraries, scope: string, value: string) {
    && lib.listedDomain(scope).Some? && lib.listedDomain(value).Some?
    && var parent, domain := lib.listedDomain(scope).value, lib.listedDomain(value).value;
       && |parent| <= |domain|
       && forall i :: 0 <= i < |parent| ==> domain[|domain| - |parent| + i] == parent[i]
  }

  /** SubdomainOf: whether all domains are the scope or below it; an error if the scope is no listed domain, or if the
      first value that is not below it is none. */
  lemma SubdomainOperator(lib: Libraries, scope: string, values: seq<string>)
    ensures Apply(lib, SubdomainOf, scope, values) == Some(true) <==>
            lib.listedDomain(scope).Some? && forall v <- values :: Below(lib, scope, v)
    ensures Apply(lib, SubdomainOf, scope, values) == None <==>
            lib.listedDomain(scope).None? || exists i ::
              && 0 <= i < |values| && lib.listedDomain(values[i]).None?
              && forall k :: 0 <= k < i ==> Below(lib, scope, values[k])
  {
    if lib.listedDomain(scope).Some? {
      var parent := lib.listedDomain(scope).value;
      var test := v =>
        match lib.listedDomain(v)
        case None => None
        case Some(labels) => Some(LabelsEndWith(labels, parent));
      forall v | lib.listedDomain(v).Some?
        ensures LabelsEndWith(lib.listedDomain(v).value, parent) <==> Below(lib, scope, v)
      {
        EndsBelow(lib, scope, v);
      }
      assert forall v :: test(v) == Some(true) <==> Below(lib, scope, v);
      assert forall v :: test(v) == None <==> lib.listedDomain(v).None?;
      EveryTrue(values, test);
      EveryFails(values, test);
      assert Apply(lib, SubdomainOf, scope, values) == Every(values, test);
      hide Every, Below, LabelsEndWith, Apply;
      if i :| && 0 <= i < |values| && lib.listedDomain(values[i]).None?
              && forall k :: 0 <= k < i ==> Below(lib, scope, values[k]) {
        assert FailsAt(values, test, i);
      }
    }
  }

  lemma EndsBelow(lib: Libraries, scope: string, value: string)
    requires lib.listedDomain(scope).Some? && lib.listedDomain(value).Some?
    ensures LabelsEndWith(lib.listedDomain(value).value, lib.listedDomain(scope).value) <==> Below(lib, scope, value)
  {
    var parent, labels := lib.listedDomain(scope).value, lib.listedDomain(value).value;
    if |parent| <= |labels| {
      var tail := labels[|labels| - |parent|..];
      assert forall i :: 0 <= i < |parent| ==> tail[i] == labels[|labels| - |parent| + i];
    }
  }

  /** The negated operators turn the answer round and fail with the others; an unknown operator always fails. */
  lemma NegatedOperators(lib: Libraries, scope: string, values: seq<string>, b: bool)
    ensures Apply(lib, NotIn, scope, values) == Some(b) <==> Apply(lib, In, scope, values) == Some(!b)
    ensures Apply(lib, DoesNotContain, scope, values) == Some(b) <==> Apply(lib, Contains, scope, values) == Some(!b)
    ensures Apply(lib, NotInCIDR, scope, values) == Some(b) <==> Apply(lib, InCIDR, scope, values) == Some(!b)
    ensures Apply(lib, NotSubdomainOf, scope, values) == Some(b) <==> Apply(lib, SubdomainOf, scope, values) == Some(!b)
    ensures Apply(lib, Unknown, scope, values) == None
  {
    hide OperatorIn, OperatorContains, OperatorInCIDR, OperatorSubdomainOf;
  }

  // ---------------------------------------------------------------- one requirement

  /** What a template renders to: an error, or what the finding makes of its alias, or of itself where the aliases make
      nothing of it. A text without the list delimiter is one value, rendered unless it is empty; a list is rendered
      unless one of its items is empty. */
  lemma TemplateMeaning(lib: Libraries, value: string)
    ensures TemplateValue(lib, value) == None <==>
            lib.renderAlias(value).None? ||
            lib.renderFinding(if lib.renderAlias(value).value != "" then lib.renderAlias(value).value else value).None?
    ensures TemplateValue(lib, value).Some? ==>
              var text := lib.renderFinding(if lib.renderAlias(value).value != "" then lib.renderAlias(value).value
                                            else value).value;
              var r := TemplateValue(lib, value).value;
              && (r.rendered <==> forall v <- r.values :: v != "")
              && if IndexOf(text, ";;;;").None? then r.values == [text]
                 else r.values != [] && r.values + [Last(Split(text, ";;;;"))] == Split(text, ";;;;")
  {
    if TemplateValue(lib, value).Some? {
      UnpackMeaning(lib.renderFinding(if lib.renderAlias(value).value != "" then lib.renderAlias(value).value
                                      else value).value);
    }
    hide Split, IndexOf, Unpack;
  }

  lemma UnpackMeaning(text: string)
    ensures var r := Unpack(text);
      && (r.rendered <==> forall v <- r.values :: v != "")
      && if IndexOf(text, ";;;;").None? then r.values == [text]
         else r.values != [] && r.values + [Last(Split(text, ";;;;"))] == Split(text, ";;;;")
  {
    hide Split, IndexOf;
    JoinSplit(text, ";;;;");
    if IndexOf(text, ";;;;").Some? { SplitTwice(text, ";;;;"); }
    assert text in [text];
  }

  function Last(pieces: seq<string>): string { if pieces == [] then "" else pieces[|pieces| - 1] }

  lemma SplitTwice(s: string, delimiter: string)
    requires delimiter != "" && IndexOf(s, delimiter).Some?
    ensures |Split(s, delimiter)| >= 2
  {
    SplitNext(s, delimiter);
    JoinSplit(s[IndexOf(s, delimiter).value + |delimiter|..], delimiter);
    hide Split, IndexOf;
  }

  /** A requirement is an error if its key is not in the scope domain, its operator is unknown, its values are missing,
      or a template fails. Otherwise an unrendered template gives the limiter's default; and with everything rendered
      the operator decides on all values together, if the scan has the annotation. */
  lemma RequirementMeaning(lib: Libraries, l: Limiter, annotations: map<string, string>, req: Requirement)
    ensures var renders := if req.values.Some? then TemplateValues(lib, req.values.value) else None;
            var answer := Validate(lib, l, annotations, req);
      if !("scope.cascading.securecodebox.io/" <= req.key) || req.operator == Unknown || renders.None?
          then answer == None
      else if exists r <- renders.value :: !r.rendered then answer == Some(l.validOnMissingRender)
      else if req.key !in annotations then answer == None
      else answer == Apply(lib, req.operator, annotations[req.key], Flatten(renders.value))
  {
    hide Apply, TemplateValues, Flatten;
  }

  /** Template values: one for each template, in order, unless one of them fails; their values are taken together. */
  lemma {:induction false} TemplatesMeaning(lib: Libraries, values: seq<string>)
    ensures TemplateValues(lib, values).None? <==> exists v <- values :: TemplateValue(lib, v).None?
    ensures TemplateValues(lib, values).Some? ==>
              var renders := TemplateValues(lib, values).value;
              && |renders| == |values|
              && (forall i :: 0 <= i < |values| ==> TemplateValue(lib, values[i]) == Some(renders[i]))
              && (forall x :: x in Flatten(renders) <==> exists r <- renders :: x in r.values)
  {
    hide TemplateValue;
    if values != [] {
      TemplatesMeaning(lib, values[1..]);
      assert values[0] in values && forall v :: v in values <==> v == values[0] || v in values[1..];
      if TemplateValues(lib, values).Some? {
        var first, rest := TemplateValue(lib, values[0]).value, TemplateValues(lib, values[1..]).value;
        assert ([first] + rest)[1..] == rest;
        assert forall r :: r in [first] + rest <==> r == first || r in rest;
      }
    }
  }
}
