/** Rendering a label selector as the string the Kubernetes API takes.
    Models hooks/cascading-scans/hook/kubernetes-label-selector.ts. */
module LabelSelector {
  import opened Options
  import opened Text

  datatype Expression = Expression(key: string, operator: string, values: seq<string>)

  /** One comma-separated requirement: a label, or an expression. */
  datatype Requirement = Label(key: string, value: string) | Expr(expression: Expression)

  /** The requirements of a selector, labels first; a JavaScript object keeps its labels in some order. */
  type Requirements = seq<Requirement>

  // ---------------------------------------------------------------- printing

  /** None is the exception for an unknown operator. */
  function GenerateExpression(x: Expression): Option<string> {
    if x.operator == "In" then Some(x.key + " " + "in (" + Join(x.values, ",") + ")")
    else if x.operator == "NotIn" then Some(x.key + " " + "notin (" + Join(x.values, ",") + ")")
    else if x.operator == "Exists" then Some(x.key)
    else if x.operator == "DoesNotExist" then Some("!" + x.key)
    else None
  }

  function Generate(r: Requirement): Option<string> {
    match r
    case Label(key, value) => Some(key + "=" + value)
    case Expr(x) => GenerateExpression(x)
  }

  function GenerateAll(rs: Requirements): Option<seq<string>> {
    if rs == [] then Some([])
    else match (Generate(rs[0]), GenerateAll(rs[1..]))
      case (Some(first), Some(rest)) => Some([first] + rest)
      case _ => None
  }

  function LabelsOf(matchLabels: seq<(string, string)>): Requirements {
    seq(|matchLabels|, i requires 0 <= i < |matchLabels| => Label(matchLabels[i].0, matchLabels[i].1))
  }

  function ExpressionsOf(matchExpressions: seq<Expression>): Requirements {
    seq(|matchExpressions|, i requires 0 <= i < |matchExpressions| => Expr(matchExpressions[i]))
  }

  function GenerateSelectorString(matchLabels: seq<(string, string)>,
                                  matchExpressions: seq<Expression>): Option<string> {
    match GenerateAll(LabelsOf(matchLabels) + ExpressionsOf(matchExpressions))
    case None => None
    case Some(parts) => Some(Join(parts, ","))
  }

  // ---------------------------------------------------------------- a reference parser

  /** The length of the first requirement: up to a comma outside parentheses. */
  function FirstLength(s: string, inside: bool): (n: nat)
    ensures n <= |s|
  {
    if s == "" || (s[0] == ',' && !inside) then 0
    else 1 + FirstLength(s[1..], if s[0] == '(' then true else if s[0] == ')' then false else inside)
  }

  function ParseValues(key: string, operator: string, s: string, prefix: string): Option<Requirement> {
    if prefix <= s && |prefix| < |s| && s[|s| - 1] == ')'
    then Some(Expr(Expression(key, operator, Split(s[|prefix|..|s| - 1], ",")))) else None
  }

  function Parse(s: string): Option<Requirement> {
    match IndexOf(s, "=")
    case Some(i) => Some(Label(s[..i], s[i + 1..]))
    case None =>
      match IndexOf(s, " ")
      case Some(i) =>
        var inSet := ParseValues(s[..i], "In", s[i + 1..], "in (");
        if inSet.Some? then inSet else ParseValues(s[..i], "NotIn", s[i + 1..], "notin (")
      case None => if "!" <= s then Some(Expr(Expression(s[1..], "DoesNotExist", [])))
          else Some(Expr(Expression(s, "Exists", [])))
  }

  function ParseParts(s: string): Option<Requirements>
    decreases |s|
  {
    var n := FirstLength(s, false);
    match Parse(s[..n])
    case None => None
    case Some(r) =>
      if n == |s| then Some([r])
      else match ParseParts(s[n + 1..]) case None => None case Some(rs) => Some([r] + rs)
  }

  function ParseSelector(s: string): Option<Requirements> { if s == "" then Some([]) else ParseParts(s) }

  // ---------------------------------------------------------------- round trip

  /** No character with a meaning in selector strings; label keys and values have none of them. */
  ghost predicate Plain(s: string) {
    forall c <- s :: c != ',' && c != '=' && c != ' ' && c != '(' && c != ')' && c != '!'
  }

  ghost predicate ValidExpression(x: Expression) {
    && x.key != "" && Plain(x.key)
    && (x.operator == "In" || x.operator == "NotIn" ==> x.values != [] && forall v <- x.values :: Plain(v))
    && (x.operator == "Exists" || x.operator == "DoesNotExist" ==> x.values == [])
  }

  ghost predicate Valid(r: Requirement) {
    match r
    case Label(key, value) => key != "" && Plain(key) && Plain(value)
    case Expr(x) => ValidExpression(x)
  }

  lemma {:induction false} FirstLengthOver(p: string, t: string, inside: bool)
    requires forall c <- p :: c != '(' && c != ')' && (inside || c != ',')
    ensures FirstLength(p + t, inside) == |p| + FirstLength(t, inside)
  {
    if p == "" {
      assert p + t == t;
    } else {
      assert (p + t)[0] == p[0] && (p + t)[1..] == p[1..] + t && p[0] in p;
      forall c | c in p[1..] ensures c in p {}
      FirstLengthOver(p[1..], t, inside);
    }
  }

  /** What follows a requirement: nothing, or a comma. */
  ghost predicate Ends(t: string) { t == "" || t[0] == ',' }

  lemma {:induction false} JoinChars(items: seq<string>)
    requires forall x <- items :: Plain(x)
    ensures forall c <- Join(items, ",") :: c == ',' || (c != '=' && c != ' ' && c != '(' && c != ')' && c != '!')
  {
    if items != [] {
      assert items[0] in items;
      JoinChars(items[1..]);
    }
  }

  lemma SetLength(key: string, word: string, values: string, t: string)
    requires Plain(key) && (word == " in " || word == " notin ") && Ends(t)
    requires forall c <- values :: c != '(' && c != ')'
    ensures FirstLength(key + word + "(" + values + ")" + t, false) == |key + word + "(" + values + ")"|
  {
    assert forall c <- word :: c != '(' && c != ')' && c != ',';
    var a, b := key + word, values;
    FirstLengthOver(a, "(" + (b + (")" + t)), false);
    assert a + ("(" + (b + (")" + t))) == key + word + "(" + values + ")" + t;
    assert ("(" + (b + (")" + t)))[1..] == b + (")" + t);
    FirstLengthOver(b, ")" + t, true);
    assert (")" + t)[1..] == t;
  }

  lemma FirstLengthOfOne(r: Requirement, t: string)
    requires Valid(r) && Generate(r).Some? && Ends(t)
    ensures FirstLength(Generate(r).value + t, false) == |Generate(r).value| && Generate(r).value != ""
  {
    var s := Generate(r).value;
    if r.Expr? && (r.expression.operator == "In" || r.expression.operator == "NotIn") {
      var x := r.expression;
      var word := if x.operator == "In" then " in " else " notin ";
      JoinChars(x.values);
      SetLength(x.key, word, Join(x.values, ","), t);
      assert s == x.key + word + "(" + Join(x.values, ",") + ")";
    } else {
      FirstLengthOver(s, t, false);
    }
  }

  lemma FirstIndex(before: string, c: char, after: string)
    requires c !in before
    ensures IndexOf(before + [c] + after, [c]) == Some(|before|)
  {
    WithoutCharIsClean(before, c);
    DelimiterFound(before, [c], after);
  }

  lemma NoIndex(s: string, c: char)
    requires c !in s
    ensures IndexOf(s, [c]) == None
  {
    WithoutCharIsClean(s, c);
    CleanAlone(s, [c]);
  }

  lemma ParseSet(x: Expression, prefix: string)
    requires ValidExpression(x) && (x.operator == "In" || x.operator == "NotIn")
    requires prefix == if x.operator == "In" then "in (" else "notin ("
    ensures Parse(x.key + " " + prefix + Join(x.values, ",") + ")") == Some(Expr(x))
  {
    var s, tail := x.key + " " + prefix + Join(x.values, ",") + ")", prefix + Join(x.values, ",") + ")";
    JoinChars(x.values);
    NoIndex(s, '=');
    assert s == x.key + " " + tail;
    FirstIndex(x.key, ' ', tail);
    ParseSetValues(x, prefix);
    hide IndexOf, ParseValues, Join;
    assert s[..|x.key|] == x.key && s[|x.key| + 1..] == tail;
  }

  lemma ParseSetValues(x: Expression, prefix: string)
    requires ValidExpression(x) && (x.operator == "In" || x.operator == "NotIn")
    requires prefix == if x.operator == "In" then "in (" else "notin ("
    ensures ParseValues(x.key, x.operator, prefix + Join(x.values, ",") + ")", prefix) == Some(Expr(x))
    ensures x.operator == "NotIn" ==> ParseValues(x.key, "In", prefix + Join(x.values, ",") + ")", "in (") == None
  {
    var s := prefix + Join(x.values, ",") + ")";
    assert s[|prefix|..|s| - 1] == Join(x.values, ",");
    forall v | v in x.values ensures Clean(v, ",") { WithoutCharIsClean(v, ','); }
    SplitJoin(x.values, ",");
    hide Join, Split;
    if x.operator == "NotIn" { assert s[0] == 'n' && "in ("[0] == 'i'; }
  }

  lemma ParseOne(r: Requirement)
    requires Valid(r) && Generate(r).Some?
    ensures Parse(Generate(r).value) == Some(r)
  {
    var s := Generate(r).value;
    match r
    case Label(key, value) =>
      FirstIndex(key, '=', value);
      assert s[..|key|] == key && s[|key| + 1..] == value;
    case Expr(x) =>
      if x.operator == "In" {
        ParseSet(x, "in (");
      } else if x.operator == "NotIn" {
        ParseSet(x, "notin (");
      } else {
        NoIndex(s, '=');
        NoIndex(s, ' ');
        if x.operator == "Exists" { assert s[0] in s; }
      }
  }

  lemma LastPart(r: Requirement)
    requires Valid(r) && Generate(r).Some?
    ensures Generate(r).value != "" && ParseParts(Generate(r).value) == Some([r])
  {
    var s := Generate(r).value;
    ParseOne(r);
    FirstLengthOfOne(r, "");
    hide Generate, Parse, Valid;
    assert s + "" == s && s[..|s|] == s;
  }

  lemma NextPart(r: Requirement, rest: string, rs: Requirements)
    requires Valid(r) && Generate(r).Some? && ParseParts(rest) == Some(rs)
    ensures ParseParts(Generate(r).value + "," + rest) == Some([r] + rs)
  {
    var part := Generate(r).value;
    ParseOne(r);
    FirstLengthOfOne(r, "," + rest);
    hide Generate, Parse, Valid, FirstLength;
    var s := part + "," + rest;
    assert s == part + ("," + rest);
    assert s[|part| + 1..] == rest && s[..|part|] == part;
  }

  /** The reference parser recovers every well-formed selector that can be printed. */
  lemma {:induction false} PartsRoundTrip(rs: Requirements)
    requires rs != [] && (forall r <- rs :: Valid(r)) && GenerateAll(rs).Some?
    ensures Join(GenerateAll(rs).value, ",") != "" && ParseParts(Join(GenerateAll(rs).value, ",")) == Some(rs)
  {
    hide Valid, Generate, ParseParts;
    assert rs[0] in rs;
    if |rs| == 1 {
      LastPart(rs[0]);
      assert rs == [rs[0]];
    } else {
      var rest := GenerateAll(rs[1..]).value;
      PartsRoundTrip(rs[1..]);
      NextPart(rs[0], Join(rest, ","), rs[1..]);
      assert rest != [] && ([Generate(rs[0]).value] + rest)[1..] == rest;
      assert rs == [rs[0]] + rs[1..];
    }
  }

  lemma RoundTrip(matchLabels: seq<(string, string)>, matchExpressions: seq<Expression>)
    requires forall r <- LabelsOf(matchLabels) + ExpressionsOf(matchExpressions) :: Valid(r)
    requires GenerateSelectorString(matchLabels, matchExpressions).Some?
    ensures ParseSelector(GenerateSelectorString(matchLabels, matchExpressions).value) ==
            Some(LabelsOf(matchLabels) + ExpressionsOf(matchExpressions))
  {
    var rs := LabelsOf(matchLabels) + ExpressionsOf(matchExpressions);
    if rs != [] { PartsRoundTrip(rs); }
  }

  lemma {:induction false} SplitsInOneWay(labels: seq<(string, string)>, expressions: seq<Expression>,
                                          labels': seq<(string, string)>, expressions': seq<Expression>)
    requires LabelsOf(labels) + ExpressionsOf(expressions) == LabelsOf(labels') + ExpressionsOf(expressions')
    ensures labels == labels' && expressions == expressions'
  {
    var rs := LabelsOf(labels) + ExpressionsOf(expressions);
    assert rs == LabelsOf(labels') + ExpressionsOf(expressions');
    forall k | 0 <= k < |rs| ensures rs[k].Label? <==> k < |labels| {}
    forall k | 0 <= k < |rs| ensures rs[k].Label? <==> k < |labels'| {}
    var k := if |labels| < |labels'| then |labels| else |labels'|;
    assert k < |rs| ==> (rs[k].Label? <==> k < |labels|);
    assert |labels| == |labels'| && |expressions| == |expressions'|;
    forall i | 0 <= i < |labels| ensures labels[i] == labels'[i]
    {
      assert rs[i] == LabelsOf(labels)[i] == LabelsOf(labels')[i];
    }
    forall i | 0 <= i < |expressions| ensures expressions[i] == expressions'[i] {
      assert rs[|labels| + i] == ExpressionsOf(expressions)[i] == ExpressionsOf(expressions')[i];
    }
  }

  /** Two well-formed selectors with the same string are the same selector. */
  lemma Injective(labels: seq<(string, string)>, expressions: seq<Expression>, labels': seq<(string, string)>,
                  expressions': seq<Expression>)
    requires forall r <- LabelsOf(labels) + ExpressionsOf(expressions) :: Valid(r)
    requires forall r <- LabelsOf(labels') + ExpressionsOf(expressions') :: Valid(r)
    requires GenerateSelectorString(labels, expressions).Some?
    requires GenerateSelectorString(labels, expressions) == GenerateSelectorString(labels', expressions')
    ensures labels == labels' && expressions == expressions'
  {
    RoundTrip(labels, expressions);
    RoundTrip(labels', expressions');
    SplitsInOneWay(labels, expressions, labels', expressions');
  }

  /** Printing fails exactly for an operator that Kubernetes does not have. */
  lemma {:induction false} FailsForUnknownOperators(rs: Requirements)
    ensures GenerateAll(rs).None? <==> exists r <- rs ::
              r.Expr? && r.expression.operator !in ["In", "NotIn", "Exists", "DoesNotExist"]
  {
    if rs != [] {
      FailsForUnknownOperators(rs[1..]);
      assert rs == [rs[0]] + rs[1..];
    }
  }

  /** The requirements as the Kubernetes API takes them, labels first, separated by commas. */
  lemma SelectorText(matchLabels: seq<(string, string)>, matchExpressions: seq<Expression>)
    requires forall x <- matchExpressions :: x.operator in {"In", "NotIn", "Exists", "DoesNotExist"}
    ensures exists parts: seq<string> ::
              && |parts| == |matchLabels| + |matchExpressions|
              && GenerateSelectorString(matchLabels, matchExpressions) == Some(Join(parts, ","))
              && (forall i :: 0 <= i < |matchLabels| ==> parts[i] == matchLabels[i].0 + "=" + matchLabels[i].1)
              && forall i :: 0 <= i < |matchExpressions| ==>
                 ExpressionText(matchExpressions[i], parts[|matchLabels| + i])
  {
    var rs := LabelsOf(matchLabels) + ExpressionsOf(matchExpressions);
    forall r | r in rs ensures Generate(r).Some? {
      var i :| 0 <= i < |rs| && rs[i] == r;
      if i >= |matchLabels| { assert matchExpressions[i - |matchLabels|] in matchExpressions; }
    }
    GeneratedParts(rs);
    var parts := GenerateAll(rs).value;
    hide GenerateAll, Join;
    forall i | 0 <= i < |matchLabels| ensures parts[i] == matchLabels[i].0 + "=" + matchLabels[i].1 {
      assert Generate(rs[i]) == Some(parts[i]);
    }
    forall i | 0 <= i < |matchExpressions| ensures ExpressionText(matchExpressions[i], parts[|matchLabels| + i]) {
      assert Generate(rs[|matchLabels| + i]) == Some(parts[|matchLabels| + i]);
      assert matchExpressions[i] in matchExpressions;
      ExpressionPrinted(matchExpressions[i]);
    }
  }

  ghost predicate ExpressionText(x: Expression, text: string) {
    && (x.operator == "In" ==> text == x.key + " in (" + Join(x.values, ",") + ")")
    && (x.operator == "NotIn" ==> text == x.key + " notin (" + Join(x.values, ",") + ")")
    && (x.operator == "Exists" ==> text == x.key)
    && (x.operator == "DoesNotExist" ==> text == "!" + x.key)
  }

  lemma ExpressionPrinted(x: Expression)
    requires x.operator in {"In", "NotIn", "Exists", "DoesNotExist"}
    ensures GenerateExpression(x).Some? && ExpressionText(x, GenerateExpression(x).value)
  {
    hide Join;
    assert " " + "in (" == " in (" && " " + "notin (" == " notin (";
    var values := Join(x.values, ",");
    assert x.key + " " + "in (" + values + ")" == x.key + " in (" + values + ")";
    assert x.key + " " + "notin (" + values + ")" == x.key + " notin (" + values + ")";
    assert |"In"| < |"NotIn"| < |"Exists"| < |"DoesNotExist"|;
  }

  lemma {:induction false} GeneratedParts(rs: Requirements)
    requires forall r <- rs :: Generate(r).Some?
    ensures GenerateAll(rs).Some? && |GenerateAll(rs).value| == |rs|
    ensures forall i :: 0 <= i < |rs| ==> Generate(rs[i]) == Some(GenerateAll(rs).value[i])
  {
    hide Generate;
    if rs != [] {
      assert rs[0] in rs;
      GeneratedParts(rs[1..]);
    }
  }

  /** Without the condition on value lists the string is ambiguous: no value, and one empty value, print alike. */
  lemma EmptyValueListIsAmbiguous(key: string)
    ensures GenerateSelectorString([], [Expression(key, "In", [])]) ==
            GenerateSelectorString([], [Expression(key, "In", [""])])
  {
    var none, empty := ExpressionsOf([Expression(key, "In", [])]), ExpressionsOf([Expression(key, "In", [""])]);
    assert LabelsOf([]) + none == none && LabelsOf([]) + empty == empty;
    assert Generate(none[0]) == Generate(empty[0]);
    assert none[1..] == [] && empty[1..] == [];
    assert GenerateAll(none) == GenerateAll(empty);
  }
}
