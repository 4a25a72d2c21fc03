/** How far the scope of a cascade depends on the aliases of each scan's parse definition. */
module CascadeScope {
  import opened Options
  import opened Text
  import opened ScopeLimiter
  import R = ScopeRendering
  import opened CascadingScans
  import opened CascadeTree

  /** A scan's own decision, with the aliases of the parse definition for its results. */
  ghost function InScope(c: Cluster, scan: Scan, finding: Finding): Option<bool> {
    IsInScope(c.environment.libraries(Aliased(c, scan), finding), scan.cascades.scopeLimiter, scan.annotations)
  }

  /** So a finding keeps its scope on the way down as long as the aliases are the same. */
  lemma SameAliasesSameScope(c: Cluster, scan: Scan, depth: nat, x: Scan, finding: Finding)
    requires WellFormed(c) && x in Descendants(c, scan, depth) && Aliased(c, x) == Aliased(c, scan)
    ensures InScope(c, x, finding) == InScope(c, scan, finding)
  {
    ScopeNeverWidens(c, scan, depth, x, c.environment.libraries(Aliased(c, scan), finding));
  }

  /** It is enough that the aliases make the same of every template for this finding. */
  lemma SameRenderingSameScope(c: Cluster, scan: Scan, depth: nat, x: Scan, finding: Finding)
    requires WellFormed(c) && x in Descendants(c, scan, depth)
    requires var e := c.environment;
      R.DifferInAliases(e.libraries(Aliased(c, scan), finding), e.libraries(Aliased(c, x), finding)) &&
      R.RenderAlike(e.libraries(Aliased(c, scan), finding), e.libraries(Aliased(c, x), finding))
    ensures InScope(c, x, finding) == InScope(c, scan, finding)
  {
    var own, other := c.environment.libraries(Aliased(c, scan), finding),
        c.environment.libraries(Aliased(c, x), finding);
    ScopeNeverWidens(c, scan, depth, x, other);
    hide WellFormed, Descendants, IsInScope, R.RenderAlike, Aliased;
    R.AlikeDecides(own, other);
  }

  /** Two alias tables always lead to the same decision: for any limiter and annotations, whatever Mustache makes of
      them. */
  ghost predicate DecideAlike(a: Aliases, b: Aliases, finding: Finding) {
    forall libraries: (Aliases, Finding) -> Libraries, limiter, annotations ::
      IsInScope(libraries(a, finding), limiter, annotations) == IsInScope(libraries(b, finding), limiter, annotations)
  }

  /** Nothing weaker than equal aliases is enough for that: different scan types come with different aliases, and the
      same finding can be out of scope for a scan and in scope for its follow-up scan. */
  lemma ScopeIsSharedExactlyForEqualAliases(a: Aliases, b: Aliases, finding: Finding)
    ensures DecideAlike(a, b, finding) <==> a == b
  {
    if a != b { DifferentAliases(a, b, finding); }
  }

  function Rendering(a: Aliases): (Aliases, Finding) -> Libraries {
    (aliases, f) => RenderedTo(if aliases == a then "a" else "b")
  }

  function RenderedTo(text: string): Libraries {
    Libraries(v => Some(text), v => Some(v), v => None, v => None, (x, y) => false)
  }

  lemma DifferentAliases(a: Aliases, b: Aliases, finding: Finding)
    requires a != b
    ensures !DecideAlike(a, b, finding)
  {
    var libraries := Rendering(a);
    assert libraries(a, finding) == RenderedTo("a") && libraries(b, finding) == RenderedTo("b");
    LimitedToA(RenderedTo("a"), "a");
    LimitedToA(RenderedTo("b"), "b");
    hide IsInScope, RenderedTo, Rendering;
    assert "a"[0] != "b"[0];
    assert IsInScope(libraries(a, finding), Some(LIMITED_TO_A), map[REQUIRED_A.key := "a"]) !=
           IsInScope(libraries(b, finding), Some(LIMITED_TO_A), map[REQUIRED_A.key := "a"]);
  }

  const REQUIRED_A := Requirement(SCOPE_DOMAIN + "k", In, Some(["v"]))
  const LIMITED_TO_A := Limiter(false, None, Some([REQUIRED_A]), None)

  lemma OneValue(lib: Libraries, value: string, r: Rendered)
    requires TemplateValue(lib, value) == Some(r)
    ensures TemplateValues(lib, [value]) == Some([r])
  {
    hide TemplateValue;
    assert [value][1..] == [] && TemplateValues(lib, [value][1..]) == Some([]);
    assert [r] + [] == [r];
  }

  /** A limiter that asks for the text "a" tells two renderings of an alias apart. */
  lemma LimitedToA(lib: Libraries, text: string)
    requires lib.renderAlias("v") == Some(text) && lib.renderFinding(text) == Some(text) && |text| == 1
    ensures IsInScope(lib, Some(LIMITED_TO_A), map[REQUIRED_A.key := "a"]) == Some(text == "a")
  {
    var annotations := map[REQUIRED_A.key := "a"];
    assert IndexOf(text, LIST_DELIMITER).None?;
    assert TemplateValue(lib, "v") == Some(Rendered([text], true));
    OneValue(lib, "v", Rendered([text], true));
    assert [Rendered([text], true)][1..] == [] && Flatten([Rendered([text], true)]) == [text];
    hide TemplateValues, Flatten;
    assert Validate(lib, LIMITED_TO_A, annotations, REQUIRED_A) == Some(text == "a");
    var test := (r: Requirement) => Validate(lib, LIMITED_TO_A, annotations, r);
    assert test(REQUIRED_A) == Some(text == "a");
    hide Validate;
    assert [REQUIRED_A][1..] == [];
    assert Every([REQUIRED_A], test) == test(REQUIRED_A);
  }

  // ---------------------------------------------------------------- a cascade in which scope widens

  const PLAIN := Settings("nmap", [], None, None, None, None, None, None, None)
  const INHERITED := Inheritance(Some(LIMITED_TO_A), None, None, None, None, None, None, None, None)

  /** A scan limited to "a", and one rule that starts a scan of another type for every finding in scope. */
  const ROOT := Scan("root", map[REQUIRED_A.key := "a"], map[], INHERITED, PLAIN, None)
  const RULE := Rule("rule", PLAIN.(scanType := "subfinder"), None, None)
  const IN_SCOPE := Finding("1", "a")
  const OUT_OF_SCOPE := Finding("2", "b")

  /** Only the parse definition of the second scan type has an alias, and it renders to "a". */
  function TwoScanTypes(): Cluster {
    Cluster(
      Environment((s, f, text) => text, (r, f) => true,
                  (aliases, f: Finding) => RenderedTo(if aliases == map[] then f.content else "a")),
      map[RULE.name := RULE], [RULE], s => [IN_SCOPE],
      (s: Scan) => Some(if s.settings.scanType == "nmap" then map[] else map["hostname" := "{{attributes.name}}"]),
      (s, i) => "child")
  }

  function FollowUp(): Scan {
    GetCascadingScan(TwoScanTypes().environment, ROOT, IN_SCOPE, RULE).(name := "child")
  }

  /** A finding out of scope for a scan is in scope for its follow-up scan, which has another scan type and other
      aliases. */
  lemma ScopeCanWiden()
    ensures WellFormed(TwoScanTypes()) && FollowUp() in Children(TwoScanTypes(), ROOT)
    ensures InScope(TwoScanTypes(), ROOT, OUT_OF_SCOPE) == Some(false)
    ensures InScope(TwoScanTypes(), FollowUp(), OUT_OF_SCOPE) == Some(true)
  {
    hide *;
    ExampleIsWellFormed();
    FollowUpStarts();
    RootDecides();
    FollowUpDecides();
  }

  lemma ExampleIsWellFormed()
    ensures WellFormed(TwoScanTypes())
  {}

  lemma RootDecides()
    ensures InScope(TwoScanTypes(), ROOT, OUT_OF_SCOPE) == Some(false)
  {
    LimitedToA(RenderedTo("b"), "b");
    assert "b"[0] != "a"[0];
    hide IsInScope;
  }

  lemma FollowUpStarts()
    ensures Children(TwoScanTypes(), ROOT) == [FollowUp()]
  {
    var c := TwoScanTypes();
    assert Chain(ROOT) == [];
    hide GetCascadingScan, ScansForRules, IsInScope;
    LimitedToA(RenderedTo("a"), "a");
    TriggeredScan(c.environment, ROOT, IN_SCOPE, RULE);
    var scan := GetCascadingScan(c.environment, ROOT, IN_SCOPE, RULE);
    assert Purged(ROOT.settings, None) == ROOT.settings;
    assert Started(c, ROOT) == [scan];
    hide Started;
    assert [scan][1..] == [] && Named(c, ROOT, [scan][1..], 1) == [];
  }

  lemma FollowUpDecides()
    ensures InScope(TwoScanTypes(), FollowUp(), OUT_OF_SCOPE) == Some(true)
  {
    var c := TwoScanTypes();
    LimitedToA(RenderedTo("a"), "a");
    ScopeIsKept(c.environment, ROOT, IN_SCOPE, RULE);
    ScopeDecidesAlone(RenderedTo("a"), Some(LIMITED_TO_A), FollowUp().annotations, ROOT.annotations);
    assert FollowUp().settings.scanType == "subfinder" && FollowUp().cascades == INHERITED;
    hide GetCascadingScan, FollowUp, IsInScope;
    assert "subfinder"[0] != "nmap"[0];
    var aliases := map["hostname" := "{{attributes.name}}"];
    assert Aliased(c, FollowUp()) == aliases;
    assert "hostname" in aliases && aliases != map[];
    assert c.environment.libraries(aliases, OUT_OF_SCOPE) == RenderedTo("a");
  }

  /** One rule, one finding that triggers it: one scan. */
  lemma TriggeredScan(e: Environment, parent: Scan, finding: Finding, rule: Rule)
    requires Triggers(e, map[], parent, finding, rule) && !AddsScope(rule)
    ensures ScansForRules(e, map[], parent, [finding], [rule], []) == Some([GetCascadingScan(e, parent, finding, rule)])
  {
    hide IsInScope, GetCascadingScan, AddsScope;
    var scans := [GetCascadingScan(e, parent, finding, rule)];
    assert [finding][1..] == [] && [rule][1..] == [];
    ConcatUnit(Some(scans));
    assert ScansForFindings(e, map[], parent, [finding], rule) ==
           Concat(Some(scans), ScansForFindings(e, map[], parent, [finding][1..], rule));
    assert ScansForRules(e, map[], parent, [finding], [rule], []) ==
           Concat(ScansForRule(e, map[], parent, [finding], rule, []),
                  ScansForRules(e, map[], parent, [finding], [rule][1..], []));
  }
}
