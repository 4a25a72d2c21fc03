/** Listing the repositories of a GitHub organization, page by page, with an early stop.
    Models scanners/git-repo-scanner/scanner/internal/git_repo_scanner/github_repo_scanner.go. */
module GithubScan {
  import opened Options

  datatype Repository = Repository(id: int, pushedAt: int, fullName: string)

  /** `finding` is the finding made from a repository; `limitFails` says that asking for the rate limit after it
      fails. */
  datatype Scanner = Scanner(ignoreRepos: set<int>, finding: Repository -> string, limitFails: Repository -> bool)

  /** The API's pages for one sort direction, the first at index 0; None is an error. */
  type Pages = seq<Option<seq<Repository>>>

  datatype Api = Api(organizationFound: bool, ascending: Pages, descending: Pages)

  datatype Frame = Frame(start: Option<int>, end: Option<int>)

  predicate InFrame(pushedAt: int, f: Frame) {
    (f.start.Some? ==> pushedAt >= f.start.value) && (f.end.Some? ==> pushedAt <= f.end.value)
  }

  // ---------------------------------------------------------------- specification of the early-stopping scan

  datatype PageScan = PageScan(findings: seq<string>, go: bool, err: bool)

  function ScanPage(g: Scanner, repos: seq<Repository>, f: Frame): PageScan {
    if repos == [] then PageScan([], true, false)
    else if repos[0].id in g.ignoreRepos then ScanPage(g, repos[1..], f)
    else if !InFrame(repos[0].pushedAt, f) then PageScan([], false, false)
    else if g.limitFails(repos[0]) then PageScan([g.finding(repos[0])], false, true)
    else After([g.finding(repos[0])], ScanPage(g, repos[1..], f))
  }

  function After(findings: seq<string>, rest: PageScan): PageScan { rest.(findings := findings + rest.findings) }

  function ScanPages(g: Scanner, pages: Pages, f: Frame): Option<seq<string>> {
    if pages == [] then Some([])
    else if pages[0].None? then None
    else
      var page := ScanPage(g, pages[0].value, f);
      if page.err then None
      else if !page.go then Some(page.findings)
      else Prepend(page.findings, ScanPages(g, pages[1..], f))
  }

  function Prepend(findings: seq<string>, rest: Option<seq<string>>): Option<seq<string>> {
    match rest case None => None case Some(more) => Some(findings + more)
  }

  function PagesFor(api: Api, f: Frame): Pages { if f.start.Some? then api.descending else api.ascending }

  // ---------------------------------------------------------------- the program

  /** checkRepoIsInTimeFrame */
  method CheckRepoIsInTimeFrame(pushedAt: int, f: Frame) returns (inFrame: bool)
    ensures inFrame <==> InFrame(pushedAt, f)
    ensures inFrame <==> (f.start.Some? ==> f.start.value <= pushedAt) && (f.end.Some? ==> pushedAt <= f.end.value)
  {
    if f.start.Some? && pushedAt < f.start.value { return false; }
    if f.end.Some? && pushedAt > f.end.value { return false; }
    return true;
  }

  method ProcessReposPage(g: Scanner, repos: seq<Repository>, f: Frame)
      returns (findings: seq<string>, shouldContinue: bool, err: bool)
    ensures PageScan(findings, shouldContinue, err) == ScanPage(g, repos, f)
  {
    findings := [];
    assert repos[0..] == repos;
    assert forall s: PageScan :: After([], s).findings == s.findings;
    for i := 0 to |repos|
      invariant ScanPage(g, repos, f) == After(findings, ScanPage(g, repos[i..], f))
    {
      assert repos[i..][0] == repos[i] && repos[i..][1..] == repos[i + 1..];
      if repos[i].id in g.ignoreRepos { continue; }
      var inFrame := CheckRepoIsInTimeFrame(repos[i].pushedAt, f);
      if (f.start.Some? || f.end.Some?) && !inFrame { return findings, false, false; }
      AfterTwice(findings, [g.finding(repos[i])], ScanPage(g, repos[i + 1..], f));
      findings := findings + [g.finding(repos[i])];
      if g.limitFails(repos[i]) { return findings, false, true; }
    }
    return findings, true, false;
  }

  lemma AfterTwice(a: seq<string>, b: seq<string>, rest: PageScan)
    ensures After(a, After(b, rest)) == After(a + b, rest)
  {
    assert a + (b + rest.findings) == (a + b) + rest.findings;
  }

  /** The paging loop, newest first if a start is given and oldest first otherwise; None is an error. */
  method ProcessRepos(g: Scanner, api: Api, f: Frame) returns (r: Option<seq<string>>)
    requires PagesFor(api, f) != []
    ensures r == if api.organizationFound then ScanPages(g, PagesFor(api, f), f) else None
    ensures api.organizationFound ==>
              r == ScanPages(g, if f.start.Some? then api.descending else api.ascending, f)
  {
    if !api.organizationFound { return None; }
    var pages := if f.start.Some? then api.descending else api.ascending;
    var findings: seq<string> := [];
    var page := 0;
    assert pages[0..] == pages;
    PrependNothing(ScanPages(g, pages, f));
    while true
      invariant page < |pages|
      invariant ScanPages(g, pages, f) == Prepend(findings, ScanPages(g, pages[page..], f))
      decreases |pages| - page
    {
      assert pages[page..][0] == pages[page] && pages[page..][1..] == pages[page + 1..];
      if pages[page].None? { return None; }
      var found, shouldContinue, err := ProcessReposPage(g, pages[page].value, f);
      if err { return None; }
      PrependTwice(findings, found, ScanPages(g, pages[page + 1..], f));
      findings := findings + found;
      if !shouldContinue || page + 1 == |pages| { break; }
      page := page + 1;
    }
    return Some(findings);
  }

  lemma PrependNothing(rest: Option<seq<string>>)
    ensures Prepend([], rest) == rest
  {
    if rest.Some? { assert [] + rest.value == rest.value; }
  }

  lemma PrependTwice(a: seq<string>, b: seq<string>, rest: Option<seq<string>>)
    ensures Prepend(a, Prepend(b, rest)) == Prepend(a + b, rest)
    ensures Prepend(a + b, Some([])) == Some(a + b)
  {
    if rest.Some? { assert a + (b + rest.value) == (a + b) + rest.value; }
    assert a + b + [] == a + b;
  }

  // ---------------------------------------------------------------- the plain filter

  /** Pushed between the bounds that are given, both included, and not ignored. */
  predicate Counts(g: Scanner, r: Repository, f: Frame) {
    && r.id !in g.ignoreRepos
    && (f.start.Some? ==> f.start.value <= r.pushedAt) && (f.end.Some? ==> r.pushedAt <= f.end.value)
  }

  /** The findings of all repositories that count. */
  function Wanted(g: Scanner, repos: seq<Repository>, f: Frame): seq<string> {
    if repos == [] then []
    else (if Counts(g, repos[0], f) then [g.finding(repos[0])] else []) + Wanted(g, repos[1..], f)
  }

  function All(pages: Pages): seq<Repository> {
    if pages == [] then [] else (if pages[0].Some? then pages[0].value else []) + All(pages[1..])
  }

  ghost predicate NoErrors(g: Scanner, api: Api, f: Frame) {
    && api.organizationFound && (forall r :: !g.limitFails(r))
    && forall k :: 0 <= k < |PagesFor(api, f)| ==> PagesFor(api, f)[k].Some?
  }

  /** Sorted by push time, in the requested direction. */
  ghost predicate SortedBy(repos: seq<Repository>, descending: bool) {
    forall i, j :: 0 <= i < j < |repos| ==>
      if descending then repos[i].pushedAt >= repos[j].pushedAt else repos[i].pushedAt <= repos[j].pushedAt
  }

  lemma {:induction false} ScanAppend(g: Scanner, a: seq<Repository>, b: seq<Repository>, f: Frame)
    requires forall r :: !g.limitFails(r)
    ensures !ScanPage(g, a, f).err
    ensures ScanPage(g, a + b, f) == if ScanPage(g, a, f).go then After(ScanPage(g, a, f).findings, ScanPage(g, b, f))
            else ScanPage(g, a, f)
  {
    if a == [] {
      assert a + b == b && [] + ScanPage(g, b, f).findings == ScanPage(g, b, f).findings;
    } else {
      ScanAppend(g, a[1..], b, f);
      assert (a + b)[0] == a[0] && (a + b)[1..] == a[1..] + b;
      AfterTwice([g.finding(a[0])], ScanPage(g, a[1..], f).findings, ScanPage(g, b, f));
    }
  }

  /** Paging makes no difference: the result is that of one page with everything on it. */
  lemma {:induction false} PagesAreOneList(g: Scanner, pages: Pages, f: Frame)
    requires (forall r :: !g.limitFails(r)) && forall k :: 0 <= k < |pages| ==> pages[k].Some?
    ensures ScanPages(g, pages, f) == Some(ScanPage(g, All(pages), f).findings)
  {
    if pages != [] {
      PagesAreOneList(g, pages[1..], f);
      ScanAppend(g, pages[0].value, All(pages[1..]), f);
    }
  }

  /** Whatever the order and the bounds, the early-stopping scan finds a first part of what is wanted, and nothing
      else. */
  lemma {:induction false} ScanIsSound(g: Scanner, repos: seq<Repository>, f: Frame)
    requires forall r :: !g.limitFails(r)
    ensures ScanPage(g, repos, f).findings <= Wanted(g, repos, f)
  {
    if repos != [] { ScanIsSound(g, repos[1..], f); }
  }

  lemma {:induction false} WantedMeaning(g: Scanner, repos: seq<Repository>, f: Frame)
    ensures forall x :: x in Wanted(g, repos, f) <==> exists r <- repos :: Counts(g, r, f) && x == g.finding(r)
  {
    if repos != [] {
      WantedMeaning(g, repos[1..], f);
      assert repos[0] in repos && forall r :: r in repos <==> r == repos[0] || r in repos[1..];
      hide Counts;
    }
  }

  // ---------------------------------------------------------------- where the scan ends

  /** The scan goes on after the repository. */
  predicate Passes(g: Scanner, r: Repository, f: Frame) {
    r.id in g.ignoreRepos || (Counts(g, r, f) && !g.limitFails(r))
  }

  ghost predicate AllPass(g: Scanner, repos: seq<Repository>, f: Frame) { forall r <- repos :: Passes(g, r, f) }

  /** The n-th repository is the first after which the page does not go on. */
  ghost predicate EndsAt(g: Scanner, repos: seq<Repository>, f: Frame, n: nat) {
    n < |repos| && !Passes(g, repos[n], f) && AllPass(g, repos[..n], f)
  }

  lemma {:induction false} PageGoesOn(g: Scanner, repos: seq<Repository>, f: Frame)
    requires AllPass(g, repos, f)
    ensures ScanPage(g, repos, f) == PageScan(Wanted(g, repos, f), true, false)
  {
    if repos != [] {
      assert repos[0] in repos;
      PageGoesOn(g, repos[1..], f);
    }
  }

  lemma {:induction false} PageEnds(g: Scanner, repos: seq<Repository>, f: Frame, n: nat)
    requires EndsAt(g, repos, f, n)
    ensures ScanPage(g, repos, f).err <==> Counts(g, repos[n], f)
    ensures !ScanPage(g, repos, f).go
    ensures !Counts(g, repos[n], f) ==> ScanPage(g, repos, f).findings == Wanted(g, repos[..n], f)
  {
    if n > 0 {
      assert repos[..n][0] == repos[0] && repos[..n][0] in repos[..n] && repos[..n][1..] == repos[1..][..n - 1];
      assert AllPass(g, repos[1..][..n - 1], f);
      PageEnds(g, repos[1..], f, n - 1);
    }
  }

  /** All repositories of the first k pages pass. */
  ghost predicate PagesPass(g: Scanner, pages: Pages, f: Frame, k: nat) {
    k <= |pages| && forall j :: 0 <= j < k ==> pages[j].Some? && AllPass(g, pages[j].value, f)
  }

  /** Where the scan ends decides its result: after all pages everything that counts; at an unreadable page, or after a
      repository that counts and whose rate limit cannot be read, an error that loses everything; at a repository out of
      the frame everything before it that counts. */
  lemma {:induction false} ScanMeaning(g: Scanner, pages: Pages, f: Frame, k: nat, n: nat)
    requires PagesPass(g, pages, f, k)
    ensures k == |pages| ==> ScanPages(g, pages, f) == Some(Wanted(g, All(pages), f))
    ensures k < |pages| && pages[k].None? ==> ScanPages(g, pages, f) == None
    ensures k < |pages| && pages[k].Some? && EndsAt(g, pages[k].value, f, n) ==>
              ScanPages(g, pages, f) ==
              if Counts(g, pages[k].value[n], f) then None
              else Some(Wanted(g, All(pages[..k]) + pages[k].value[..n], f))
    decreases k
  {
    hide Wanted, ScanPage;
    if k > 0 {
      var first := pages[0].value;
      PageGoesOn(g, first, f);
      assert PagesPass(g, pages[1..], f, k - 1);
      ScanMeaning(g, pages[1..], f, k - 1, n);
      WantedAppend(g, first, All(pages[1..]), f);
      if k < |pages| && pages[k].Some? && EndsAt(g, pages[k].value, f, n) {
        assert pages[..k][1..] == pages[1..][..k - 1] && pages[..k][0] == pages[0];
        WantedAppend(g, first, All(pages[1..][..k - 1]) + pages[k].value[..n], f);
        assert first + (All(pages[1..][..k - 1]) + pages[k].value[..n]) == All(pages[..k]) + pages[k].value[..n];
      }
    } else if k < |pages| && pages[k].Some? && EndsAt(g, pages[k].value, f, n) {
      PageEnds(g, pages[0].value, f, n);
      assert All(pages[..0]) + pages[0].value[..n] == pages[0].value[..n];
    } else {
      WantedNone(g, f);
    }
  }

  lemma WantedNone(g: Scanner, f: Frame)
    ensures Wanted(g, [], f) == []
  {}

  lemma {:induction false} WantedAppend(g: Scanner, a: seq<Repository>, b: seq<Repository>, f: Frame)
    ensures Wanted(g, a + b, f) == Wanted(g, a, f) + Wanted(g, b, f)
  {
    hide *;
    if a == [] {
      WantedNone(g, f);
      assert a + b == b && [] + Wanted(g, b, f) == Wanted(g, b, f);
    } else {
      WantedAppend(g, a[1..], b, f);
      assert (a + b)[0] == a[0] && (a + b)[1..] == a[1..] + b;
      WantedNext(g, a, f);
      WantedNext(g, a + b, f);
      var first := if Counts(g, a[0], f) then [g.finding(a[0])] else [];
      assert first + (Wanted(g, a[1..], f) + Wanted(g, b, f)) == first + Wanted(g, a[1..], f) + Wanted(g, b, f);
    }
  }

  lemma WantedNext(g: Scanner, repos: seq<Repository>, f: Frame)
    requires repos != []
    ensures Wanted(g, repos, f) ==
            (if Counts(g, repos[0], f) then [g.finding(repos[0])] else []) + Wanted(g, repos[1..], f)
  {}

  /** The scan always ends in one of these ways. */
  lemma {:induction false} ScanHasEnd(g: Scanner, pages: Pages, f: Frame) returns (k: nat, n: nat)
    ensures PagesPass(g, pages, f, k)
    ensures k == |pages| || pages[k].None? || EndsAt(g, pages[k].value, f, n)
  {
    k, n := 0, 0;
    if pages != [] && pages[0].Some? {
      n := PageHasEnd(g, pages[0].value, f);
      if n == |pages[0].value| {
        assert pages[0].value[..n] == pages[0].value;
        k, n := ScanHasEnd(g, pages[1..], f);
        k := k + 1;
      }
    }
  }

  lemma {:induction false} PageHasEnd(g: Scanner, repos: seq<Repository>, f: Frame) returns (n: nat)
    ensures n <= |repos| && AllPass(g, repos[..n], f) && (n < |repos| ==> EndsAt(g, repos, f, n))
  {
    n := 0;
    if repos != [] && Passes(g, repos[0], f) {
      n := PageHasEnd(g, repos[1..], f);
      assert repos[..n + 1] == [repos[0]] + repos[1..][..n];
      n := n + 1;
    }
  }

  /** Whatever the order, the bounds and the errors: nothing is reported but repositories of the list that are not
      ignored and were pushed between the bounds that are given. */
  lemma OnlyInFrame(g: Scanner, pages: Pages, f: Frame)
    requires ScanPages(g, pages, f).Some?
    ensures forall x <- ScanPages(g, pages, f).value :: exists r <- All(pages) ::
              && x == g.finding(r) && r.id !in g.ignoreRepos
              && (f.start.Some? ==> f.start.value <= r.pushedAt) && (f.end.Some? ==> r.pushedAt <= f.end.value)
  {
    var k, n := ScanHasEnd(g, pages, f);
    ScanMeaning(g, pages, f, k, n);
    WantedMeaning(g, All(pages), f);
    if k < |pages| {
      WantedMeaning(g, All(pages[..k]) + pages[k].value[..n], f);
      SomeOfAll(pages, k, n);
    }
    hide Wanted, All, ScanPages;
  }

  lemma {:induction false} SomeOfAll(pages: Pages, k: nat, n: nat)
    requires k < |pages| && pages[k].Some? && n <= |pages[k].value|
    ensures forall r :: r in All(pages[..k]) + pages[k].value[..n] ==> r in All(pages)
  {
    if k > 0 {
      assert pages[..k][1..] == pages[1..][..k - 1] && pages[..k][0] == pages[0];
      SomeOfAll(pages[1..], k - 1, n);
    }
  }

  /** No repository worth reporting was pushed after the end of the time frame. */
  ghost predicate NothingTooNew(g: Scanner, repos: seq<Repository>, f: Frame) {
    f.end.Some? ==> forall r <- repos :: r.id !in g.ignoreRepos ==> r.pushedAt <= f.end.value
  }

  lemma {:induction false} NothingWanted(g: Scanner, repos: seq<Repository>, f: Frame)
    requires forall r <- repos :: !InFrame(r.pushedAt, f)
    ensures Wanted(g, repos, f) == []
  {
    if repos != [] { NothingWanted(g, repos[1..], f); }
  }

  lemma {:induction false} AscendingIsComplete(g: Scanner, repos: seq<Repository>, f: Frame)
    requires (forall r :: !g.limitFails(r)) && SortedBy(repos, false) && f.start.None?
    ensures ScanPage(g, repos, f).findings == Wanted(g, repos, f)
  {
    if repos != [] {
      AscendingIsComplete(g, repos[1..], f);
      if !InFrame(repos[0].pushedAt, f) { NothingWanted(g, repos[1..], f); }
    }
  }

  lemma {:induction false} DescendingIsComplete(g: Scanner, repos: seq<Repository>, f: Frame)
    requires (forall r :: !g.limitFails(r)) && SortedBy(repos, true) && f.start.Some?
    ensures ScanPage(g, repos, f).findings == Wanted(g, repos, f) <==>
            Wanted(g, repos, f) == [] || NothingTooNew(g, repos, f)
  {
    if repos != [] {
      var first, rest := repos[0], repos[1..];
      DescendingIsComplete(g, rest, f);
      forall r | r in rest ensures r.pushedAt <= first.pushedAt && r in repos {
        var k :| 0 <= k < |rest| && rest[k] == r;
        assert repos[k + 1] == r;
      }
      assert first in repos && forall r <- repos :: r == first || r in rest;
      if first.id !in g.ignoreRepos {
        if f.end.Some? && first.pushedAt > f.end.value {
          assert ScanPage(g, repos, f).findings == [];
        } else if first.pushedAt < f.start.value {
          NothingWanted(g, rest, f);
        } else {
          assert NothingTooNew(g, rest, f);
        }
      }
    }
  }

  /** For pages sorted as requested and without API errors, the early stop loses nothing if at most one bound is given;
      with both, exactly when nothing was wanted or no repository worth reporting was pushed after the end. */
  lemma EarlyStopIsExact(g: Scanner, api: Api, f: Frame)
    requires NoErrors(g, api, f) && SortedBy(All(PagesFor(api, f)), f.start.Some?)
    ensures var all := All(PagesFor(api, f));
      ScanPages(g, PagesFor(api, f), f) == Some(Wanted(g, all, f)) <==>
      f.start.None? || f.end.None? || Wanted(g, all, f) == [] || NothingTooNew(g, all, f)
  {
    var all := All(PagesFor(api, f));
    PagesAreOneList(g, PagesFor(api, f), f);
    if f.start.None? { AscendingIsComplete(g, all, f); } else { DescendingIsComplete(g, all, f); }
  }

  /** Two repositories, newest first, as one page. */
  const TWO_REPOSITORIES := [Repository(1, 10, "newer"), Repository(2, 5, "older")]

  /** With both bounds given, a repository pushed after the end hides the one in between. */
  lemma NewRepositoryHidesOthers(g: Scanner, api: Api, f: Frame)
    requires NoErrors(g, api, f) && f == Frame(Some(3), Some(7)) && g.ignoreRepos == {}
    requires api.descending == [Some(TWO_REPOSITORIES)]
    ensures SortedBy(All(PagesFor(api, f)), true)
    ensures ScanPages(g, PagesFor(api, f), f) == Some([])
    ensures Wanted(g, All(PagesFor(api, f)), f) == [g.finding(TWO_REPOSITORIES[1])]
  {
    assert All(PagesFor(api, f)[1..]) == [];
    assert All(PagesFor(api, f)) == TWO_REPOSITORIES;
    var older := TWO_REPOSITORIES[1..];
    assert older == [TWO_REPOSITORIES[1]] && older[1..] == [];
    assert Wanted(g, older[1..], f) == [] && Wanted(g, older, f) == [g.finding(TWO_REPOSITORIES[1])];
  }
}
