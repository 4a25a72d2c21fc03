/** What the AWS container tracker guarantees over whole histories of requests, whatever the Kubernetes API answers. */
module CloudTrackerRuns {
  import opened Options
  import opened CloudTracker

  /** Names of ScheduledScans are distinct for distinct images or scan configurations. */
  ghost predicate DistinctNames(c: Config) {
    && (forall i, k :: 0 <= i < k < |c.scanConfigs| ==> c.scanConfigs[i] != c.scanConfigs[k])
    && forall image, image', a, b :: c.scanName(image, a) == c.scanName(image', b) ==> image == image' && a == b
  }

  // ---------------------------------------------------------------- the tracked containers

  /** The last event of a container, as far as the tracker understands it. */
  function Latest(events: seq<Event>, image: string, id: string): Option<string> {
    if events == [] then None
    else
      var r := events[|events| - 1].request;
      if r.image == image && r.id == id && r.state in {"RUNNING", "PENDING", "STOPPED"} then Some(r.state)
      else Latest(events[..|events| - 1], image, id)
  }

  /** The tracked containers of an image are exactly those whose latest event was RUNNING. */
  lemma {:induction false} TrackedAreTheRunning(c: Config, events: seq<Event>, image: string, id: string)
    ensures id in Tracked(Run(c, EMPTY, events), image) <==> Latest(events, image, id) == Some("RUNNING")
  {
    if events != [] { TrackedAreTheRunning(c, events[..|events| - 1], image, id); }
  }

  // ---------------------------------------------------------------- one request

  ghost predicate CallsServed(c: Config, api: Api) { forall k: nat :: k < |c.scanConfigs| ==> api(k) == Served }

  /** RUNNING: the container is tracked, and handled without error iff all creations are served. PENDING and STOPPED: it
      is not tracked any more; without error and without touching a scan if the image is unknown or another container is
      left, otherwise without error iff all deletions are served. Any other state is an error that changes nothing. */
  lemma RequestMeaning(c: Config, s: State, r: Request, api: Api)
    ensures var after, ok := After(c, s, r, api), Succeeds(c, s, r, api);
      && (r.state == "RUNNING" ==>
            && after.running == s.running[r.image := Tracked(s, r.image) + {r.id}]
            && s.scans <= after.scans && (ok <==> CallsServed(c, api)))
      && (r.state == "PENDING" || r.state == "STOPPED" ==>
            && Tracked(after, r.image) == Tracked(s, r.image) - {r.id} && after.running.Keys == s.running.Keys
            && (forall image :: image != r.image ==> Tracked(after, image) == Tracked(s, image))
            && after.scans <= s.scans
            && if r.image !in s.running || Tracked(after, r.image) != {} then ok && after.scans == s.scans
               else ok <==> CallsServed(c, api))
      && (r.state !in {"RUNNING", "PENDING", "STOPPED"} ==> after == s && !ok)
  {
    CreatedMeaning(c, r.image, api, |c.scanConfigs|, s.scans);
    DeletedMeaning(c, r.image, api, |c.scanConfigs|, s.scans);
    hide Created, Deleted;
    assert "RUNNING"[0] != "PENDING"[0] && "RUNNING"[0] != "STOPPED"[0];
  }

  // ---------------------------------------------------------------- the scans of one image

  ghost predicate NameOf(c: Config, image: string, name: string) {
    exists k :: 0 <= k < |c.scanConfigs| && name == Name(c, image, k)
  }

  lemma {:induction false} CreatedMeaning(c: Config, image: string, api: Api, n: nat, scans: set<string>)
    requires n <= |c.scanConfigs|
    ensures forall x :: x in Created(c, image, api, n, scans) <==>
              x in scans || exists k :: 0 <= k < n && x == Name(c, image, k) && api(k) != Failed(false)
  {
    if n > 0 { CreatedMeaning(c, image, api, n - 1, scans); }
  }

  lemma {:induction false} DeletedMeaning(c: Config, image: string, api: Api, n: nat, scans: set<string>)
    requires n <= |c.scanConfigs|
    ensures forall x :: x in Deleted(c, image, api, n, scans) <==>
              x in scans && !exists k :: 0 <= k < n && x == Name(c, image, k) && api(k) != Failed(false)
  {
    if n > 0 { DeletedMeaning(c, image, api, n - 1, scans); }
  }

  ghost predicate AllExist(c: Config, s: State, image: string) {
    forall k :: 0 <= k < |c.scanConfigs| ==> Name(c, image, k) in s.scans
  }

  ghost predicate NoneExists(c: Config, s: State, image: string) {
    forall k :: 0 <= k < |c.scanConfigs| ==> Name(c, image, k) !in s.scans
  }

  /** Every existing scan belongs to an image that was seen running, though maybe no container of it is left. */
  lemma {:induction false} ScansBelongToSeenImages(c: Config, events: seq<Event>, name: string)
    requires name in Run(c, EMPTY, events).scans
    ensures exists image :: image in Run(c, EMPTY, events).running && NameOf(c, image, name)
  {
    if events != [] {
      var before, last := Run(c, EMPTY, events[..|events| - 1]), events[|events| - 1];
      var r := last.request;
      CreatedMeaning(c, r.image, last.api, |c.scanConfigs|, before.scans);
      DeletedMeaning(c, r.image, last.api, |c.scanConfigs|, before.scans);
      if name in before.scans {
        ScansBelongToSeenImages(c, events[..|events| - 1], name);
        var image :| image in before.running && NameOf(c, image, name);
        assert image in Run(c, EMPTY, events).running;
      } else {
        assert NameOf(c, r.image, name);
        assert r.image in Run(c, EMPTY, events).running;
      }
    }
  }

  /** A request about one image leaves the scans of the others alone. */
  lemma OtherImagesKeepTheirScans(c: Config, s: State, r: Request, api: Api, image: string, k: nat)
    requires DistinctNames(c) && image != r.image && k < |c.scanConfigs|
    ensures Name(c, image, k) in After(c, s, r, api).scans <==> Name(c, image, k) in s.scans
    ensures Tracked(After(c, s, r, api), image) == Tracked(s, image)
    ensures image in After(c, s, r, api).running <==> image in s.running
  {
    CreatedMeaning(c, r.image, api, |c.scanConfigs|, s.scans);
    DeletedMeaning(c, r.image, api, |c.scanConfigs|, s.scans);
  }

  // ---------------------------------------------------------------- what is known about the scans

  /** What the answers so far tell about the scans of an image: after a failed call that matters, nothing. */
  datatype Knowledge = Exist | Absent | Unknown

  function Learn(known: Knowledge, s: State, r: Request, ok: bool): Knowledge {
    if !Contacts(s, r) then known
    else if r.state == "RUNNING" then (if ok || known == Exist then Exist else Unknown)
    else (if ok || known == Absent then Absent else Unknown)
  }

  function Known(c: Config, events: seq<Event>, image: string): Knowledge {
    if events == [] then Absent
    else
      var before, k := Known(c, events[..|events| - 1], image), |events| - 1;
      if events[k].request.image != image then before
      else Learn(before, Run(c, EMPTY, events[..k]), events[k].request, SucceedsAt(c, EMPTY, events, k))
  }

  lemma CreateStep(c: Config, s: State, r: Request, api: Api)
    requires r.state == "RUNNING"
    ensures AllExist(c, s, r.image) || AllServed(api, |c.scanConfigs|) ==> AllExist(c, After(c, s, r, api), r.image)
  {
    CreatedMeaning(c, r.image, api, |c.scanConfigs|, s.scans);
  }

  lemma DeleteStep(c: Config, s: State, r: Request, api: Api)
    requires Stops(r) && Contacts(s, r)
    ensures NoneExists(c, s, r.image) || AllServed(api, |c.scanConfigs|) ==> NoneExists(c, After(c, s, r, api), r.image)
  {
    DeletedMeaning(c, r.image, api, |c.scanConfigs|, s.scans);
  }

  ghost predicate Agrees(c: Config, s: State, image: string, known: Knowledge) {
    && (known == Exist ==> AllExist(c, s, image) && Tracked(s, image) != {})
    && (known == Absent ==> NoneExists(c, s, image) && Tracked(s, image) == {})
  }

  /** Knowledge is right, and agrees with the tracked containers: known scans exist if and only if the set is not
      empty. */
  lemma {:induction false} KnowledgeIsRight(c: Config, events: seq<Event>, image: string)
    requires DistinctNames(c)
    ensures Agrees(c, Run(c, EMPTY, events), image, Known(c, events, image))
  {
    if events != [] {
      var before, k := events[..|events| - 1], |events| - 1;
      KnowledgeIsRight(c, before, image);
      hide Known, Run;
      LearnIsRight(c, Run(c, EMPTY, before), events[k].request, events[k].api, image, Known(c, before, image));
      RunNext(c, events, image);
    }
  }

  lemma RunNext(c: Config, events: seq<Event>, image: string)
    requires events != []
    ensures var k := |events| - 1; var s, e := Run(c, EMPTY, events[..k]), events[k];
      && Run(c, EMPTY, events) == After(c, s, e.request, e.api)
      && Known(c, events, image) == if e.request.image != image then Known(c, events[..k], image)
                                    else Learn(Known(c, events[..k], image), s, e.request,
                                               Succeeds(c, s, e.request, e.api))
  {}

  lemma LearnIsRight(c: Config, s: State, r: Request, api: Api, image: string, known: Knowledge)
    requires DistinctNames(c) && Agrees(c, s, image, known)
    ensures Agrees(c, After(c, s, r, api), image,
                   if r.image != image then known else Learn(known, s, r, Succeeds(c, s, r, api)))
  {
    if r.image != image {
      forall k: nat | k < |c.scanConfigs|
        ensures Name(c, image, k) in After(c, s, r, api).scans <==> Name(c, image, k) in s.scans
      {
        OtherImagesKeepTheirScans(c, s, r, api, image, k);
      }
      assert Tracked(After(c, s, r, api), image) == Tracked(s, image);
    } else if r.state == "RUNNING" {
      CreateStep(c, s, r, api);
      hide Created, AllExist, NoneExists;
    } else if Contacts(s, r) {
      DeleteStep(c, s, r, api);
      hide Deleted, AllExist, NoneExists;
    } else {
      assert After(c, s, r, api).scans == s.scans;
    }
  }

  /** The scans of an image exist if and only if some container of it is tracked. */
  ghost predicate ScansMatch(c: Config, s: State, image: string) {
    if Tracked(s, image) != {} then AllExist(c, s, image) else NoneExists(c, s, image)
  }

  /** Two histories with the same requests and the same successes, which is all the tracker can see. */
  ghost predicate SameAnswers(c: Config, a: seq<Event>, b: seq<Event>) {
    && |a| == |b|
    && forall k :: 0 <= k < |a| ==>
       a[k].request == b[k].request && (SucceedsAt(c, EMPTY, a, k) <==> SucceedsAt(c, EMPTY, b, k))
  }

  lemma {:induction false} SameKnowledge(c: Config, a: seq<Event>, b: seq<Event>, image: string)
    requires SameAnswers(c, a, b)
    ensures Run(c, EMPTY, a).running == Run(c, EMPTY, b).running && Known(c, a, image) == Known(c, b, image)
  {
    if a != [] {
      var k := |a| - 1;
      SameAnswersBefore(c, a, b);
      SameKnowledge(c, a[..k], b[..k], image);
      RunNext(c, a, image);
      RunNext(c, b, image);
      assert SucceedsAt(c, EMPTY, a, k) <==> SucceedsAt(c, EMPTY, b, k);
      hide Run, Known;
    }
  }

  lemma SameAnswersBefore(c: Config, a: seq<Event>, b: seq<Event>)
    requires a != [] && SameAnswers(c, a, b)
    ensures SameAnswers(c, a[..|a| - 1], b[..|b| - 1])
  {
    var n := |a| - 1;
    forall k | 0 <= k < n ensures SucceedsAt(c, EMPTY, a[..n], k) <==> SucceedsAt(c, EMPTY, b[..n], k) {
      assert a[..n][..k] == a[..k] && b[..n][..k] == b[..k];
      assert SucceedsAt(c, EMPTY, a, k) <==> SucceedsAt(c, EMPTY, b, k);
    }
  }

  /** The same request with the same success, where failing calls push the scans of all images towards `exist`. */
  function Rig(c: Config, s: State, e: Event, exist: bool): Event {
    var answer := if Succeeds(c, s, e.request, e.api) then Served else Failed((e.request.state == "RUNNING") == exist);
    Event(e.request, k => answer)
  }

  function Rigged(c: Config, events: seq<Event>, exist: bool): (r: seq<Event>)
    ensures |r| == |events|
  {
    if events == [] then []
    else
      var k := |events| - 1;
      Rigged(c, events[..k], exist) + [Rig(c, Run(c, EMPTY, events[..k]), events[k], exist)]
  }

  lemma {:induction false} RiggedAnswersTheSame(c: Config, events: seq<Event>, exist: bool)
    requires c.scanConfigs != []
    ensures SameAnswers(c, events, Rigged(c, events, exist))
  {
    hide Run, Rig, SucceedsAt;
    if events != [] {
      var n := |events| - 1;
      var before, s := Rigged(c, events[..n], exist), Run(c, EMPTY, events[..n]);
      RiggedAnswersTheSame(c, events[..n], exist);
      assert Rigged(c, events, exist) == before + [Rig(c, s, events[n], exist)];
      hide *;
      SameKnowledge(c, events[..n], before, "");
      RigAnswersTheSame(c, s, Run(c, EMPTY, before), events[n], exist);
      AnswersExtend(c, events[..n], before, events[n], Rig(c, s, events[n], exist));
      assert events == events[..n] + [events[n]];
    }
  }

  lemma AnswersExtend(c: Config, a: seq<Event>, b: seq<Event>, e: Event, f: Event)
    requires SameAnswers(c, a, b) && e.request == f.request
    requires Succeeds(c, Run(c, EMPTY, a), e.request, e.api) <==> Succeeds(c, Run(c, EMPTY, b), f.request, f.api)
    ensures SameAnswers(c, a + [e], b + [f])
  {
    hide Succeeds, Run;
    var x, y := a + [e], b + [f];
    forall k | 0 <= k < |x| ensures SucceedsAt(c, EMPTY, x, k) <==> SucceedsAt(c, EMPTY, y, k) {
      if k < |a| {
        assert x[..k] == a[..k] && y[..k] == b[..k];
        assert SucceedsAt(c, EMPTY, a, k) <==> SucceedsAt(c, EMPTY, b, k);
      } else {
        assert x[..k] == a && y[..k] == b;
      }
    }
  }

  lemma RigAnswersTheSame(c: Config, s: State, t: State, e: Event, exist: bool)
    requires c.scanConfigs != [] && s.running == t.running
    ensures var r := Rig(c, s, e, exist);
      r.request == e.request && (Succeeds(c, t, r.request, r.api) <==> Succeeds(c, s, e.request, e.api))
  {
    var r := Rig(c, s, e, exist);
    if !Succeeds(c, s, e.request, e.api) { assert r.api(0) != Served; }
  }

  lemma {:induction false} RiggedOutcome(c: Config, events: seq<Event>, image: string, exist: bool)
    requires DistinctNames(c) && c.scanConfigs != []
    ensures var s, known := Run(c, EMPTY, Rigged(c, events, exist)), Known(c, events, image);
      if exist then known != Absent ==> AllExist(c, s, image) else known != Exist ==> NoneExists(c, s, image)
  {
    if events != [] {
      var n := |events| - 1;
      var before := Rigged(c, events[..n], exist);
      RiggedOutcome(c, events[..n], image, exist);
      RiggedAnswersTheSame(c, events[..n], exist);
      SameKnowledge(c, events[..n], before, image);
      RunNext(c, events, image);
      var rigged := Rigged(c, events, exist);
      assert rigged[..n] == before;
      RunNext(c, rigged, image);
      hide Run, Known, Rigged;
      RigOutcome(c, Run(c, EMPTY, events[..n]), Run(c, EMPTY, before), events[n], image, exist,
                 Known(c, events[..n], image));
    }
  }

  lemma RigOutcome(c: Config, s: State, t: State, e: Event, image: string, exist: bool, known: Knowledge)
    requires DistinctNames(c) && s.running == t.running
    requires if exist then known != Absent ==> AllExist(c, t, image) else known != Exist ==> NoneExists(c, t, image)
    ensures var r := Rig(c, s, e, exist);
            var t', known' := After(c, t, r.request, r.api),
                              if e.request.image != image then known
                                  else Learn(known, s, e.request, Succeeds(c, s, e.request, e.api));
      if exist then known' != Absent ==> AllExist(c, t', image) else known' != Exist ==> NoneExists(c, t', image)
  {
    var r := Rig(c, s, e, exist);
    if r.request.image != image {
      forall k: nat | k < |c.scanConfigs|
        ensures Name(c, image, k) in After(c, t, r.request, r.api).scans <==> Name(c, image, k) in t.scans
      {
        OtherImagesKeepTheirScans(c, t, r.request, r.api, image, k);
      }
    } else {
      CreatedMeaning(c, image, r.api, |c.scanConfigs|, t.scans);
      DeletedMeaning(c, image, r.api, |c.scanConfigs|, t.scans);
    }
  }

  /** From its requests and their successes, the tracker can be sure that the scans of an image exist if and only if a
      container of it is tracked, exactly when no failed call has left their existence open. */
  lemma ScansMatchExactlyWhenKnown(c: Config, events: seq<Event>, image: string)
    requires DistinctNames(c) && c.scanConfigs != []
    ensures (forall other :: SameAnswers(c, events, other) ==> ScansMatch(c, Run(c, EMPTY, other), image)) <==>
            Known(c, events, image) != Unknown
  {
    forall other | SameAnswers(c, events, other) && Known(c, events, image) != Unknown
      ensures ScansMatch(c, Run(c, EMPTY, other), image)
    {
      SameKnowledge(c, events, other, image);
      KnowledgeIsRight(c, other, image);
    }
    if Known(c, events, image) == Unknown {
      var exist := Tracked(Run(c, EMPTY, events), image) == {};
      var other := Rigged(c, events, exist);
      RiggedAnswersTheSame(c, events, exist);
      RiggedOutcome(c, events, image, exist);
      SameKnowledge(c, events, other, image);
      assert SameAnswers(c, events, other) && !ScansMatch(c, Run(c, EMPTY, other), image) by {
        hide Run, SameAnswers, Known, Rigged;
        assert Name(c, image, 0) in Run(c, EMPTY, other).scans <==> exist;
      }
    }
  }

  /** In particular when the last request of the image that called the cluster succeeded. */
  lemma {:induction false} MatchesAfterSuccessfulContact(c: Config, events: seq<Event>, image: string)
    requires DistinctNames(c) && LastContactSucceeded(c, events, image)
    ensures ScansMatch(c, Run(c, EMPTY, events), image)
  {
    ContactSettles(c, events, image);
    KnowledgeIsRight(c, events, image);
  }

  predicate LastContactSucceeded(c: Config, events: seq<Event>, image: string) {
    if events == [] then true
    else
      var k := |events| - 1;
      if events[k].request.image == image && Contacts(Run(c, EMPTY, events[..k]), events[k].request)
      then SucceedsAt(c, EMPTY, events, k) else LastContactSucceeded(c, events[..k], image)
  }

  lemma {:induction false} ContactSettles(c: Config, events: seq<Event>, image: string)
    requires LastContactSucceeded(c, events, image)
    ensures Known(c, events, image) != Unknown
  {
    if events != [] && !(events[|events| - 1].request.image == image &&
                         Contacts(Run(c, EMPTY, events[..|events| - 1]), events[|events| - 1].request)) {
      ContactSettles(c, events[..|events| - 1], image);
    }
  }

  /** The last request was about the image and succeeded, yet its scans do not match its containers. */
  ghost predicate Misleading(c: Config, image: string, events: seq<Event>) {
    && events != [] && events[|events| - 1].request.image == image
    && SucceedsAt(c, EMPTY, events, |events| - 1)
    && !ScansMatch(c, Run(c, EMPTY, events), image)
  }

  /** Two containers start while the API is down, and one stops. */
  function Outage(image: string): seq<Event> {
    [Event(Request("RUNNING", image, "a"), k => Failed(false)),
     Event(Request("RUNNING", image, "b"), k => Failed(false)),
     Event(Request("STOPPED", image, "a"), k => Failed(false))]
  }

  /** It is not enough that the last request of the image succeeded: a STOPPED that leaves other containers calls
      nothing. */
  lemma LastSuccessIsNotEnough(c: Config, image: string)
    requires DistinctNames(c) && c.scanConfigs != []
    ensures Misleading(c, image, Outage(image))
  {
    var events := Outage(image);
    var a, b, stop := events[0], events[1], events[2];
    var s1, s2, s3 := State(map[image := {"a"}], {}), State(map[image := {"a", "b"}], {}),
        State(map[image := {"b"}], {});
    FailedCreate(c, EMPTY, a.request, a.api);
    FailedCreate(c, s1, b.request, b.api);
    StoppedLeavesOne(c, image, stop.api);
    NothingExists(c, s3, image);
    ThreeEvents(c, a, b, stop);
    hide After, Run, Succeeds, ScansMatch;
    assert {"a"} + {"b"} == {"a", "b"} && {} + {"a"} == {"a"};
    assert s1.running[image := {"a", "b"}] == s2.running && EMPTY.running[image := {"a"}] == s1.running;
  }

  lemma StoppedLeavesOne(c: Config, image: string, api: Api)
    ensures var s, r := State(map[image := {"a", "b"}], {}), Request("STOPPED", image, "a");
      After(c, s, r, api) == State(map[image := {"b"}], {}) && Succeeds(c, s, r, api)
  {
    var s := State(map[image := {"a", "b"}], {});
    assert "a" != "b" by { assert "a"[0] != "b"[0]; }
    assert {"a", "b"} - {"a"} == {"b"};
    assert "b" in {"b"};
    assert s.running[image := {"b"}] == map[image := {"b"}];
    assert "STOPPED"[0] == 'S' && "RUNNING"[0] == 'R';
  }

  lemma NothingExists(c: Config, s: State, image: string)
    requires c.scanConfigs != [] && s == State(map[image := {"b"}], {})
    ensures !ScansMatch(c, s, image)
  {
    assert Name(c, image, 0) !in s.scans;
    assert "b" in Tracked(s, image);
  }

  lemma FailedCreate(c: Config, s: State, r: Request, api: Api)
    requires r.state == "RUNNING" && s.scans == {} && forall k :: api(k) == Failed(false)
    ensures After(c, s, r, api) == State(s.running[r.image := Tracked(s, r.image) + {r.id}], {})
  {
    CreatedMeaning(c, r.image, api, |c.scanConfigs|, s.scans);
    hide Created;
    assert forall x :: x !in After(c, s, r, api).scans;
  }

  lemma ThreeEvents(c: Config, a: Event, b: Event, e: Event)
    ensures var s2 := After(c, After(c, EMPTY, a.request, a.api), b.request, b.api);
      && Run(c, EMPTY, [a, b, e]) == After(c, s2, e.request, e.api)
      && (SucceedsAt(c, EMPTY, [a, b, e], 2) <==> Succeeds(c, s2, e.request, e.api))
  {
    hide After, Succeeds;
    RunOne(c, [], a);
    RunOne(c, [a], b);
    RunOne(c, [a, b], e);
    assert [a, b, e][..2] == [a, b] && [a] + [b] == [a, b] && [a, b] + [e] == [a, b, e] && [] + [a] == [a];
  }

  lemma RunOne(c: Config, events: seq<Event>, e: Event)
    ensures Run(c, EMPTY, events + [e]) == After(c, Run(c, EMPTY, events), e.request, e.api)
    ensures Run(c, EMPTY, []) == EMPTY
  {
    assert (events + [e])[..|events|] == events;
  }

  // ---------------------------------------------------------------- restart

  /** The map of running containers is kept in memory only. */
  function Restarted(s: State): State { s.(running := map[]) }

  /** After a restart the scans of an image still match only if no container of it was tracked. Its next RUNNING request
      repairs that once it is served; until then a STOPPED request of its containers deletes nothing. */
  lemma RestartForgets(c: Config, s: State, image: string, r: Request, api: Api)
    requires c.scanConfigs != [] && ScansMatch(c, s, image) && r.image == image
    ensures ScansMatch(c, Restarted(s), image) <==> Tracked(s, image) == {}
    ensures r.state == "RUNNING" && Succeeds(c, Restarted(s), r, api) ==>
              ScansMatch(c, After(c, Restarted(s), r, api), image)
    ensures Stops(r) ==> After(c, Restarted(s), r, api) == Restarted(s)
  {
    if Tracked(s, image) != {} { assert Name(c, image, 0) in s.scans; }
    if r.state == "RUNNING" {
      CreateStep(c, Restarted(s), r, api);
      assert r.id in Tracked(After(c, Restarted(s), r, api), image);
    }
    hide Created, Deleted;
  }

  // ---------------------------------------------------------------- redelivery

  /** The state already is what the request asks for. */
  ghost predicate Settled(c: Config, s: State, r: Request) {
    if r.state == "RUNNING" then r.id in Tracked(s, r.image) && AllExist(c, s, r.image)
    else r.image in s.running ==>
        r.id !in s.running[r.image] && (s.running[r.image] == {} ==> NoneExists(c, s, r.image))
  }

  lemma SettledChangesNothing(c: Config, s: State, r: Request, api: Api)
    requires Settled(c, s, r)
    ensures After(c, s, r, api) == s
  {
    CreatedMeaning(c, r.image, api, |c.scanConfigs|, s.scans);
    DeletedMeaning(c, r.image, api, |c.scanConfigs|, s.scans);
    hide Created, Deleted;
    if r.state == "RUNNING" {
      assert s.running[r.image] + {r.id} == s.running[r.image];
      assert After(c, s, r, api).scans == s.scans;
    } else if Stops(r) && r.image in s.running {
      assert s.running[r.image] - {r.id} == s.running[r.image];
      assert After(c, s, r, api).scans == s.scans;
    }
  }

  lemma SuccessSettles(c: Config, s: State, r: Request, api: Api)
    requires Succeeds(c, s, r, api)
    ensures Settled(c, After(c, s, r, api), r)
  {
    if r.state == "RUNNING" {
      CreateStep(c, s, r, api);
    } else if Contacts(s, r) {
      DeleteStep(c, s, r, api);
    }
  }

  ghost predicate SameContainer(a: Request, b: Request) { a.image == b.image && a.id == b.id }

  lemma SuccessKeepsSettled(c: Config, s: State, r: Request, api: Api, settled: Request)
    requires DistinctNames(c) && Succeeds(c, s, r, api) && !SameContainer(r, settled) && Settled(c, s, settled)
    ensures Settled(c, After(c, s, r, api), settled)
  {
    var t := After(c, s, r, api);
    if r.image != settled.image {
      forall k: nat | k < |c.scanConfigs|
        ensures Name(c, settled.image, k) in t.scans <==> Name(c, settled.image, k) in s.scans
      {
        OtherImagesKeepTheirScans(c, s, r, api, settled.image, k);
      }
      assert Tracked(t, settled.image) == Tracked(s, settled.image);
      assert settled.image in t.running <==> settled.image in s.running;
    } else {
      CreatedMeaning(c, r.image, api, |c.scanConfigs|, s.scans);
      if Stops(r) && Contacts(s, r) { DeleteStep(c, s, r, api); }
      hide Created, Deleted;
    }
  }

  ghost predicate DistinctContainers(events: seq<Event>) {
    forall i, k :: 0 <= i < k < |events| ==> !SameContainer(events[i].request, events[k].request)
  }

  ghost predicate AllSucceed(c: Config, s: State, events: seq<Event>) {
    forall k :: 0 <= k < |events| ==> SucceedsAt(c, s, events, k)
  }

  lemma {:induction false} SuccessSettlesAll(c: Config, s: State, events: seq<Event>)
    requires DistinctNames(c) && DistinctContainers(events) && AllSucceed(c, s, events)
    ensures forall k :: 0 <= k < |events| ==> Settled(c, Run(c, s, events), events[k].request)
  {
    if events != [] {
      var n := |events| - 1;
      var before := Run(c, s, events[..n]);
      forall k | 0 <= k < n ensures SucceedsAt(c, s, events[..n], k) {
        assert events[..n][..k] == events[..k];
        assert SucceedsAt(c, s, events, k);
      }
      SuccessSettlesAll(c, s, events[..n]);
      assert SucceedsAt(c, s, events, n);
      var last := events[n];
      assert Run(c, s, events) == After(c, before, last.request, last.api);
      hide Run, Settled, After, Succeeds;
      SuccessSettles(c, before, last.request, last.api);
      forall k | 0 <= k < n ensures Settled(c, Run(c, s, events), events[k].request) {
        assert events[..n][k] == events[k];
        SuccessKeepsSettled(c, before, last.request, last.api, events[k].request);
      }
    }
  }

  lemma {:induction false} RunSettled(c: Config, s: State, events: seq<Event>)
    requires forall k :: 0 <= k < |events| ==> Settled(c, s, events[k].request)
    ensures Run(c, s, events) == s
  {
    if events != [] {
      hide Settled, After;
      var n := |events| - 1;
      RunSettled(c, s, events[..n]);
      SettledChangesNothing(c, s, events[n].request, events[n].api);
    }
  }

  /** Handling a message again, right after all its requests succeeded, changes nothing, whatever the API answers
      then. */
  lemma RedeliveryChangesNothing(c: Config, s: State, events: seq<Event>, again: seq<Event>)
    requires DistinctNames(c) && DistinctContainers(events) && AllSucceed(c, s, events)
    requires |again| == |events| && forall k :: 0 <= k < |events| ==> again[k].request == events[k].request
    ensures Run(c, Run(c, s, events), again) == Run(c, s, events)
  {
    SuccessSettlesAll(c, s, events);
    RunSettled(c, Run(c, s, events), again);
  }
}
