/** The AWS auto-discovery: which container images run, and the ScheduledScans kept for them.
    Models auto-discovery/cloud-aws/pkg/kubernetes/kubernetes.go and the message loop of pkg/aws/aws.go. */
module CloudTracker {
  import opened Options

  /** `image` is the normalized image reference, `id` the instance of the container. */
  datatype Request = Request(state: string, image: string, id: string)

  /** A call to the Kubernetes API is served (possibly with AlreadyExists or NotFound), or it fails; a failed call may
      still have taken effect. */
  datatype Answer = Served | Failed(applied: bool)

  /** The answers to the calls of one request, by position of the scan configuration. */
  type Api = nat -> Answer

  /** The configured scans, and the name of the ScheduledScan of an image. */
  datatype Config = Config(scanConfigs: seq<string>, scanName: (string, string) -> string)

  datatype State = State(running: map<string, set<string>>, scans: set<string>)

  const EMPTY := State(map[], {})

  // ---------------------------------------------------------------- one request

  function Name(c: Config, image: string, k: nat): string
    requires k < |c.scanConfigs|
  {
    c.scanName(image, c.scanConfigs[k])
  }

  /** The ScheduledScans after the first n create calls. */
  function Created(c: Config, image: string, api: Api, n: nat, scans: set<string>): set<string>
    requires n <= |c.scanConfigs|
  {
    if n == 0 then scans
    else
      var before := Created(c, image, api, n - 1, scans);
      if api(n - 1) == Failed(false) then before else before + {Name(c, image, n - 1)}
  }

  function Deleted(c: Config, image: string, api: Api, n: nat, scans: set<string>): set<string>
    requires n <= |c.scanConfigs|
  {
    if n == 0 then scans
    else
      var before := Deleted(c, image, api, n - 1, scans);
      if api(n - 1) == Failed(false) then before else before - {Name(c, image, n - 1)}
  }

  predicate AllServed(api: Api, n: nat) { forall k: nat :: k < n ==> api(k) == Served }

  function Tracked(s: State, image: string): set<string> { if image in s.running then s.running[image] else {} }

  predicate Stops(r: Request) { r.state == "PENDING" || r.state == "STOPPED" }

  /** Whether handling the request calls the cluster. */
  predicate Contacts(s: State, r: Request) {
    r.state == "RUNNING" || (Stops(r) && r.image in s.running && s.running[r.image] - {r.id} == {})
  }

  function After(c: Config, s: State, r: Request, api: Api): State {
    var n := |c.scanConfigs|;
    if r.state == "RUNNING" then
      State(s.running[r.image := Tracked(s, r.image) + {r.id}], Created(c, r.image, api, n, s.scans))
    else if Stops(r) && r.image in s.running then
      var left := s.running[r.image] - {r.id};
      State(s.running[r.image := left], if left != {} then s.scans else Deleted(c, r.image, api, n, s.scans))
    else s
  }

  predicate Succeeds(c: Config, s: State, r: Request, api: Api) {
    (r.state == "RUNNING" || Stops(r)) && (Contacts(s, r) ==> AllServed(api, |c.scanConfigs|))
  }

  /** The Kubernetes API server, as far as the tracker uses it. */
  class ApiServer {
    var scans: set<string>

    constructor ()
      ensures scans == {}
    {
      scans := {};
    }

    method Create(name: string, answer: Answer) returns (ok: bool)
      modifies this
      ensures scans == if answer == Failed(false) then old(scans) else old(scans) + {name}
      ensures ok <==> answer == Served
    {
      if answer != Failed(false) { scans := scans + {name}; }
      ok := answer == Served;
    }

    method Delete(name: string, answer: Answer) returns (ok: bool)
      modifies this
      ensures scans == if answer == Failed(false) then old(scans) else old(scans) - {name}
      ensures ok <==> answer == Served
    {
      if answer != Failed(false) { scans := scans - {name}; }
      ok := answer == Served;
    }
  }

  class CloudScanReconciler {
    const config: Config
    const client: ApiServer
    var runningContainers: map<string, set<string>>

    constructor (config: Config, client: ApiServer)
      ensures this.config == config && this.client == client && runningContainers == map[]
    {
      this.config, this.client := config, client;
      runningContainers := map[];
    }

    function Value(): State
      reads this, client
    {
      State(runningContainers, client.scans)
    }

    method Reconcile(r: Request, api: Api) returns (ok: bool)
      modifies this, client
      ensures Value() == After(config, old(Value()), r, api)
      ensures ok <==> Succeeds(config, old(Value()), r, api)
    {
      if r.state == "RUNNING" {
        ok := HandleCreateRequest(r, api);
      } else if r.state == "PENDING" || r.state == "STOPPED" {
        ok := HandleDeleteRequest(r, api);
      } else {
        ok := false;
      }
    }

    method HandleCreateRequest(r: Request, api: Api) returns (ok: bool)
      requires r.state == "RUNNING"
      modifies this, client
      ensures Value() == After(config, old(Value()), r, api)
      ensures ok <==> Succeeds(config, old(Value()), r, api)
    {
      if r.image !in runningContainers { runningContainers := runningContainers[r.image := {}]; }
      runningContainers := runningContainers[r.image := runningContainers[r.image] + {r.id}];
      ok := true;
      for i := 0 to |config.scanConfigs|
        invariant client.scans == Created(config, r.image, api, i, old(client.scans))
        invariant runningContainers == old(runningContainers)[r.image := Tracked(old(Value()), r.image) + {r.id}]
        invariant ok <==> AllServed(api, i)
      {
        var created := client.Create(Name(config, r.image, i), api(i));
        if !created { ok := false; }
      }
    }

    method HandleDeleteRequest(r: Request, api: Api) returns (ok: bool)
      requires Stops(r)
      modifies this, client
      ensures Value() == After(config, old(Value()), r, api)
      ensures ok <==> Succeeds(config, old(Value()), r, api)
    {
      if r.image !in runningContainers { return true; }
      runningContainers := runningContainers[r.image := runningContainers[r.image] - {r.id}];
      if runningContainers[r.image] != {} { return true; }
      ok := true;
      for i := 0 to |config.scanConfigs|
        invariant client.scans == Deleted(config, r.image, api, i, old(client.scans))
        invariant runningContainers == old(runningContainers)[r.image := {}]
        invariant ok <==> AllServed(api, i)
      {
        var deleted := client.Delete(Name(config, r.image, i), api(i));
        if !deleted { ok := false; }
      }
    }
  }

  // ---------------------------------------------------------------- messages

  /** A request with the answers its API calls get. */
  datatype Event = Event(request: Request, api: Api)

  function Run(c: Config, s: State, events: seq<Event>): State {
    if events == [] then s
    else
      var last := events[|events| - 1];
      After(c, Run(c, s, events[..|events| - 1]), last.request, last.api)
  }

  /** Whether the k-th event was handled without error. */
  predicate SucceedsAt(c: Config, s: State, events: seq<Event>, k: nat)
    requires k < |events|
  {
    Succeeds(c, Run(c, s, events[..k]), events[k].request, events[k].api)
  }

  /** A queue message; None when its body is not an event the service understands. */
  datatype Message = Message(receipt: string, events: Option<seq<Event>>)

  function RunMessages(c: Config, s: State, messages: seq<Message>): State {
    if messages == [] then s
    else
      var before, last := RunMessages(c, s, messages[..|messages| - 1]), messages[|messages| - 1];
      if last.events.None? then before else Run(c, before, last.events.value)
  }

  /** The k-th message is removed from the queue. */
  ghost predicate Removed(c: Config, s: State, messages: seq<Message>, k: nat)
    requires k < |messages|
  {
    && messages[k].events.Some?
    && forall i :: 0 <= i < |messages[k].events.value| ==>
         SucceedsAt(c, RunMessages(c, s, messages[..k]), messages[k].events.value, i)
  }

  class MonitorService {
    const reconciler: CloudScanReconciler
    var removed: seq<string>

    constructor (reconciler: CloudScanReconciler)
      ensures this.reconciler == reconciler && removed == []
    {
      this.reconciler := reconciler;
      removed := [];
    }

    /** All requests of a message are handled, also after one of them failed. */
    method HandleRequests(events: seq<Event>) returns (errors: bool)
      modifies reconciler, reconciler.client
      ensures reconciler.Value() == Run(reconciler.config, old(reconciler.Value()), events)
      ensures errors <==> exists k ::
                0 <= k < |events| && !SucceedsAt(reconciler.config, old(reconciler.Value()), events, k)
    {
      errors := false;
      for k := 0 to |events|
        invariant reconciler.Value() == Run(reconciler.config, old(reconciler.Value()), events[..k])
        invariant errors <==>
                  exists j :: 0 <= j < k && !SucceedsAt(reconciler.config, old(reconciler.Value()), events, j)
      {
        hide Succeeds, After;
        var ok := reconciler.Reconcile(events[k].request, events[k].api);
        assert ok <==> SucceedsAt(reconciler.config, old(reconciler.Value()), events, k);
        if !ok { errors := true; }
        assert events[..k + 1][..k] == events[..k] && events[..k + 1][k] == events[k];
      }
      assert events[..|events|] == events;
    }

    /** A message leaves the queue exactly when it was understood and every one of its requests succeeded. */
    method Receive(messages: seq<Message>)
      modifies this, reconciler, reconciler.client
      ensures reconciler.Value() == RunMessages(reconciler.config, old(reconciler.Value()), messages)
      ensures removed == old(removed) + Receipts(reconciler.config, old(reconciler.Value()), messages)
    {
      for k := 0 to |messages|
        invariant reconciler.Value() == RunMessages(reconciler.config, old(reconciler.Value()), messages[..k])
        invariant removed == old(removed) + Receipts(reconciler.config, old(reconciler.Value()), messages[..k])
      {
        hide Run;
        assert messages[..k + 1][..k] == messages[..k] && messages[..k + 1][k] == messages[k];
        if messages[k].events.None? { continue; }
        var errors := HandleRequests(messages[k].events.value);
        if !errors { removed := removed + [messages[k].receipt]; }
      }
      assert messages[..|messages|] == messages;
    }
  }

  /** The receipts of the removed messages, in order. */
  ghost function Receipts(c: Config, s: State, messages: seq<Message>): seq<string> {
    if messages == [] then []
    else
      var k := |messages| - 1;
      Receipts(c, s, messages[..k]) + (if Removed(c, s, messages, k) then [messages[k].receipt] else [])
  }

  /** The state in which the i-th request of the k-th message is handled. */
  function StateAt(c: Config, s: State, messages: seq<Message>, k: nat, i: nat): State
    requires k < |messages| && messages[k].events.Some? && i <= |messages[k].events.value|
  {
    Run(c, RunMessages(c, s, messages[..k]), messages[k].events.value[..i])
  }

  /** With distinct receipts: a message is removed if and only if its body is understood and none of its requests fails
      in the state that all requests before it have led to. */
  lemma {:induction false} RemovedExactly(c: Config, s: State, messages: seq<Message>, k: nat)
    requires k < |messages|
    requires forall i, j :: 0 <= i < j < |messages| ==> messages[i].receipt != messages[j].receipt
    ensures messages[k].receipt in Receipts(c, s, messages) <==>
            messages[k].events.Some? && forall i :: 0 <= i < |messages[k].events.value| ==>
              Succeeds(c, StateAt(c, s, messages, k, i), messages[k].events.value[i].request,
                       messages[k].events.value[i].api)
  {
    ReceiptsMembers(c, s, messages, messages[k].receipt);
    hide Receipts, Succeeds, Run, RunMessages;
    if messages[k].events.Some? {
      forall i | 0 <= i < |messages[k].events.value|
        ensures SucceedsAt(c, RunMessages(c, s, messages[..k]), messages[k].events.value, i) <==>
                Succeeds(c, StateAt(c, s, messages, k, i), messages[k].events.value[i].request,
                         messages[k].events.value[i].api)
      {}
    }
  }

  lemma {:induction false} ReceiptsMembers(c: Config, s: State, messages: seq<Message>, receipt: string)
    ensures receipt in Receipts(c, s, messages) <==>
            exists k :: 0 <= k < |messages| && Removed(c, s, messages, k) && messages[k].receipt == receipt
  {
    if messages != [] {
      var n := |messages| - 1;
      ReceiptsMembers(c, s, messages[..n], receipt);
      forall k | 0 <= k < n ensures Removed(c, s, messages[..n], k) <==> Removed(c, s, messages, k) {
        assert messages[..n][..k] == messages[..k];
      }
      hide Removed;
      if k :| 0 <= k < |messages[..n]| && Removed(c, s, messages[..n], k) && messages[..n][k].receipt == receipt {
        assert Removed(c, s, messages, k);
      }
      if k :| 0 <= k < |messages| && Removed(c, s, messages, k) && messages[k].receipt == receipt {
        assert k < n ==> Removed(c, s, messages[..n], k) && messages[..n][k].receipt == receipt;
      }
    }
  }
}
