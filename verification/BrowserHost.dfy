/**
 The browser side of the graph worker: the pump that posts requests, the
 handler of inbound batches, and the disconnect guard they share.

 Posting, decoding and the capture client are environment: each event carries
 what they answered. Interface calls of graph runs interleave freely.
 */
module BrowserHost {
  import opened Common
  import opened GraphWorker
  import opened GraphWorkerTheorems

  datatype Host = Host(
    ready: bool,
    disconnected: bool,
    client: State,
    /** Graph requests handed to the worker, in order. */
    posted: seq<Request>,
    /** How often `fail_all` reached the graph client. */
    failAlls: nat)

  datatype HostEvent =
    | WorkerReady
    /** One timer tick: whether the capture loop fails, and how many graph requests post before one fails. */
    | Tick(captureFailure: Option<TransportFailure>, postable: nat, postFailure: TransportFailure)
    /** A graph batch, or `None` when it does not decode. */
    | GraphBatch(messages: Option<seq<Message>>, failure: TransportFailure)
    | CaptureBatch(refusal: Option<TransportFailure>)
    /** A worker error, a reported worker failure, or an unreadable or unknown message. */
    | HostFailure(failure: TransportFailure)
    | UserStart(run: nat)
    | UserCancel(sequence: nat)
    | UserTake(sequence: nat)

  ghost function HostInit(maxOutstanding: nat): Host {
    Host(false, false, Init(maxOutstanding), [], 0)
  }

  ghost function Disconnect(h: Host, failure: TransportFailure): Host {
    if h.disconnected then h
    else h.(disconnected := true, client := FailAllOp(h.client, failure), failAlls := h.failAlls + 1)
  }

  ghost function PostOp(h: Host, postable: nat, failure: TransportFailure): Host {
    var (client, requests) := DrainOp(h.client);
    var drained := h.(client := client);
    if postable < |requests|
    then Disconnect(drained.(posted := h.posted + requests[..postable]), failure)
    else drained.(posted := h.posted + requests)
  }

  ghost function PumpOp(h: Host, captureFailure: Option<TransportFailure>, postable: nat,
                        failure: TransportFailure): Host
  {
    if !h.ready || h.disconnected then h
    else PostOp(if captureFailure.Some? then Disconnect(h, captureFailure.value) else h, postable, failure)
  }

  /** Publishes until one message is refused, which disconnects the host. */
  ghost function BatchOp(h: Host, messages: seq<Message>, failure: TransportFailure, receiver: Receiver): Host
    decreases |messages|
  {
    if messages == [] then h
    else
      var (client, outcome) := PublishOp(h.client, messages[0], receiver);
      if outcome.Err? then Disconnect(h.(client := client), failure)
      else BatchOp(h.(client := client), messages[1..], failure, receiver)
  }

  ghost function HostStep(h: Host, event: HostEvent, receiver: Receiver): Host {
    match event
    case WorkerReady => h.(ready := true)
    case Tick(captureFailure, postable, failure) => PumpOp(h, captureFailure, postable, failure)
    case GraphBatch(Some(messages), failure) => BatchOp(h, messages, failure, receiver)
    case GraphBatch(None, failure) => Disconnect(h, failure)
    case CaptureBatch(Some(failure)) => Disconnect(h, failure)
    case CaptureBatch(None) => h
    case HostFailure(failure) => Disconnect(h, failure)
    case UserStart(run) => h.(client := StartOp(h.client, run).0)
    case UserCancel(s) => h.(client := CancelOp(h.client, s).0)
    case UserTake(s) => h.(client := TakeOp(h.client, s).0)
  }

  ghost function HostRun(h: Host, events: seq<HostEvent>, receiver: Receiver): Host {
    if events == [] then h
    else HostStep(HostRun(h, events[..|events| - 1], receiver), events[|events| - 1], receiver)
  }

  // ----- the host object -----

  class BrowserWorkerHost {
    const graph: GraphWorkerClient
    var ready: bool
    var disconnected: bool
    var posted: seq<Request>
    ghost var failAlls: nat

    ghost function View(): Host
      reads this, graph
    {
      Host(ready, disconnected, graph.View(), posted, failAlls)
    }

    constructor (graph: GraphWorkerClient)
      ensures this.graph == graph && View() == Host(false, false, graph.View(), [], 0)
    {
      this.graph := graph;
      ready, disconnected, posted, failAlls := false, false, [], 0;
    }

    /** The guard shared by every disconnect path: the flag is set first and tested once. */
    method DisconnectGraph(failure: TransportFailure)
      requires graph.Valid()
      modifies this, graph
      ensures graph.Valid() && View() == Disconnect(old(View()), failure)
    {
      if !disconnected {
        disconnected := true;
        graph.FailAll(failure);
        failAlls := failAlls + 1;
      }
    }

    method PostGraphRequests(postable: nat, failure: TransportFailure)
      requires graph.Valid()
      modifies this, graph
      ensures graph.Valid() && View() == PostOp(old(View()), postable, failure)
    {
      var requests := graph.DrainRequests();
      ghost var before := posted;
      for i := 0 to |requests|
        invariant graph.Valid() && unchanged(`ready) && unchanged(`disconnected) && unchanged(`failAlls)
        invariant graph.View() == DrainOp(old(graph.View())).0
        invariant i <= postable && posted == before + requests[..i]
      {
        if i == postable {
          DisconnectGraph(failure);
          return;
        }
        posted := posted + [requests[i]];
        assert requests[..i + 1] == requests[..i] + [requests[i]];
      }
      assert requests[..|requests|] == requests;
    }

    method Pump(captureFailure: Option<TransportFailure>, postable: nat, failure: TransportFailure)
      requires graph.Valid()
      modifies this, graph
      ensures graph.Valid() && View() == PumpOp(old(View()), captureFailure, postable, failure)
    {
      if !ready || disconnected {
        return;
      }
      if captureFailure.Some? {
        DisconnectGraph(captureFailure.value);
      }
      PostGraphRequests(postable, failure);
    }

    method HandleGraphMessages(messages: seq<Message>, failure: TransportFailure)
      requires graph.Valid()
      modifies this, graph
      ensures graph.Valid() && View() == BatchOp(old(View()), messages, failure, graph.receiver)
    {
      for i := 0 to |messages|
        invariant graph.Valid()
        invariant BatchOp(View(), messages[i..], failure, graph.receiver)
          == BatchOp(old(View()), messages, failure, graph.receiver)
      {
        assert messages[i..][1..] == messages[i + 1..];
        var outcome := graph.Publish(messages[i]);
        if outcome.Err? {
          DisconnectGraph(failure);
          return;
        }
      }
    }
  }

  // ----- what every interleaving keeps -----

  ghost predicate HostInv(h: Host) {
    && Inv(h.client)
    && h.failAlls == (if h.disconnected then 1 else 0)
    && (h.client.disconnected.Some? <==> h.disconnected)
    && (h.disconnected ==> h.client.pending == {} && h.client.outbound == [])
    && h.posted <= SentRequests(h.client.log)
    && (!h.disconnected ==> h.posted == SentRequests(h.client.log))
  }

  lemma {:induction false} SentPrefix(log: Log, n: nat)
    requires n <= |log|
    ensures SentRequests(log[..n]) <= SentRequests(log)
  {
    if n == |log| {
      assert log[..n] == log;
    } else {
      SentPrefix(log[..|log| - 1], n);
      assert log[..|log| - 1][..n] == log[..n];
    }
  }

  lemma {:induction false} SentAllSends(log: Log, requests: seq<Request>)
    ensures SentRequests(log + SentAll(requests)) == SentRequests(log) + requests
  {
    if requests == [] {
      assert log + SentAll(requests) == log;
    } else {
      var front, last := requests[..|requests| - 1], requests[|requests| - 1];
      SentAllSends(log, front);
      assert log + SentAll(requests) == (log + SentAll(front)) + [Sent(last)];
      CountSnoc(log + SentAll(front), Sent(last));
    }
  }

  lemma SentGrows(before: Log, after: Log)
    requires before <= after
    ensures SentRequests(before) <= SentRequests(after)
  {
    SentPrefix(after, |before|);
    assert after[..|before|] == before;
  }

  lemma FailAllClears(st: State, failure: TransportFailure)
    requires Inv(st)
    ensures FailAllOp(st, failure).outbound == [] && st.log <= FailAllOp(st, failure).log
  {
    var cleared := st.(disconnected := Some(failure), pending := {}, cancelled := {}, outbound := []);
    FailEachDelivers(cleared, st, st.pending, failure);
    FailEachGrows(cleared, st.pending, failure);
  }

  lemma DisconnectKeeps(h: Host, failure: TransportFailure)
    requires Inv(h.client) && h.posted <= SentRequests(h.client.log)
    requires h.failAlls == (if h.disconnected then 1 else 0)
    requires h.disconnected ==> HostInv(h)
    ensures HostInv(Disconnect(h, failure)) && Disconnect(h, failure).disconnected
    ensures Disconnect(h, failure).posted == h.posted
  {
    hide Inv, SentRequests;
    if !h.disconnected {
      FailAllKeeps(h.client, failure);
      FailAllClears(h.client, failure);
      SentGrows(h.client.log, FailAllOp(h.client, failure).log);
    }
  }

  lemma PostKeeps(h: Host, postable: nat, failure: TransportFailure)
    requires HostInv(h)
    ensures HostInv(PostOp(h, postable, failure))
    ensures h.disconnected ==> PostOp(h, postable, failure).posted == h.posted
  {
    hide Inv, SentRequests;
    var (client, requests) := DrainOp(h.client);
    DrainKeeps(h.client);
    SentAllSends(h.client.log, requests);
    assert client == h.client.(outbound := [], log := client.log);
    if postable < |requests| {
      var partial := h.(client := client, posted := h.posted + requests[..postable]);
      DisconnectKeeps(partial, failure);
    } else {
      assert h.disconnected ==> requests == [] && h.posted + requests == h.posted;
    }
  }

  lemma PublishFrame(st: State, m: Message, receiver: Receiver)
    requires Inv(st)
    ensures
      var after := PublishOp(st, m, receiver).0;
      && after.disconnected == st.disconnected && after.outbound == st.outbound
      && after.nextSequence == st.nextSequence && after.pending <= st.pending
      && SentRequests(after.log) == SentRequests(st.log) && st.log <= after.log
  {
    hide Inv, SentRequests;
    var after := PublishOp(st, m, receiver).0;
    if m.sequence in st.pending && (m.Terminal() || m.sequence !in st.cancelled) {
      if m.Artifacts? {
        ApplyKeeps(st, m.sequence, m.events, receiver);
        ApplySendsNothing(st, m.sequence, m.events, receiver);
        var applied := ApplyOp(st, m.sequence, m.events, receiver).0;
        CountSnoc(applied.log, Queued(m));
      } else {
        CountSnoc(st.log, Queued(m));
      }
    }
  }

  lemma {:induction false} ApplySendsNothing(st: State, s: nat, events: seq<ArtifactEvent>, receiver: Receiver)
    ensures SentRequests(ApplyOp(st, s, events, receiver).0.log) == SentRequests(st.log)
    decreases |events|
  {
    if events != [] && receiver(AppliedEvents(st.log), events[0]) {
      CountSnoc(st.log, Applied(s, events[0]));
      ApplySendsNothing(Record(st, Applied(s, events[0])), s, events[1..], receiver);
    }
  }

  lemma {:induction false} BatchKeeps(h: Host, messages: seq<Message>, failure: TransportFailure, receiver: Receiver)
    requires HostInv(h)
    ensures HostInv(BatchOp(h, messages, failure, receiver))
    decreases |messages|
  {
    hide Inv, SentRequests;
    if messages != [] {
      var (client, outcome) := PublishOp(h.client, messages[0], receiver);
      var next := h.(client := client);
      PublishKeeps(h.client, messages[0], receiver);
      PublishFrame(h.client, messages[0], receiver);
      assert HostInv(next);
      if outcome.Err? {
        DisconnectKeeps(next, failure);
      } else {
        BatchKeeps(next, messages[1..], failure, receiver);
      }
    }
  }

  /** Replacing the client by one that sent nothing more. */
  lemma ClientKeeps(h: Host, client: State)
    requires HostInv(h) && Inv(client)
    requires client.disconnected == h.client.disconnected && SentRequests(client.log) == SentRequests(h.client.log)
    requires h.disconnected ==> client.pending == {} && client.outbound == []
    ensures HostInv(h.(client := client))
  {
  }

  lemma UserKeeps(h: Host, event: HostEvent, receiver: Receiver)
    requires HostInv(h) && (event.UserStart? || event.UserCancel? || event.UserTake?)
    ensures HostInv(HostStep(h, event, receiver))
  {
    hide Inv, SentRequests;
    var st, client := h.client, HostStep(h, event, receiver).client;
    match event {
      case UserStart(run) => StartKeeps(st, run); StartSendsNothing(st, run);
      case UserCancel(s) => CancelKeeps(st, s); CancelSendsNothing(st, s);
      case UserTake(s) => TakeKeeps(st, s); TakeSendsNothing(st, s);
    }
    ClientKeeps(h, client);
  }

  lemma StartSendsNothing(st: State, run: nat)
    ensures SentRequests(StartOp(st, run).0.log) == SentRequests(st.log)
  {
    hide SentRequests;
    CountSnoc(st.log, Admitted(st.nextSequence + 1));
  }

  lemma CancelSendsNothing(st: State, s: nat)
    ensures SentRequests(CancelOp(st, s).0.log) == SentRequests(st.log)
  {
    hide SentRequests;
    CountSnoc(st.log, CancelRequested(s));
  }

  lemma TakeSendsNothing(st: State, s: nat)
    ensures SentRequests(TakeOp(st, s).0.log) == SentRequests(st.log)
  {
    hide SentRequests;
    CountSnoc(st.log, Taken(s, TakeOp(st, s).1));
  }

  lemma HostStepKeeps(h: Host, event: HostEvent, receiver: Receiver)
    requires HostInv(h)
    ensures HostInv(HostStep(h, event, receiver))
  {
    hide Inv, SentRequests;
    match event
    case WorkerReady =>
    case Tick(captureFailure, postable, failure) =>
      if h.ready && !h.disconnected {
        if captureFailure.Some? {
          DisconnectKeeps(h, captureFailure.value);
          PostKeeps(Disconnect(h, captureFailure.value), postable, failure);
        } else {
          PostKeeps(h, postable, failure);
        }
      }
    case GraphBatch(Some(messages), failure) => BatchKeeps(h, messages, failure, receiver);
    case GraphBatch(None, failure) => DisconnectKeeps(h, failure);
    case CaptureBatch(Some(failure)) => DisconnectKeeps(h, failure);
    case CaptureBatch(None) =>
    case HostFailure(failure) => DisconnectKeeps(h, failure);
    case _ => UserKeeps(h, event, receiver);
  }

  lemma {:induction false} HostRunInv(maxOutstanding: nat, events: seq<HostEvent>, receiver: Receiver)
    ensures HostInv(HostRun(HostInit(maxOutstanding), events, receiver))
  {
    if events == [] {
      InitInv(maxOutstanding);
    } else {
      HostRunInv(maxOutstanding, events[..|events| - 1], receiver);
      HostStepKeeps(HostRun(HostInit(maxOutstanding), events[..|events| - 1], receiver),
                    events[|events| - 1], receiver);
    }
  }

  // ----- theorems -----

  /** `fail_all` reaches the graph client at most once, and exactly when the host is disconnected. */
  lemma FailAllOnce(maxOutstanding: nat, events: seq<HostEvent>, receiver: Receiver)
    ensures
      var h := HostRun(HostInit(maxOutstanding), events, receiver);
      h.failAlls <= 1 && (h.failAlls == 1 <==> h.disconnected)
  {
    HostRunInv(maxOutstanding, events, receiver);
  }

  /** Once the host is disconnected every run ever started has exactly one terminal message, posted or not. */
  lemma DisconnectEndsEveryRun(maxOutstanding: nat, events: seq<HostEvent>, receiver: Receiver, s: nat)
    requires
      var h := HostRun(HostInit(maxOutstanding), events, receiver);
      h.disconnected && 1 <= s <= h.client.nextSequence
    ensures
      var q := QueuedFor(HostRun(HostInit(maxOutstanding), events, receiver).client.log, s);
      Ended(q) && forall i :: 0 <= i < |q| - 1 ==> !q[i].Terminal()
  {
    HostRunInv(maxOutstanding, events, receiver);
    var st := HostRun(HostInit(maxOutstanding), events, receiver).client;
    assert QueueOk(QueuedFor(st.log, s), Live(st, s), s in st.pending);
  }

  /** When the capture loop of a tick fails first, that tick posts no graph request. */
  lemma CaptureFailurePostsNothing(h: Host, captureFailure: TransportFailure, postable: nat, failure: TransportFailure)
    requires HostInv(h)
    ensures PumpOp(h, Some(captureFailure), postable, failure).posted == h.posted
  {
    if h.ready && !h.disconnected {
      DisconnectKeeps(h, captureFailure);
      PostKeeps(Disconnect(h, captureFailure), postable, failure);
    }
  }

  /** What a disconnected host still shows: nothing posted, admitted, queued or applied changes. */
  ghost predicate Frozen(before: Host, after: Host) {
    && after.disconnected && after.posted == before.posted
    && after.client.nextSequence == before.client.nextSequence
    && AppliedEvents(after.client.log) == AppliedEvents(before.client.log)
    && forall s: nat :: QueuedFor(after.client.log, s) == QueuedFor(before.client.log, s)
  }

  lemma LateBatchRejected(h: Host, messages: seq<Message>, failure: TransportFailure, receiver: Receiver)
    requires HostInv(h) && h.disconnected
    ensures BatchOp(h, messages, failure, receiver) == h
  {
    if messages != [] {
      assert PublishOp(h.client, messages[0], receiver) == (h.client, Err(UnexpectedSequence(messages[0].sequence)));
    }
  }

  lemma StepAfterDisconnect(h: Host, event: HostEvent, receiver: Receiver)
    requires HostInv(h) && h.disconnected
    ensures Frozen(h, HostStep(h, event, receiver))
  {
    match event
    case GraphBatch(Some(messages), failure) => LateBatchRejected(h, messages, failure, receiver);
    case UserTake(s) =>
      if s in h.client.updates {
        var e := Taken(s, h.client.updates[s]);
        AppliedSnoc(h.client.log, e);
        forall t: nat
          ensures QueuedFor(h.client.log + [e], t) == QueuedFor(h.client.log, t)
        {
          QueueSnoc(h.client.log, e, t);
        }
      }
    case _ =>
  }

  /** No request is posted, no late message adds anything and no run is admitted after the disconnect. */
  lemma {:induction false} NothingAfterDisconnect(
    maxOutstanding: nat, events: seq<HostEvent>, later: seq<HostEvent>, receiver: Receiver)
    requires HostRun(HostInit(maxOutstanding), events, receiver).disconnected
    ensures Frozen(HostRun(HostInit(maxOutstanding), events, receiver),
                   HostRun(HostInit(maxOutstanding), events + later, receiver))
  {
    hide HostInv, HostStep;
    var init := HostInit(maxOutstanding);
    if later == [] {
      assert events + later == events;
    } else {
      var front := events + later[..|later| - 1];
      NothingAfterDisconnect(maxOutstanding, events, later[..|later| - 1], receiver);
      assert (events + later)[..|events + later| - 1] == front;
      HostRunInv(maxOutstanding, front, receiver);
      StepAfterDisconnect(HostRun(init, front, receiver), later[|later| - 1], receiver);
    }
  }

  // ----- what a tick and a batch do -----

  /** A ready tick posts what waits, in order: all of it, or what posts before the failure that disconnects. */
  lemma PumpPosts(h: Host, postable: nat, failure: TransportFailure)
    requires h.ready && !h.disconnected
    ensures
      var after, waiting := PumpOp(h, None, postable, failure), h.client.outbound;
      && after.client.outbound == []
      && (postable >= |waiting| ==>
            && after.posted == h.posted + waiting && !after.disconnected
            && after.client.pending == h.client.pending && after.failAlls == h.failAlls)
      && (postable < |waiting| ==>
            && after.posted == h.posted + waiting[..postable] && after.disconnected
            && after.client.disconnected == Some(failure) && after.failAlls == h.failAlls + 1)
  {
    if postable < |h.client.outbound| {
      FailEachFrame(DrainOp(h.client).0.(disconnected := Some(failure), pending := {}, cancelled := {}, outbound := []),
                    h.client.pending, failure);
    }
  }

  lemma {:induction false} FailEachFrame(st: State, runs: set<nat>, failure: TransportFailure)
    ensures
      var after := FailEach(st, runs, failure);
      after.outbound == st.outbound && after.disconnected == st.disconnected && after.pending == st.pending
    decreases |runs|
  {
    if runs != {} {
      var s := Least(runs);
      FailEachFrame(Enqueue(st, Failed(s, Transport(failure))), runs - {s}, failure);
    }
  }

  /** Before the worker is ready, and after a disconnect, a tick does nothing. */
  lemma PumpIdle(h: Host, captureFailure: Option<TransportFailure>, postable: nat, failure: TransportFailure)
    requires !h.ready || h.disconnected
    ensures PumpOp(h, captureFailure, postable, failure) == h
  {
  }

  /** A run that starts on a connected host is posted by the next tick that can post, after what waited before it. */
  lemma StartIsPosted(h: Host, run: nat, failure: TransportFailure, receiver: Receiver)
    requires h.ready && !h.disconnected && StartOp(h.client, run).1.Ok?
    ensures
      var started := HostStep(h, UserStart(run), receiver);
      var after := HostStep(started, Tick(None, |h.client.outbound| + 1, failure), receiver);
      after.posted == h.posted + (h.client.outbound + [Start(StartOp(h.client, run).1.value, run)])
  {
    hide PumpOp, StartOp;
    StartWaits(h.client, run);
    PumpPosts(h.(client := StartOp(h.client, run).0), |h.client.outbound| + 1, failure);
  }

  lemma StartWaits(st: State, run: nat)
    requires StartOp(st, run).1.Ok?
    ensures StartOp(st, run).0.outbound == st.outbound + [Start(StartOp(st, run).1.value, run)]
  {
  }

  /** Every message of the batch is answered without an error when its turn comes. */
  ghost predicate AllAnswered(st: State, messages: seq<Message>, receiver: Receiver)
    decreases |messages|
  {
    messages == []
    || (PublishOp(st, messages[0], receiver).1.Ok?
        && AllAnswered(PublishOp(st, messages[0], receiver).0, messages[1..], receiver))
  }

  /** A batch without errors is the publication of its messages one by one; an error disconnects a connected host. */
  lemma {:induction false} BatchPublishes(
    h: Host, messages: seq<Message>, failure: TransportFailure, receiver: Receiver)
    requires !h.disconnected
    ensures
      var after := BatchOp(h, messages, failure, receiver);
      && (after.disconnected <==> !AllAnswered(h.client, messages, receiver))
      && (AllAnswered(h.client, messages, receiver) ==>
            after == h.(client := GraphWorkerTheorems.Run(h.client, Publications(messages), receiver)))
    decreases |messages|
  {
    if messages == [] {
      assert Publications(messages) == [];
    } else {
      var client := PublishOp(h.client, messages[0], receiver).0;
      if PublishOp(h.client, messages[0], receiver).1.Ok? {
        BatchPublishes(h.(client := client), messages[1..], failure, receiver);
        assert Publications(messages) == [CallPublish(messages[0])] + Publications(messages[1..]);
        RunCons(h.client, CallPublish(messages[0]), Publications(messages[1..]), receiver);
      }
    }
  }

  ghost function Publications(messages: seq<Message>): seq<Call> {
    seq(|messages|, i requires 0 <= i < |messages| => CallPublish(messages[i]))
  }

  lemma {:induction false} RunCons(st: State, call: Call, calls: seq<Call>, receiver: Receiver)
    ensures GraphWorkerTheorems.Run(st, [call] + calls, receiver)
      == GraphWorkerTheorems.Run(Step(st, call, receiver), calls, receiver)
  {
    if calls == [] {
      assert [call] + calls == [call] && [call][..0] == [];
      assert GraphWorkerTheorems.Run(st, [], receiver) == st;
    } else {
      var front := calls[..|calls| - 1];
      RunCons(st, call, front, receiver);
      assert ([call] + calls)[..|calls|] == [call] + front;
    }
  }
}
