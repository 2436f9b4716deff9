/**
 The bounded request/response queue between graph runs and the worker host.

 `State` is the client's state together with a chronological log of what it
 admitted, sent, applied, queued and handed out. The operations are given as
 functions on `State`; `GraphWorkerClient` performs them on mutable fields and
 is proved to compute exactly those functions.
 */
module GraphWorker {
  import opened Common

  // ----- wire vocabulary -----

  /** Payloads the client never inspects are represented by tokens. */
  datatype ArtifactEvent = ArtifactEvent(token: nat)
  datatype TransportFailure = TransportFailure(token: nat)
  datatype RunFailure = Transport(failure: TransportFailure) | Reported(token: nat)

  datatype Request = Start(sequence: nat, run: nat) | Cancel(sequence: nat)

  datatype Message =
    | Started(sequence: nat)
    | Progress(sequence: nat, nodes: seq<(nat, nat)>)
    | Artifacts(sequence: nat, events: seq<ArtifactEvent>)
    | Finished(sequence: nat)
    | Failed(sequence: nat, cause: RunFailure)
    | Cancelled(sequence: nat)
  {
    predicate Terminal() {
      Finished? || Failed? || Cancelled?
    }
  }

  datatype ClientError =
    | InvalidCapacity
    | Disconnected(failure: TransportFailure)
    | QueueFull(limit: nat)
    | SequenceExhausted
    | UnexpectedSequence(sequence: nat)
    | ArtifactReplication

  /** What the client did, in order. */
  datatype Entry =
    | Admitted(sequence: nat)
    | CancelRequested(sequence: nat)
    | Sent(request: Request)
    | Applied(sequence: nat, event: ArtifactEvent)
    | Queued(message: Message)
    | Taken(sequence: nat, messages: seq<Message>)

  type Log = seq<Entry>

  /** Whether the artifact receiver takes an event, given those it took before. */
  type Receiver = (seq<ArtifactEvent>, ArtifactEvent) -> bool

  type Updates = map<nat, seq<Message>>

  datatype State = State(
    maxOutstanding: nat,
    nextSequence: nat,
    pending: set<nat>,
    cancelled: set<nat>,
    outbound: seq<Request>,
    updates: Updates,
    disconnected: Option<TransportFailure>,
    log: Log)

  function Waiting(updates: Updates, sequence: nat): seq<Message> {
    if sequence in updates then updates[sequence] else []
  }

  // ----- projections of the log -----

  ghost function AppliedEvents(log: Log): seq<ArtifactEvent> {
    if log == [] then [] else
      AppliedEvents(log[..|log| - 1]) + match log[|log| - 1] case Applied(_, e) => [e] case _ => []
  }

  ghost function QueuedFor(log: Log, s: nat): seq<Message> {
    if log == [] then [] else
      QueuedFor(log[..|log| - 1], s)
      + match log[|log| - 1] case Queued(m) => (if m.sequence == s then [m] else []) case _ => []
  }

  ghost function TakenFor(log: Log, s: nat): seq<Message> {
    if log == [] then [] else
      TakenFor(log[..|log| - 1], s)
      + match log[|log| - 1] case Taken(t, ms) => (if t == s then ms else []) case _ => []
  }

  ghost function SentRequests(log: Log): seq<Request> {
    if log == [] then [] else
      SentRequests(log[..|log| - 1]) + match log[|log| - 1] case Sent(r) => [r] case _ => []
  }

  ghost function Admissions(log: Log): seq<nat> {
    if log == [] then [] else
      Admissions(log[..|log| - 1]) + match log[|log| - 1] case Admitted(s) => [s] case _ => []
  }

  ghost function Terminals(log: Log): nat {
    if log == [] then 0 else
      Terminals(log[..|log| - 1])
      + match log[|log| - 1] case Queued(m) => (if m.Terminal() then 1 else 0) case _ => 0
  }

  // ----- the operations -----

  ghost function Init(maxOutstanding: nat): State {
    State(maxOutstanding, 0, {}, {}, [], map[], None, [])
  }

  ghost function Record(st: State, entry: Entry): State {
    st.(log := st.log + [entry])
  }

  ghost function Enqueue(st: State, m: Message): State {
    Record(st.(updates := st.updates[m.sequence := Waiting(st.updates, m.sequence) + [m]]), Queued(m))
  }

  ghost function StartOp(st: State, run: nat): (State, Outcome<nat, ClientError>) {
    if st.disconnected.Some? then (st, Err(Disconnected(st.disconnected.value)))
    else if |st.pending| >= st.maxOutstanding then (st, Err(QueueFull(st.maxOutstanding)))
    else if st.nextSequence >= U64_MAX then (st, Err(SequenceExhausted))
    else
      var s := st.nextSequence + 1;
      (Record(st.(nextSequence := s, pending := st.pending + {s}, outbound := st.outbound + [Start(s, run)]),
              Admitted(s)), Ok(s))
  }

  ghost function CancelOp(st: State, s: nat): (State, bool) {
    if s !in st.pending then (st, false)
    else
      var out := if s in st.cancelled then st.outbound else st.outbound + [Cancel(s)];
      (Record(st.(cancelled := st.cancelled + {s}, outbound := out), CancelRequested(s)), true)
  }

  ghost function SentAll(requests: seq<Request>): Log {
    seq(|requests|, i requires 0 <= i < |requests| => Sent(requests[i]))
  }

  ghost function DrainOp(st: State): (State, seq<Request>) {
    (st.(outbound := [], log := st.log + SentAll(st.outbound)), st.outbound)
  }

  /** Applies events in order until one is refused. */
  ghost function ApplyOp(st: State, s: nat, events: seq<ArtifactEvent>, receiver: Receiver): (State, bool)
    decreases |events|
  {
    if events == [] then (st, true)
    else if !receiver(AppliedEvents(st.log), events[0]) then (st, false)
    else ApplyOp(Record(st, Applied(s, events[0])), s, events[1..], receiver)
  }

  ghost function DeliverOp(st: State, m: Message): State {
    var queued := Enqueue(st, m);
    if m.Terminal() then
      queued.(pending := st.pending - {m.sequence}, cancelled := st.cancelled - {m.sequence})
    else queued
  }

  ghost function PublishOp(st: State, m: Message, receiver: Receiver): (State, Outcome<(), ClientError>) {
    if m.sequence !in st.pending then (st, Err(UnexpectedSequence(m.sequence)))
    else if m.sequence in st.cancelled && !m.Terminal() then (st, Ok(()))
    else if m.Artifacts? then
      var (applied, complete) := ApplyOp(st, m.sequence, m.events, receiver);
      if complete then (DeliverOp(applied, m), Ok(())) else (applied, Err(ArtifactReplication))
    else (DeliverOp(st, m), Ok(()))
  }

  ghost function TakeOp(st: State, s: nat): (State, seq<Message>) {
    if s in st.updates
    then (Record(st.(updates := st.updates - {s}), Taken(s, st.updates[s])), st.updates[s])
    else (st, [])
  }

  lemma LeastExists(s: set<nat>)
    requires s != {}
    ensures exists m :: m in s && forall x :: x in s ==> m <= x
  {
    var x :| x in s;
    LeastBelow(s, x);
  }

  lemma {:induction false} LeastBelow(s: set<nat>, x: nat)
    requires x in s
    ensures exists m :: m in s && forall y :: y in s ==> m <= y
  {
    if y :| y in s && y < x {
      LeastBelow(s, y);
    }
  }

  ghost function Least(s: set<nat>): (m: nat)
    requires s != {}
    ensures m in s && forall x :: x in s ==> m <= x
  {
    LeastExists(s);
    var m :| m in s && forall x :: x in s ==> m <= x;
    m
  }

  /** Queues a transport failure for each listed run, in ascending order. */
  ghost function FailEach(st: State, runs: set<nat>, failure: TransportFailure): State
    decreases |runs|
  {
    if runs == {} then st
    else
      var s := Least(runs);
      FailEach(Enqueue(st, Failed(s, Transport(failure))), runs - {s}, failure)
  }

  ghost function FailAllOp(st: State, failure: TransportFailure): State {
    FailEach(st.(disconnected := Some(failure), pending := {}, cancelled := {}, outbound := []), st.pending, failure)
  }

  // ----- the client object -----

  class GraphWorkerClient {
    const maxOutstanding: nat
    const receiver: Receiver

    var nextSequence: U64
    var pending: set<nat>
    var cancelled: set<nat>
    var outbound: seq<Request>
    var updates: Updates
    var disconnected: Option<TransportFailure>
    /** The events the artifact receiver has taken. */
    var applied: seq<ArtifactEvent>
    ghost var log: Log

    ghost function View(): State
      reads this
    {
      State(maxOutstanding, nextSequence, pending, cancelled, outbound, updates, disconnected, log)
    }

    ghost predicate Valid()
      reads this
    {
      applied == AppliedEvents(log)
    }

    constructor (maxOutstanding: nat, receiver: Receiver)
      requires maxOutstanding != 0
      ensures Valid() && View() == Init(maxOutstanding) && this.receiver == receiver
    {
      this.maxOutstanding, this.receiver := maxOutstanding, receiver;
      nextSequence, pending, cancelled, outbound, updates := 0, {}, {}, [], map[];
      disconnected, applied, log := None, [], [];
    }

    static method New(maxOutstanding: nat, receiver: Receiver) returns (r: Outcome<GraphWorkerClient, ClientError>)
      ensures maxOutstanding == 0 ==> r == Err(InvalidCapacity)
      ensures maxOutstanding != 0 ==>
        r.Ok? && fresh(r.value) && r.value.Valid() && r.value.View() == Init(maxOutstanding)
    {
      if maxOutstanding == 0 {
        return Err(InvalidCapacity);
      }
      var client := new GraphWorkerClient(maxOutstanding, receiver);
      return Ok(client);
    }

    method StartRun(run: nat) returns (r: Outcome<nat, ClientError>)
      requires Valid()
      modifies this
      ensures Valid() && (View(), r) == StartOp(old(View()), run)
    {
      if disconnected.Some? {
        return Err(Disconnected(disconnected.value));
      }
      if |pending| >= maxOutstanding {
        return Err(QueueFull(maxOutstanding));
      }
      if nextSequence == U64_MAX {
        return Err(SequenceExhausted);
      }
      nextSequence := nextSequence + 1;
      var sequence := nextSequence;
      pending := pending + {sequence};
      outbound := outbound + [Start(sequence, run)];
      log := log + [Admitted(sequence)];
      AppliedSnoc(old(log), Admitted(sequence));
      return Ok(sequence);
    }

    method CancelRun(sequence: nat) returns (found: bool)
      requires Valid()
      modifies this
      ensures Valid() && (View(), found) == CancelOp(old(View()), sequence)
    {
      if sequence !in pending {
        return false;
      }
      if sequence !in cancelled {
        cancelled := cancelled + {sequence};
        outbound := outbound + [Cancel(sequence)];
      }
      assert cancelled == old(cancelled) + {sequence};
      log := log + [CancelRequested(sequence)];
      AppliedSnoc(old(log), CancelRequested(sequence));
      return true;
    }

    method DrainRequests() returns (requests: seq<Request>)
      requires Valid()
      modifies this
      ensures Valid() && (View(), requests) == DrainOp(old(View()))
    {
      requests := outbound;
      outbound := [];
      AppliedSentAll(log, requests);
      log := log + SentAll(requests);
    }

    /** Applies the events of one message until one is refused. */
    method ApplyEvents(sequence: nat, events: seq<ArtifactEvent>) returns (complete: bool)
      requires Valid()
      modifies `applied, `log
      ensures Valid() && (View(), complete) == ApplyOp(old(View()), sequence, events, receiver)
    {
      for i := 0 to |events|
        invariant Valid()
        invariant ApplyOp(View(), sequence, events[i..], receiver) == ApplyOp(old(View()), sequence, events, receiver)
      {
        if !receiver(applied, events[i]) {
          return false;
        }
        assert events[i..][1..] == events[i + 1..];
        AppliedSnoc(log, Applied(sequence, events[i]));
        applied := applied + [events[i]];
        log := log + [Applied(sequence, events[i])];
      }
      return true;
    }

    method Publish(message: Message) returns (r: Outcome<(), ClientError>)
      requires Valid()
      modifies this
      ensures Valid() && (View(), r) == PublishOp(old(View()), message, receiver)
    {
      hide AppliedEvents;
      var sequence := message.sequence;
      if sequence !in pending {
        return Err(UnexpectedSequence(sequence));
      }
      if sequence in cancelled && (message.Started? || message.Progress? || message.Artifacts?) {
        return Ok(());
      }
      if message.Artifacts? {
        var complete := ApplyEvents(sequence, message.events);
        if !complete {
          return Err(ArtifactReplication);
        }
      }
      ghost var before := log;
      updates := updates[sequence := Waiting(updates, sequence) + [message]];
      log := log + [Queued(message)];
      AppliedSnoc(before, Queued(message));
      if message.Terminal() {
        pending := pending - {sequence};
        cancelled := cancelled - {sequence};
      }
      return Ok(());
    }

    method TakeUpdates(sequence: nat) returns (messages: seq<Message>)
      requires Valid()
      modifies this
      ensures Valid() && (View(), messages) == TakeOp(old(View()), sequence)
    {
      if sequence in updates {
        messages := updates[sequence];
        updates := updates - {sequence};
        log := log + [Taken(sequence, messages)];
        AppliedSnoc(old(log), Taken(sequence, messages));
      } else {
        messages := [];
      }
    }

    method FailAll(failure: TransportFailure)
      requires Valid()
      modifies this
      ensures Valid() && View() == FailAllOp(old(View()), failure)
    {
      hide AppliedEvents, FailEach;
      disconnected := Some(failure);
      var runs := pending;
      pending, cancelled, outbound := {}, {}, [];
      while runs != {}
        invariant Valid()
        invariant FailEach(View(), runs, failure) == FailAllOp(old(View()), failure)
        decreases |runs|
      {
        LeastExists(runs);
        var sequence :| sequence in runs && forall x :: x in runs ==> sequence <= x;
        FailEachStep(View(), runs, sequence, failure);
        var message := Failed(sequence, Transport(failure));
        AppliedSnoc(log, Queued(message));
        updates := updates[sequence := Waiting(updates, sequence) + [message]];
        log := log + [Queued(message)];
        runs := runs - {sequence};
      }
      FailEachDone(View(), failure);
    }
  }

  lemma FailEachStep(st: State, runs: set<nat>, s: nat, failure: TransportFailure)
    requires s in runs && forall x :: x in runs ==> s <= x
    ensures FailEach(st, runs, failure) ==
      FailEach(Enqueue(st, Failed(s, Transport(failure))), runs - {s}, failure)
  {
    assert s == Least(runs);
  }

  lemma FailEachDone(st: State, failure: TransportFailure)
    ensures FailEach(st, {}, failure) == st
  {
  }

  lemma AppliedSnoc(log: Log, entry: Entry)
    ensures AppliedEvents(log + [entry]) ==
      AppliedEvents(log) + match entry case Applied(_, e) => [e] case _ => []
  {
    assert (log + [entry])[..|log|] == log;
  }

  lemma {:induction false} AppliedSentAll(log: Log, requests: seq<Request>)
    ensures AppliedEvents(log + SentAll(requests)) == AppliedEvents(log)
  {
    if requests == [] {
      assert log + SentAll(requests) == log;
    } else {
      var front, last := requests[..|requests| - 1], requests[|requests| - 1];
      AppliedSentAll(log, front);
      assert log + SentAll(requests) == (log + SentAll(front)) + [Sent(last)];
      AppliedSnoc(log + SentAll(front), Sent(last));
    }
  }
}
