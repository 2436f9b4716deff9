/**
 What every sequence of calls on the graph-worker client keeps, and what the
 log of such a sequence can never show.
 */
module GraphWorkerTheorems {
  import opened Common
  import opened GraphWorker

  // ----- log projections of an extended log -----

  lemma QueueSnoc(log: Log, e: Entry, s: nat)
    ensures QueuedFor(log + [e], s) ==
      QueuedFor(log, s) + match e case Queued(m) => (if m.sequence == s then [m] else []) case _ => []
    ensures TakenFor(log + [e], s) ==
      TakenFor(log, s) + match e case Taken(t, ms) => (if t == s then ms else []) case _ => []
  {
    assert (log + [e])[..|log|] == log;
  }

  lemma CountSnoc(log: Log, e: Entry)
    ensures SentRequests(log + [e]) == SentRequests(log) + match e case Sent(r) => [r] case _ => []
    ensures Admissions(log + [e]) == Admissions(log) + match e case Admitted(s) => [s] case _ => []
    ensures Terminals(log + [e]) ==
      Terminals(log) + match e case Queued(m) => (if m.Terminal() then 1 else 0) case _ => 0
  {
    assert (log + [e])[..|log|] == log;
  }

  // ----- the invariant -----

  ghost predicate Live(st: State, s: nat) {
    1 <= s <= st.nextSequence
  }

  ghost predicate Bounded(st: State) {
    && (forall s :: s in st.pending ==> Live(st, s))
    && st.cancelled <= st.pending
    && |st.pending| <= st.maxOutstanding
    && st.nextSequence <= U64_MAX
  }

  /** Every admitted run is either still pending or accounted for by one terminal message. */
  ghost predicate Counted(st: State) {
    st.nextSequence == |st.pending| + Terminals(st.log)
  }

  ghost predicate Ended(q: seq<Message>) {
    q != [] && q[|q| - 1].Terminal()
  }

  /** All updates ever queued for one run: nothing before admission, a terminal message last, once. */
  ghost predicate QueueOk(q: seq<Message>, admitted: bool, pending: bool) {
    && (forall i :: 0 <= i < |q| - 1 ==> !q[i].Terminal())
    && (Ended(q) <==> admitted && !pending)
    && (!admitted ==> q == [])
  }

  ghost predicate QueuesOk(st: State) {
    forall s: nat :: QueueOk(QueuedFor(st.log, s), Live(st, s), s in st.pending)
  }

  /** What was handed out, followed by what waits, is what was queued. */
  ghost predicate Lossless(st: State) {
    forall s: nat :: QueuedFor(st.log, s) == TakenFor(st.log, s) + Waiting(st.updates, s)
  }

  ghost predicate Numbered(st: State) {
    && |Admissions(st.log)| == st.nextSequence
    && forall i :: 0 <= i < st.nextSequence ==> Admissions(st.log)[i] == i + 1
  }

  ghost function RequestsFor(requests: seq<Request>, s: nat): seq<Request> {
    if requests == [] then [] else
      RequestsFor(requests[..|requests| - 1], s)
      + if requests[|requests| - 1].sequence == s then [requests[|requests| - 1]] else []
  }

  ghost predicate InOrder(r: seq<Request>) {
    |r| == 0 || (|r| == 1 && r[0].Start?) || (|r| == 2 && r[0].Start? && r[1].Cancel?)
  }

  /** Sent and waiting requests of one run: its start, then at most one cancellation. */
  ghost predicate RequestsOk(st: State) {
    forall s: nat :: RunRequestsOk(st, s)
  }

  ghost predicate RunRequestsOk(st: State, s: nat) {
    var r := RequestsFor(SentRequests(st.log) + st.outbound, s);
    && InOrder(r)
    && (!Live(st, s) ==> r == [])
    && (s in st.pending ==> |r| == if s in st.cancelled then 2 else 1)
  }

  ghost predicate Noisy(e: Entry, s: nat) {
    match e
    case Queued(m) => m.sequence == s && !m.Terminal()
    case Applied(t, _) => t == s
    case _ => false
  }

  /** After an acknowledged cancellation nothing but a terminal message is queued or applied. */
  ghost predicate Silent(log: Log) {
    forall i, j, s :: 0 <= i < j < |log| && log[i] == CancelRequested(s) ==> !Noisy(log[j], s)
  }

  ghost predicate Muted(st: State) {
    forall i, s :: 0 <= i < |st.log| && st.log[i] == CancelRequested(s) ==>
      Live(st, s) && (s in st.pending ==> s in st.cancelled)
  }

  ghost function AppliedAll(s: nat, events: seq<ArtifactEvent>): Log {
    seq(|events|, i requires 0 <= i < |events| => Applied(s, events[i]))
  }

  /** Every queued artifact batch directly follows the application of all its events, in order. */
  ghost predicate Replicated(log: Log) {
    forall i, m :: 0 <= i < |log| && log[i] == Queued(m) && m.Artifacts? ==>
      |m.events| <= i && log[i - |m.events|..i] == AppliedAll(m.sequence, m.events)
  }

  ghost predicate Inv(st: State) {
    && Bounded(st) && Counted(st) && QueuesOk(st) && Lossless(st) && Numbered(st)
    && RequestsOk(st) && Silent(st.log) && Muted(st) && Replicated(st.log)
  }

  lemma InitInv(maxOutstanding: nat)
    ensures Inv(Init(maxOutstanding))
  {
  }

  // ----- each operation keeps it -----

  lemma RequestsSnoc(requests: seq<Request>, r: Request, s: nat)
    ensures RequestsFor(requests + [r], s) ==
      RequestsFor(requests, s) + if r.sequence == s then [r] else []
  {
    assert (requests + [r])[..|requests|] == requests;
  }

  /** An entry that neither queues nor hands out; runs may only be admitted. */
  lemma QueuesKept(st: State, after: State, e: Entry)
    requires QueuesOk(st) && Lossless(st)
    requires after.log == st.log + [e] && !e.Queued? && !e.Taken? && after.updates == st.updates
    requires forall s: nat ::
      if Live(st, s) then Live(after, s) && (s in after.pending <==> s in st.pending)
      else Live(after, s) ==> s in after.pending
    ensures QueuesOk(after) && Lossless(after)
  {
    forall s: nat
      ensures QueueOk(QueuedFor(after.log, s), Live(after, s), s in after.pending)
      ensures QueuedFor(after.log, s) == TakenFor(after.log, s) + Waiting(after.updates, s)
    {
      QueueSnoc(st.log, e, s);
      assert QueueOk(QueuedFor(st.log, s), Live(st, s), s in st.pending);
    }
  }

  /** An entry that sends nothing, while runs may only stop pending. */
  lemma RequestsKept(st: State, after: State, e: Entry)
    requires RequestsOk(st)
    requires after.log == st.log + [e] && !e.Sent? && after.outbound == st.outbound
    requires after.nextSequence == st.nextSequence && after.pending <= st.pending
    requires forall s :: s in after.pending ==> (s in after.cancelled <==> s in st.cancelled)
    ensures RequestsOk(after)
  {
    CountSnoc(st.log, e);
    assert SentRequests(after.log) + after.outbound == SentRequests(st.log) + st.outbound;
    forall s: nat
      ensures RunRequestsOk(after, s)
    {
      assert RunRequestsOk(st, s);
    }
  }

  /** One request joins the outbound queue. */
  lemma RequestsGrow(st: State, after: State, e: Entry, r: Request)
    requires RequestsOk(st)
    requires after.log == st.log + [e] && !e.Sent? && after.outbound == st.outbound + [r]
    requires forall s: nat :: s != r.sequence ==>
      && (Live(after, s) <==> Live(st, s)) && (s in after.pending <==> s in st.pending)
      && (s in after.cancelled <==> s in st.cancelled)
    requires var s := r.sequence;
      && Live(after, s) && s in after.pending
      && if r.Start? then !Live(st, s) && s !in after.cancelled
         else s in st.pending && s !in st.cancelled && s in after.cancelled
    ensures RequestsOk(after)
  {
    CountSnoc(st.log, e);
    var all := SentRequests(st.log) + st.outbound;
    assert SentRequests(after.log) + after.outbound == all + [r];
    forall s: nat
      ensures RunRequestsOk(after, s)
    {
      RequestsSnoc(all, r, s);
      assert RunRequestsOk(st, s);
    }
  }

  /** No entry makes noise about a cancelled run, and no cancellation is forgotten while it matters. */
  lemma SilenceKept(st: State, after: State, e: Entry)
    requires Silent(st.log) && Muted(st)
    requires after.log == st.log + [e]
    requires forall s :: Noisy(e, s) ==> s in st.pending && s !in st.cancelled
    requires st.nextSequence <= after.nextSequence
    requires forall s :: s in after.pending && Live(st, s) ==>
      s in st.pending && (s in st.cancelled ==> s in after.cancelled)
    requires e.CancelRequested? ==> Live(after, e.sequence) && e.sequence in after.cancelled
    ensures Silent(after.log) && Muted(after)
  {
  }

  lemma StartKeeps(st: State, run: nat)
    requires Inv(st)
    ensures Inv(StartOp(st, run).0)
  {
    hide QueuesOk, Lossless, RequestsOk, Silent, Muted, Replicated, SentRequests, Terminals;
    var (after, outcome) := StartOp(st, run);
    if outcome.Ok? {
      var s := after.nextSequence;
      var e := Admitted(s);
      CountSnoc(st.log, e);
      QueuesKept(st, after, e);
      RequestsGrow(st, after, e, Start(s, run));
      SilenceKept(st, after, e);
      ReplicatedSnoc(st.log, e);
    }
  }

  lemma CancelKeeps(st: State, s: nat)
    requires Inv(st)
    ensures Inv(CancelOp(st, s).0)
  {
    hide QueuesOk, Lossless, RequestsOk, Silent, Muted, Replicated;
    var (after, found) := CancelOp(st, s);
    if found {
      var e := CancelRequested(s);
      CountSnoc(st.log, e);
      QueuesKept(st, after, e);
      if s in st.cancelled {
        RequestsKept(st, after, e);
      } else {
        RequestsGrow(st, after, e, Cancel(s));
      }
      SilenceKept(st, after, e);
      ReplicatedSnoc(st.log, e);
    }
  }

  lemma {:induction false} DrainKeeps(st: State)
    requires Inv(st)
    ensures Inv(DrainOp(st).0)
    decreases |st.outbound|
  {
    hide Inv;
    if st.outbound == [] {
      assert DrainOp(st).0 == st by {
        assert st.log + SentAll([]) == st.log;
      }
    } else {
      var r := st.outbound[0];
      var next := Record(st.(outbound := st.outbound[1..]), Sent(r));
      SendKeeps(st);
      DrainKeeps(next);
      assert next.log + SentAll(next.outbound) == st.log + SentAll(st.outbound);
    }
  }

  lemma SendKeeps(st: State)
    requires Inv(st) && st.outbound != []
    ensures Inv(Record(st.(outbound := st.outbound[1..]), Sent(st.outbound[0])))
  {
    hide QueuesOk, Lossless, Silent, Muted, Replicated;
    var e := Sent(st.outbound[0]);
    var after := Record(st.(outbound := st.outbound[1..]), e);
    CountSnoc(st.log, e);
    QueuesKept(st, after, e);
    assert SentRequests(after.log) + after.outbound == SentRequests(st.log) + st.outbound;
    forall s: nat
      ensures RunRequestsOk(after, s)
    {
      assert RunRequestsOk(st, s);
    }
    SilenceKept(st, after, e);
    ReplicatedSnoc(st.log, e);
  }

  lemma TakeKeeps(st: State, s: nat)
    requires Inv(st)
    ensures Inv(TakeOp(st, s).0)
  {
    hide RequestsOk, Silent, Muted, Replicated, QueueOk;
    var (after, messages) := TakeOp(st, s);
    if s in st.updates {
      var e := Taken(s, messages);
      CountSnoc(st.log, e);
      forall t: nat
        ensures QueueOk(QueuedFor(after.log, t), Live(after, t), t in after.pending)
        ensures QueuedFor(after.log, t) == TakenFor(after.log, t) + Waiting(after.updates, t)
      {
        QueueSnoc(st.log, e, t);
        assert QueuedFor(after.log, t) == QueuedFor(st.log, t);
        assert QueueOk(QueuedFor(st.log, t), Live(st, t), t in st.pending);
        assert QueuedFor(st.log, t) == TakenFor(st.log, t) + Waiting(st.updates, t);
      }
      RequestsKept(st, after, e);
      SilenceKept(st, after, e);
      ReplicatedSnoc(st.log, e);
    }
  }

  /** Applying events for a run that is pending and not cancelled, up to the first refusal. */
  lemma {:induction false} ApplyKeeps(st: State, s: nat, events: seq<ArtifactEvent>, receiver: Receiver)
    requires Inv(st) && s in st.pending && s !in st.cancelled
    ensures Inv(ApplyOp(st, s, events, receiver).0)
    ensures ApplyOp(st, s, events, receiver).0 == st.(log := ApplyOp(st, s, events, receiver).0.log)
    ensures ApplyOp(st, s, events, receiver).1 ==>
      ApplyOp(st, s, events, receiver).0.log == st.log + AppliedAll(s, events)
    ensures st.log <= ApplyOp(st, s, events, receiver).0.log
    decreases |events|
  {
    hide Inv;
    if events == [] {
      assert st.log + AppliedAll(s, events) == st.log;
    } else if receiver(AppliedEvents(st.log), events[0]) {
      var e := Applied(s, events[0]);
      var next := Record(st, e);
      ApplyOneKeeps(st, e);
      ApplyKeeps(next, s, events[1..], receiver);
      assert next.log + AppliedAll(s, events[1..]) == st.log + AppliedAll(s, events);
    }
  }

  lemma ApplyOneKeeps(st: State, e: Entry)
    requires Inv(st) && e.Applied? && e.sequence in st.pending && e.sequence !in st.cancelled
    ensures Inv(Record(st, e))
  {
    hide QueuesOk, Lossless, RequestsOk, Silent, Muted, Replicated;
    var after := Record(st, e);
    CountSnoc(st.log, e);
    QueuesKept(st, after, e);
    RequestsKept(st, after, e);
    SilenceKept(st, after, e);
    ReplicatedSnoc(st.log, e);
  }

  lemma ReplicatedSnoc(log: Log, e: Entry)
    requires Replicated(log)
    requires e.Queued? && e.message.Artifacts? ==>
      var n := |e.message.events|;
      n <= |log| && log[|log| - n..] == AppliedAll(e.message.sequence, e.message.events)
    ensures Replicated(log + [e])
  {
    var grown := log + [e];
    forall i, m | 0 <= i < |grown| && grown[i] == Queued(m) && m.Artifacts?
      ensures |m.events| <= i && grown[i - |m.events|..i] == AppliedAll(m.sequence, m.events)
    {
      if i < |log| {
        assert log[i] == Queued(m);
        assert grown[i - |m.events|..i] == log[i - |m.events|..i];
      } else {
        assert grown[i - |m.events|..i] == log[|log| - |m.events|..];
      }
    }
  }

  /** Queueing a message for a pending run; only a terminal one may follow a cancellation. */
  lemma DeliverKeeps(st: State, m: Message)
    requires Inv(st) && m.sequence in st.pending
    requires m.Terminal() || m.sequence !in st.cancelled
    requires m.Artifacts? ==>
      |m.events| <= |st.log| && st.log[|st.log| - |m.events|..] == AppliedAll(m.sequence, m.events)
    ensures Inv(DeliverOp(st, m))
  {
    hide QueuesOk, Lossless, RequestsOk, Silent, Muted, Replicated;
    var after := DeliverOp(st, m);
    var e := Queued(m);
    CountSnoc(st.log, e);
    ReplicatedSnoc(st.log, e);
    DeliverQueues(st, m);
    RequestsKept(st, after, e);
    SilenceKept(st, after, e);
  }

  lemma QueueOkSnoc(q: seq<Message>, m: Message)
    requires QueueOk(q, true, true)
    ensures QueueOk(q + [m], true, !m.Terminal())
  {
  }

  lemma DeliverQueues(st: State, m: Message)
    requires QueuesOk(st) && Lossless(st) && m.sequence in st.pending && Live(st, m.sequence)
    ensures QueuesOk(DeliverOp(st, m)) && Lossless(DeliverOp(st, m))
  {
    hide QueueOk, TakenFor, QueuedFor;
    var after := DeliverOp(st, m);
    forall t: nat
      ensures QueueOk(QueuedFor(after.log, t), Live(after, t), t in after.pending)
      ensures QueuedFor(after.log, t) == TakenFor(after.log, t) + Waiting(after.updates, t)
    {
      var queued, taken := QueuedFor(st.log, t), TakenFor(st.log, t);
      QueueSnoc(st.log, Queued(m), t);
      assert QueueOk(queued, Live(st, t), t in st.pending);
      assert queued == taken + Waiting(st.updates, t);
      if t == m.sequence {
        QueueOkSnoc(queued, m);
        assert queued + [m] == taken + (Waiting(st.updates, t) + [m]);
      } else {
        assert QueuedFor(after.log, t) == queued && TakenFor(after.log, t) == taken;
      }
    }
  }

  lemma PublishKeeps(st: State, m: Message, receiver: Receiver)
    requires Inv(st)
    ensures Inv(PublishOp(st, m, receiver).0)
  {
    hide Inv, DeliverOp;
    assert Bounded(st) && st.cancelled <= st.pending by { InvBounded(st); }
    if m.sequence in st.pending && (m.Terminal() || m.sequence !in st.cancelled) {
      if m.Artifacts? {
        ApplyKeeps(st, m.sequence, m.events, receiver);
        var (applied, complete) := ApplyOp(st, m.sequence, m.events, receiver);
        if complete {
          assert applied.log[|applied.log| - |m.events|..] == AppliedAll(m.sequence, m.events);
          DeliverKeeps(applied, m);
        }
      } else {
        DeliverKeeps(st, m);
      }
    }
  }

  lemma InvBounded(st: State)
    requires Inv(st)
    ensures Bounded(st)
  {
  }

  // ----- failing every run -----

  ghost function DeliverEach(st: State, runs: set<nat>, failure: TransportFailure): State
    decreases |runs|
  {
    if runs == {} then st
    else
      var s := Least(runs);
      DeliverEach(DeliverOp(st, Failed(s, Transport(failure))), runs - {s}, failure)
  }

  /** `FailAllOp` is the delivery of one transport failure to each pending run. */
  lemma {:induction false} FailEachDelivers(a: State, b: State, runs: set<nat>, failure: TransportFailure)
    requires a.log == b.log && a.updates == b.updates
    ensures
      var x, y := FailEach(a, runs, failure), DeliverEach(b, runs, failure);
      && x == a.(log := y.log, updates := y.updates)
      && y == b.(log := y.log, updates := y.updates, pending := b.pending - runs, cancelled := b.cancelled - runs)
    decreases |runs|
  {
    if runs == {} {
      assert b.pending - runs == b.pending && b.cancelled - runs == b.cancelled;
    } else {
      var s := Least(runs);
      var m := Failed(s, Transport(failure));
      var a', b' := Enqueue(a, m), DeliverOp(b, m);
      FailEachDelivers(a', b', runs - {s}, failure);
      assert b'.pending - (runs - {s}) == b.pending - runs;
      assert b'.cancelled - (runs - {s}) == b.cancelled - runs;
    }
  }

  lemma {:induction false} DeliverEachKeeps(st: State, runs: set<nat>, failure: TransportFailure)
    requires Inv(st) && runs <= st.pending
    ensures Inv(DeliverEach(st, runs, failure))
    decreases |runs|
  {
    hide Inv;
    if runs != {} {
      var s := Least(runs);
      var m := Failed(s, Transport(failure));
      DeliverKeeps(st, m);
      DeliverEachKeeps(DeliverOp(st, m), runs - {s}, failure);
    }
  }

  lemma {:induction false} RequestsForPrefix(requests: seq<Request>, more: seq<Request>, s: nat)
    ensures RequestsFor(requests, s) <= RequestsFor(requests + more, s)
  {
    if more == [] {
      assert requests + more == requests;
    } else {
      var front := more[..|more| - 1];
      RequestsForPrefix(requests, front, s);
      assert requests + more == (requests + front) + [more[|more| - 1]];
      RequestsSnoc(requests + front, more[|more| - 1], s);
    }
  }

  lemma FailAllKeeps(st: State, failure: TransportFailure)
    requires Inv(st)
    ensures Inv(FailAllOp(st, failure))
    ensures FailAllOp(st, failure).pending == {}
    ensures FailAllOp(st, failure).disconnected == Some(failure)
    ensures FailAllOp(st, failure).nextSequence == st.nextSequence
  {
    var cleared := st.(disconnected := Some(failure), pending := {}, cancelled := {}, outbound := []);
    FailEachDelivers(cleared, st, st.pending, failure);
    var delivered := DeliverEach(st, st.pending, failure);
    DeliverEachKeeps(st, st.pending, failure);
    var after := FailAllOp(st, failure);
    assert st.pending - st.pending == {} && st.cancelled - st.pending == {};
    assert after == delivered.(disconnected := Some(failure), outbound := []);
    ClearKeeps(delivered, failure);
  }

  lemma ClearKeeps(st: State, failure: TransportFailure)
    requires Inv(st) && st.pending == {} && st.cancelled == {}
    ensures Inv(st.(disconnected := Some(failure), outbound := []))
  {
    var after := st.(disconnected := Some(failure), outbound := []);
    assert SentRequests(after.log) + after.outbound == SentRequests(st.log);
    forall s: nat
      ensures RunRequestsOk(after, s)
    {
      RequestsForPrefix(SentRequests(st.log), st.outbound, s);
      var r, all := RequestsFor(SentRequests(st.log), s), RequestsFor(SentRequests(st.log) + st.outbound, s);
      assert RunRequestsOk(st, s);
      assert r == all[..|r|];
    }
    forall s: nat
      ensures QueueOk(QueuedFor(after.log, s), Live(after, s), s in after.pending)
      ensures QueuedFor(after.log, s) == TakenFor(after.log, s) + Waiting(after.updates, s)
    {
      assert QueueOk(QueuedFor(st.log, s), Live(st, s), s in st.pending);
    }
  }

  // ----- every call sequence -----

  datatype Call =
    | CallStart(run: nat)
    | CallCancel(sequence: nat)
    | CallDrain
    | CallPublish(message: Message)
    | CallTake(sequence: nat)
    | CallFailAll(failure: TransportFailure)

  ghost function Step(st: State, call: Call, receiver: Receiver): State {
    match call
    case CallStart(run) => StartOp(st, run).0
    case CallCancel(s) => CancelOp(st, s).0
    case CallDrain => DrainOp(st).0
    case CallPublish(m) => PublishOp(st, m, receiver).0
    case CallTake(s) => TakeOp(st, s).0
    case CallFailAll(failure) => FailAllOp(st, failure)
  }

  ghost function Run(st: State, calls: seq<Call>, receiver: Receiver): State {
    if calls == [] then st else Step(Run(st, calls[..|calls| - 1], receiver), calls[|calls| - 1], receiver)
  }

  lemma StepKeeps(st: State, call: Call, receiver: Receiver)
    requires Inv(st)
    ensures Inv(Step(st, call, receiver))
  {
    hide Inv;
    match call
    case CallStart(run) => StartKeeps(st, run);
    case CallCancel(s) => CancelKeeps(st, s);
    case CallDrain => DrainKeeps(st);
    case CallPublish(m) => PublishKeeps(st, m, receiver);
    case CallTake(s) => TakeKeeps(st, s);
    case CallFailAll(failure) => FailAllKeeps(st, failure);
  }

  /** The invariant holds after every sequence of calls. */
  lemma {:induction false} RunInv(maxOutstanding: nat, calls: seq<Call>, receiver: Receiver)
    ensures Inv(Run(Init(maxOutstanding), calls, receiver))
  {
    hide Inv;
    if calls == [] {
      InitInv(maxOutstanding);
    } else {
      RunInv(maxOutstanding, calls[..|calls| - 1], receiver);
      StepKeeps(Run(Init(maxOutstanding), calls[..|calls| - 1], receiver), calls[|calls| - 1], receiver);
    }
  }

  // ----- the log only grows -----

  lemma {:induction false} FailEachGrows(st: State, runs: set<nat>, failure: TransportFailure)
    ensures st.log <= FailEach(st, runs, failure).log
    decreases |runs|
  {
    if runs != {} {
      var s := Least(runs);
      FailEachGrows(Enqueue(st, Failed(s, Transport(failure))), runs - {s}, failure);
    }
  }

  lemma {:induction false} ApplyGrows(st: State, s: nat, events: seq<ArtifactEvent>, receiver: Receiver)
    ensures st.log <= ApplyOp(st, s, events, receiver).0.log
    decreases |events|
  {
    if events != [] && receiver(AppliedEvents(st.log), events[0]) {
      ApplyGrows(Record(st, Applied(s, events[0])), s, events[1..], receiver);
    }
  }

  lemma StepGrows(st: State, call: Call, receiver: Receiver)
    ensures st.log <= Step(st, call, receiver).log
  {
    match call
    case CallPublish(m) =>
      if m.Artifacts? {
        ApplyGrows(st, m.sequence, m.events, receiver);
      }
    case CallFailAll(failure) =>
      FailEachGrows(st.(disconnected := Some(failure), pending := {}, cancelled := {}, outbound := []),
                    st.pending, failure);
    case _ =>
  }

  /** A longer call sequence extends the log of a shorter one. */
  lemma {:induction false} RunGrows(st: State, calls: seq<Call>, more: seq<Call>, receiver: Receiver)
    ensures Run(st, calls, receiver).log <= Run(st, calls + more, receiver).log
  {
    if more == [] {
      assert calls + more == calls;
    } else {
      var front := more[..|more| - 1];
      RunGrows(st, calls, front, receiver);
      assert (calls + more)[..|calls + more| - 1] == calls + front;
      StepGrows(Run(st, calls + front, receiver), more[|more| - 1], receiver);
    }
  }

  // ----- what no run can show -----

  lemma {:induction false} QueuedForPrefix(log: Log, n: nat, s: nat)
    requires n <= |log|
    ensures QueuedFor(log[..n], s) <= QueuedFor(log, s)
  {
    if n == |log| {
      assert log[..n] == log;
    } else {
      QueuedForPrefix(log[..|log| - 1], n, s);
      assert log[..|log| - 1][..n] == log[..n];
    }
  }

  /** The position of a queued message inside its run's update history. */
  lemma QueuedAt(log: Log, i: nat)
    requires i < |log| && log[i].Queued?
    ensures
      var m := log[i].message;
      var k := |QueuedFor(log[..i], m.sequence)|;
      && |QueuedFor(log[..i + 1], m.sequence)| == k + 1
      && k < |QueuedFor(log, m.sequence)| && QueuedFor(log, m.sequence)[k] == m
  {
    var s := log[i].message.sequence;
    assert log[..i + 1] == log[..i] + [log[i]];
    QueueSnoc(log[..i], log[i], s);
    QueuedForPrefix(log, i + 1, s);
  }

  lemma TerminalLastInLog(st: State, i: nat, j: nat)
    requires QueuesOk(st)
    requires i < j < |st.log| && st.log[i].Queued? && st.log[j].Queued? && st.log[i].message.Terminal()
    ensures st.log[i].message.sequence != st.log[j].message.sequence
  {
    hide QueuedFor;
    var s := st.log[i].message.sequence;
    assert QueueOk(QueuedFor(st.log, s), Live(st, s), s in st.pending);
    QueuedAt(st.log, i);
    QueuedAt(st.log, j);
    assert st.log[..j][..i + 1] == st.log[..i + 1];
    QueuedForPrefix(st.log[..j], i + 1, s);
  }

  /** A terminal message is the last update ever queued for its run, so there is at most one. */
  lemma TerminalIsLast(maxOutstanding: nat, calls: seq<Call>, receiver: Receiver, i: nat, j: nat)
    requires
      var log := Run(Init(maxOutstanding), calls, receiver).log;
      && i < j < |log| && log[i].Queued? && log[j].Queued? && log[i].message.Terminal()
    ensures
      var log := Run(Init(maxOutstanding), calls, receiver).log;
      log[i].message.sequence != log[j].message.sequence
  {
    hide Run, QueuesOk;
    RunInv(maxOutstanding, calls, receiver);
    TerminalLastInLog(Run(Init(maxOutstanding), calls, receiver), i, j);
  }

  /** All events of a queued artifact batch were applied, in order, before its run's terminal message was queued. */
  lemma ArtifactsPrecedeTerminal(maxOutstanding: nat, calls: seq<Call>, receiver: Receiver, i: nat, k: nat)
    requires
      var log := Run(Init(maxOutstanding), calls, receiver).log;
      && i < |log| && k < |log| && log[i].Queued? && log[k].Queued? && log[i].message.Artifacts?
      && log[k].message.Terminal() && log[i].message.sequence == log[k].message.sequence
    ensures
      var log := Run(Init(maxOutstanding), calls, receiver).log;
      var m := log[i].message;
      && |m.events| <= i < k
      && log[i - |m.events|..i] == AppliedAll(m.sequence, m.events)
  {
    hide Run, QueuesOk;
    var st := Run(Init(maxOutstanding), calls, receiver);
    RunInv(maxOutstanding, calls, receiver);
    assert st.log[i] == Queued(st.log[i].message);
    if k < i {
      TerminalIsLast(maxOutstanding, calls, receiver, k, i);
    }
  }

  /** Once a cancellation is acknowledged, no continuation queues or applies anything but the run's end. */
  lemma CancelledRunStaysSilent(maxOutstanding: nat, calls: seq<Call>, receiver: Receiver,
                                s: nat, more: seq<Call>, j: nat)
    requires
      var before := Run(Init(maxOutstanding), calls, receiver);
      var later := Run(Init(maxOutstanding), calls + [CallCancel(s)] + more, receiver);
      CancelOp(before, s).1 && |before.log| < j < |later.log|
    ensures
      var later := Run(Init(maxOutstanding), calls + [CallCancel(s)] + more, receiver);
      !Noisy(later.log[j], s)
  {
    var init := Init(maxOutstanding);
    var before := Run(init, calls, receiver);
    var acknowledged := calls + [CallCancel(s)];
    assert acknowledged[..|calls|] == calls;
    RunGrows(init, acknowledged, more, receiver);
    RunInv(maxOutstanding, acknowledged + more, receiver);
    var later := Run(init, acknowledged + more, receiver);
    assert later.log[|before.log|] == CancelRequested(s);
    assert Silent(later.log);
  }

  /** Bounds, numbering, accounting, request order and lossless delivery, after every call sequence. */
  lemma RunGuarantees(maxOutstanding: nat, calls: seq<Call>, receiver: Receiver, s: nat)
    ensures
      var st := Run(Init(maxOutstanding), calls, receiver);
      && |st.pending| <= st.maxOutstanding && st.cancelled <= st.pending
      && st.nextSequence == |st.pending| + Terminals(st.log)
      && |Admissions(st.log)| == st.nextSequence
      && (forall i :: 0 <= i < st.nextSequence ==> Admissions(st.log)[i] == i + 1)
      && QueuedFor(st.log, s) == TakenFor(st.log, s) + Waiting(st.updates, s)
      && InOrder(RequestsFor(SentRequests(st.log), s))
      && (Ended(QueuedFor(st.log, s)) <==> 1 <= s <= st.nextSequence && s !in st.pending)
  {
    var st := Run(Init(maxOutstanding), calls, receiver);
    RunInv(maxOutstanding, calls, receiver);
    RequestsForPrefix(SentRequests(st.log), st.outbound, s);
    assert RunRequestsOk(st, s);
    assert QueueOk(QueuedFor(st.log, s), Live(st, s), s in st.pending);
    var r, all := RequestsFor(SentRequests(st.log), s), RequestsFor(SentRequests(st.log) + st.outbound, s);
    assert r == all[..|r|];
  }

  // ----- what each call answers -----

  /** The receiver takes every event, each one after all before it. */
  ghost predicate TakesAll(receiver: Receiver, before: seq<ArtifactEvent>, events: seq<ArtifactEvent>) {
    forall k :: 0 <= k < |events| ==> receiver(before + events[..k], events[k])
  }

  lemma TakesCons(receiver: Receiver, before: seq<ArtifactEvent>, e: ArtifactEvent, rest: seq<ArtifactEvent>)
    ensures TakesAll(receiver, before, [e] + rest) <==> receiver(before, e) && TakesAll(receiver, before + [e], rest)
  {
    var events := [e] + rest;
    assert before + events[..0] == before && events[0] == e;
    forall k | 0 <= k < |rest|
      ensures before + events[..k + 1] == (before + [e]) + rest[..k] && events[k + 1] == rest[k]
    {
      assert events[..k + 1] == [e] + rest[..k];
    }
    if receiver(before, e) && TakesAll(receiver, before + [e], rest) {
      forall k | 0 <= k < |events|
        ensures receiver(before + events[..k], events[k])
      {
        assert k == 0 || receiver((before + [e]) + rest[..k - 1], rest[k - 1]);
      }
    }
    if TakesAll(receiver, before, events) {
      assert receiver(before + events[..0], events[0]);
      forall k | 0 <= k < |rest|
        ensures receiver((before + [e]) + rest[..k], rest[k])
      {
        assert receiver(before + events[..k + 1], events[k + 1]);
      }
    }
  }

  /** Applying completes exactly when the receiver takes every event. */
  lemma {:induction false} ApplyCompletesIff(st: State, s: nat, events: seq<ArtifactEvent>, receiver: Receiver)
    ensures ApplyOp(st, s, events, receiver).1 <==> TakesAll(receiver, AppliedEvents(st.log), events)
    ensures ApplyOp(st, s, events, receiver).1 ==>
      AppliedEvents(ApplyOp(st, s, events, receiver).0.log) == AppliedEvents(st.log) + events
    decreases |events|
  {
    if events == [] {
      assert AppliedEvents(st.log) + events == AppliedEvents(st.log);
    } else {
      ApplyFirst(st, s, events, receiver);
      ApplyCompletesIff(Record(st, Applied(s, events[0])), s, events[1..], receiver);
    }
  }

  /** The first event decides alone, or leaves the rest to the state that has it. */
  lemma ApplyFirst(st: State, s: nat, events: seq<ArtifactEvent>, receiver: Receiver)
    requires events != []
    ensures
      var before, next := AppliedEvents(st.log), Record(st, Applied(s, events[0]));
      && AppliedEvents(next.log) == before + [events[0]]
      && (before + [events[0]]) + events[1..] == before + events
      && (TakesAll(receiver, before, events) <==>
            receiver(before, events[0]) && TakesAll(receiver, AppliedEvents(next.log), events[1..]))
  {
    hide TakesAll, AppliedEvents;
    AppliedSnoc(st.log, Applied(s, events[0]));
    assert events == [events[0]] + events[1..];
    TakesCons(receiver, AppliedEvents(st.log), events[0], events[1..]);
  }

  /** A message that its run can still take: pending, not silenced, and with every artifact event taken. */
  ghost predicate Admissible(st: State, m: Message, receiver: Receiver) {
    && m.sequence in st.pending && (m.Terminal() || m.sequence !in st.cancelled)
    && (m.Artifacts? ==> TakesAll(receiver, AppliedEvents(st.log), m.events))
  }

  ghost function AppliedBy(m: Message): seq<ArtifactEvent> {
    if m.Artifacts? then m.events else []
  }

  /** An admissible message is queued for its run and for no other; a terminal one ends the run. */
  lemma PublishDelivers(st: State, m: Message, receiver: Receiver)
    requires Inv(st) && Admissible(st, m, receiver)
    ensures
      var (after, outcome) := PublishOp(st, m, receiver);
      && outcome == Ok(())
      && QueuedFor(after.log, m.sequence) == QueuedFor(st.log, m.sequence) + [m]
      && Waiting(after.updates, m.sequence) == Waiting(st.updates, m.sequence) + [m]
      && (forall t: nat :: t != m.sequence ==> Waiting(after.updates, t) == Waiting(st.updates, t))
      && AppliedEvents(after.log) == AppliedEvents(st.log) + AppliedBy(m)
      && (m.sequence !in after.pending <==> m.Terminal())
      && after.pending == st.pending - (if m.Terminal() then {m.sequence} else {})
  {
    hide Inv, AppliedEvents, QueuedFor, TakesAll;
    var applied := st;
    if m.Artifacts? {
      ApplyCompletesIff(st, m.sequence, m.events, receiver);
      ApplyKeeps(st, m.sequence, m.events, receiver);
      applied := ApplyOp(st, m.sequence, m.events, receiver).0;
      AppliedQueuesNothing(st.log, m.sequence, m.events);
    }
    QueueSnoc(applied.log, Queued(m), m.sequence);
    AppliedSnoc(applied.log, Queued(m));
    assert AppliedEvents(applied.log) + [] == AppliedEvents(applied.log);
  }

  lemma {:induction false} AppliedQueuesNothing(log: Log, s: nat, events: seq<ArtifactEvent>)
    ensures QueuedFor(log + AppliedAll(s, events), s) == QueuedFor(log, s)
  {
    if events == [] {
      assert log + AppliedAll(s, events) == log;
    } else {
      var front := events[..|events| - 1];
      AppliedQueuesNothing(log, s, front);
      assert log + AppliedAll(s, events) == (log + AppliedAll(s, front)) + [Applied(s, events[|events| - 1])];
      QueueSnoc(log + AppliedAll(s, front), Applied(s, events[|events| - 1]), s);
    }
  }

  /** Everything else queues nothing: unknown runs are refused, silenced messages dropped, refused events reported. */
  lemma PublishWithholds(st: State, m: Message, receiver: Receiver)
    requires Inv(st) && !Admissible(st, m, receiver)
    ensures
      var (after, outcome) := PublishOp(st, m, receiver);
      && after.updates == st.updates && after.pending == st.pending && after.cancelled == st.cancelled
      && (m.sequence !in st.pending ==> after == st && outcome == Err(UnexpectedSequence(m.sequence)))
      && (m.sequence in st.pending && m.sequence in st.cancelled ==> after == st && outcome == Ok(()))
      && (m.sequence in st.pending && m.sequence !in st.cancelled ==> outcome == Err(ArtifactReplication))
  {
    hide Inv, AppliedEvents, TakesAll;
    if m.Artifacts? && m.sequence in st.pending && m.sequence !in st.cancelled {
      ApplyCompletesIff(st, m.sequence, m.events, receiver);
      ApplyKeeps(st, m.sequence, m.events, receiver);
    }
  }

  lemma NextIsNew(st: State)
    requires Inv(st)
    ensures st.nextSequence + 1 !in st.pending && st.nextSequence + 1 !in st.cancelled
    ensures QueuedFor(st.log, st.nextSequence + 1) == []
    ensures |st.pending| <= st.maxOutstanding && st.nextSequence <= U64_MAX
  {
    var s := st.nextSequence + 1;
    assert QueueOk(QueuedFor(st.log, s), Live(st, s), s in st.pending);
  }

  /** A start is answered by the next number, and its request waits with the caller's run; or a named limit refuses. */
  lemma StartAnswers(st: State, run: nat)
    requires Inv(st)
    ensures
      var (after, outcome) := StartOp(st, run);
      && (outcome.Ok? <==> st.disconnected.None? && |st.pending| < st.maxOutstanding && st.nextSequence < U64_MAX)
      && (outcome.Ok? ==>
            && outcome.value == st.nextSequence + 1 == after.nextSequence
            && outcome.value !in st.pending && after.pending == st.pending + {outcome.value}
            && outcome.value !in after.cancelled && QueuedFor(st.log, outcome.value) == []
            && DrainOp(after).1 == DrainOp(st).1 + [Start(outcome.value, run)])
      && (outcome.Err? ==>
            && after == st
            && (outcome.error.Disconnected? ==> st.disconnected == Some(outcome.error.failure))
            && (outcome.error.QueueFull? ==> |st.pending| == st.maxOutstanding == outcome.error.limit)
            && (outcome.error.SequenceExhausted? ==> st.nextSequence == U64_MAX)
            && (outcome.error.Disconnected? || outcome.error.QueueFull? || outcome.error.SequenceExhausted?))
  {
    hide Inv, QueuedFor;
    NextIsNew(st);
  }

  /** A cancellation is acknowledged exactly for pending runs, and its request follows whatever waits, once. */
  lemma CancelAnswers(st: State, s: nat)
    ensures
      var (after, found) := CancelOp(st, s);
      && (found <==> s in st.pending)
      && (found ==> s in after.cancelled && after.pending == st.pending)
      && (!found ==> after == st)
      && DrainOp(after).1 == DrainOp(st).1 + (if found && s !in st.cancelled then [Cancel(s)] else [])
  {
  }

  /** A take hands out everything queued for the run that was not handed out before, and touches no other run. */
  lemma TakeHandsOut(st: State, s: nat)
    requires Inv(st)
    ensures
      var (after, messages) := TakeOp(st, s);
      && QueuedFor(st.log, s) == TakenFor(st.log, s) + messages
      && TakenFor(after.log, s) == QueuedFor(st.log, s)
      && Waiting(after.updates, s) == []
      && forall t: nat :: t != s ==> Waiting(after.updates, t) == Waiting(st.updates, t)
  {
    var (after, messages) := TakeOp(st, s);
    assert QueuedFor(st.log, s) == TakenFor(st.log, s) + Waiting(st.updates, s);
    if s in st.updates {
      QueueSnoc(st.log, Taken(s, messages), s);
    }
  }

  /** Failing everything appends exactly one transport failure for each pending run and nothing for the others. */
  lemma FailAllAnswers(st: State, failure: TransportFailure, s: nat)
    ensures Waiting(FailAllOp(st, failure).updates, s)
      == Waiting(st.updates, s) + (if s in st.pending then [Failed(s, Transport(failure))] else [])
  {
    var cleared := st.(disconnected := Some(failure), pending := {}, cancelled := {}, outbound := []);
    FailEachWaiting(cleared, st.pending, failure, s);
  }

  lemma {:induction false} FailEachWaiting(st: State, runs: set<nat>, failure: TransportFailure, s: nat)
    ensures Waiting(FailEach(st, runs, failure).updates, s)
      == Waiting(st.updates, s) + (if s in runs then [Failed(s, Transport(failure))] else [])
    decreases |runs|
  {
    if runs != {} {
      var least := Least(runs);
      FailEachWaiting(Enqueue(st, Failed(least, Transport(failure))), runs - {least}, failure, s);
    }
  }

  /**
   After any calls, a terminal message published for a pending run ends that
   run, frees its place, and the next take of the run hands it out last.
   */
  lemma TerminalEndsRun(maxOutstanding: nat, calls: seq<Call>, receiver: Receiver, m: Message)
    requires m.Finished? || m.Failed? || m.Cancelled?
    requires m.sequence in Run(Init(maxOutstanding), calls, receiver).pending
    ensures
      var st := Run(Init(maxOutstanding), calls, receiver);
      var after := Run(Init(maxOutstanding), calls + [CallPublish(m)], receiver);
      var messages := TakeOp(after, m.sequence).1;
      && Ended(QueuedFor(after.log, m.sequence)) && after.pending == st.pending - {m.sequence}
      && messages != [] && messages[|messages| - 1] == m
      && (st.disconnected.None? && st.nextSequence < U64_MAX ==> StartOp(after, 0).1.Ok?)
  {
    hide Inv, QueuedFor;
    var st := Run(Init(maxOutstanding), calls, receiver);
    RunInv(maxOutstanding, calls, receiver);
    assert (calls + [CallPublish(m)])[..|calls|] == calls;
    PublishDelivers(st, m, receiver);
    InvBounded(st);
  }
}
