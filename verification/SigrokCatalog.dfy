/**
 The generation-tagged background scan of decoder directories.

 A scan task keeps the directory list it was started with and reports under the
 generation number of its start. Tasks finish in any order; polling accepts a
 report only when its generation is the current one. `State` adds to the
 catalog's fields the tasks still running, and a serial number per scan that,
 unlike the 64-bit generation, never wraps.
 */
module SigrokCatalog {
  import opened Common

  const GENERATIONS: nat := U64_MAX + 1

  type Directories = seq<nat>

  datatype ScanResult = Found(entries: seq<nat>, diagnostics: seq<nat>) | ScanFailed(diagnostic: nat)

  datatype Task = Task(serial: nat, generation: U64, directories: Directories)

  datatype Delivery = Delivery(task: Task, result: ScanResult)

  /** An accepted report with the serial and directory list that were current then. */
  datatype Acceptance = Acceptance(delivery: Delivery, serial: nat, directories: Directories)

  datatype State = State(
    directories: Directories,
    generation: U64,
    scanning: bool,
    discovered: nat,
    diagnostics: seq<nat>,
    templates: Option<seq<nat>>,
    channel: seq<Delivery>,
    running: set<Task>,
    scans: nat,
    accepted: seq<Acceptance>)

  // ----- operations -----

  function NextGeneration(generation: U64): U64 {
    if generation == U64_MAX then 0 else generation + 1
  }

  ghost function StartScanOp(st: State): State {
    var task := Task(st.scans + 1, NextGeneration(st.generation), st.directories);
    st.(generation := task.generation, scanning := true, running := st.running + {task}, scans := st.scans + 1)
  }

  ghost function Init(directories: Directories): State {
    StartScanOp(State(directories, 0, false, 0, [], None, [], {}, 0, []))
  }

  /** A task reports its result; one that dies never does. */
  ghost function FinishOp(st: State, task: Task, result: ScanResult): State {
    if task !in st.running then st
    else st.(running := st.running - {task}, channel := st.channel + [Delivery(task, result)])
  }

  ghost function DieOp(st: State, task: Task): State {
    st.(running := st.running - {task})
  }

  ghost function AcceptOp(st: State, d: Delivery): State {
    var accepted := st.(scanning := false, accepted := st.accepted + [Acceptance(d, st.scans, st.directories)]);
    match d.result
    case Found(entries, diagnostics) =>
      accepted.(discovered := |entries|, diagnostics := diagnostics, templates := Some(entries))
    case ScanFailed(diagnostic) => accepted.(diagnostics := [diagnostic])
  }

  ghost function ReceiveOp(st: State, d: Delivery): State {
    if d.task.generation != st.generation then st else AcceptOp(st, d)
  }

  /** Receives everything that has been delivered, in order. */
  ghost function PollOp(st: State): State
    decreases |st.channel|
  {
    if st.channel == [] then st
    else PollOp(ReceiveOp(st.(channel := st.channel[1..]), st.channel[0]))
  }

  ghost function AddOp(st: State, choice: Option<nat>): State {
    if choice.None? || choice.value in st.directories then st
    else StartScanOp(st.(directories := st.directories + [choice.value]))
  }

  ghost function RemoveOp(st: State, index: nat): State {
    if index < |st.directories|
    then StartScanOp(st.(directories := st.directories[..index] + st.directories[index + 1..]))
    else st
  }

  ghost function TakeOp(st: State): (State, Option<seq<nat>>) {
    var polled := PollOp(st);
    (polled.(templates := None), polled.templates)
  }

  // ----- the catalog object -----

  class SigrokDirectoryCatalog {
    var directories: Directories
    var generation: U64
    var scanning: bool
    var discovered: nat
    var diagnostics: seq<nat>
    var templates: Option<seq<nat>>
    var channel: seq<Delivery>
    ghost var running: set<Task>
    ghost var scans: nat
    ghost var accepted: seq<Acceptance>

    ghost function View(): State
      reads this
    {
      State(directories, generation, scanning, discovered, diagnostics, templates, channel, running, scans, accepted)
    }

    constructor (directories: Directories)
      ensures View() == Init(directories)
    {
      this.directories := directories;
      generation, scanning, discovered, diagnostics, templates, channel := 0, false, 0, [], None, [];
      running, scans, accepted := {}, 0, [];
      new;
      StartScan();
    }

    method StartScan()
      modifies this
      ensures View() == StartScanOp(old(View()))
    {
      generation := NextGeneration(generation);
      scanning := true;
      running := running + {Task(scans + 1, generation, directories)};
      scans := scans + 1;
    }

    method Poll()
      modifies this
      ensures View() == PollOp(old(View()))
    {
      while channel != []
        invariant PollOp(View()) == PollOp(old(View()))
        decreases |channel|
      {
        var delivery := channel[0];
        ghost var before := View();
        channel := channel[1..];
        if delivery.task.generation == generation {
          scanning := false;
          match delivery.result {
            case Found(entries, found) =>
              discovered, diagnostics, templates := |entries|, found, Some(entries);
            case ScanFailed(diagnostic) =>
              diagnostics := [diagnostic];
          }
          accepted := accepted + [Acceptance(delivery, scans, directories)];
        }
        assert View() == ReceiveOp(before.(channel := before.channel[1..]), delivery);
      }
    }

    method AddDirectory(choice: Option<nat>)
      modifies this
      ensures View() == AddOp(old(View()), choice)
    {
      if choice.None? {
        return;
      }
      if choice.value !in directories {
        directories := directories + [choice.value];
        StartScan();
      }
    }

    method RemoveDirectory(index: nat)
      modifies this
      ensures View() == RemoveOp(old(View()), index)
    {
      if index < |directories| {
        directories := directories[..index] + directories[index + 1..];
        StartScan();
      }
    }

    method TakeTemplates() returns (taken: Option<seq<nat>>)
      modifies this
      ensures (View(), taken) == TakeOp(old(View()))
    {
      Poll();
      taken := templates;
      templates := None;
    }
  }

  // ----- the invariant -----

  /** A task carries its own serial's generation, and the newest one the current directory list. */
  ghost predicate TaskOk(st: State, t: Task) {
    && 1 <= t.serial <= st.scans && t.generation == t.serial % GENERATIONS
    && (t.serial == st.scans ==> t.directories == st.directories)
  }

  ghost predicate AcceptedSerial(st: State, serial: nat) {
    exists i :: 0 <= i < |st.accepted| && st.accepted[i].delivery.task.serial == serial
  }

  /** Serials are unique over running, delivered and accepted tasks. */
  ghost predicate SerialsUnique(st: State) {
    && (forall s, t :: s in st.running && t in st.running && s.serial == t.serial ==> s == t)
    && (forall i, t :: 0 <= i < |st.channel| && t in st.running ==> st.channel[i].task.serial != t.serial)
    && (forall i, j :: 0 <= i < j < |st.channel| ==> st.channel[i].task.serial != st.channel[j].task.serial)
    && (forall t :: t in st.running ==> !AcceptedSerial(st, t.serial))
    && (forall i :: 0 <= i < |st.channel| ==> !AcceptedSerial(st, st.channel[i].task.serial))
  }

  /** Every accepted report was the newest scan's, computed from the list current at that moment; none twice. */
  ghost predicate AcceptancesOk(st: State) {
    && (forall i :: 0 <= i < |st.accepted| ==>
          var a := st.accepted[i];
          && a.delivery.task.serial == a.serial <= st.scans
          && a.delivery.task.directories == a.directories
          && (a.serial == st.scans ==> a.directories == st.directories))
    && forall i, j :: 0 <= i < j < |st.accepted| ==> st.accepted[i].serial < st.accepted[j].serial
  }

  ghost predicate Inv(st: State) {
    && st.generation == st.scans % GENERATIONS
    && (forall t :: t in st.running ==> TaskOk(st, t))
    && (forall i :: 0 <= i < |st.channel| ==> TaskOk(st, st.channel[i].task))
    && SerialsUnique(st) && AcceptancesOk(st)
    && (st.scanning <==> !AcceptedSerial(st, st.scans))
  }

  lemma GenerationStep(scans: nat)
    ensures (scans % GENERATIONS) <= U64_MAX
    ensures NextGeneration(scans % GENERATIONS) == (scans + 1) % GENERATIONS
  {
  }

  lemma StartKeeps(st: State, directories: Directories)
    requires Inv(st)
    ensures Inv(StartScanOp(st.(directories := directories)))
  {
    GenerationStep(st.scans);
    var after := StartScanOp(st.(directories := directories));
    forall i | 0 <= i < |after.accepted|
      ensures after.accepted[i].delivery.task.serial != after.scans
    {
      assert st.accepted[i].delivery.task.serial <= st.scans;
    }
    forall t | t in after.running
      ensures TaskOk(after, t) && !AcceptedSerial(after, t.serial)
    {
      assert t in st.running ==> TaskOk(st, t) && !AcceptedSerial(st, t.serial);
    }
    forall i | 0 <= i < |after.channel|
      ensures TaskOk(after, after.channel[i].task) && !AcceptedSerial(after, after.channel[i].task.serial)
    {
      assert TaskOk(st, st.channel[i].task) && !AcceptedSerial(st, st.channel[i].task.serial);
    }
  }

  lemma FinishKeeps(st: State, task: Task, result: ScanResult)
    requires Inv(st)
    ensures Inv(FinishOp(st, task, result))
  {
    if task in st.running {
      var after := FinishOp(st, task, result);
      assert after.channel[|st.channel|].task == task;
      assert TaskOk(st, task) && !AcceptedSerial(st, task.serial);
      forall t | t in after.running
        ensures TaskOk(after, t) && !AcceptedSerial(after, t.serial) && t.serial != task.serial
      {
        assert TaskOk(st, t) && !AcceptedSerial(st, t.serial);
      }
      forall i | 0 <= i < |after.channel|
        ensures TaskOk(after, after.channel[i].task) && !AcceptedSerial(after, after.channel[i].task.serial)
      {
        if i < |st.channel| {
          assert TaskOk(st, st.channel[i].task) && !AcceptedSerial(st, st.channel[i].task.serial);
        }
      }
    }
  }

  lemma DieKeeps(st: State, task: Task)
    requires Inv(st)
    ensures Inv(DieOp(st, task))
  {
    var after := DieOp(st, task);
    forall t | t in after.running
      ensures TaskOk(after, t) && !AcceptedSerial(after, t.serial)
    {
      assert TaskOk(st, t) && !AcceptedSerial(st, t.serial);
    }
    forall i | 0 <= i < |after.channel|
      ensures TaskOk(after, after.channel[i].task) && !AcceptedSerial(after, after.channel[i].task.serial)
    {
      assert TaskOk(st, st.channel[i].task) && !AcceptedSerial(st, st.channel[i].task.serial);
    }
  }

  /** Within 2^64 scans, equal generations mean equal serials. */
  lemma SameGeneration(serial: nat, scans: nat)
    requires 1 <= serial <= scans <= GENERATIONS
    ensures serial % GENERATIONS == scans % GENERATIONS <==> serial == scans
  {
  }

  lemma ReceiveKeeps(st: State)
    requires Inv(st) && st.channel != [] && st.scans <= GENERATIONS
    ensures Inv(ReceiveOp(st.(channel := st.channel[1..]), st.channel[0]))
  {
    var d := st.channel[0];
    var rest := st.(channel := st.channel[1..]);
    var after := ReceiveOp(rest, d);
    assert TaskOk(st, d.task) && !AcceptedSerial(st, d.task.serial);
    SameGeneration(d.task.serial, st.scans);
    assert forall i {:trigger rest.channel[i]} :: 0 <= i < |rest.channel| ==> rest.channel[i] == st.channel[i + 1];
    forall t | t in after.running
      ensures TaskOk(after, t) && !AcceptedSerial(after, t.serial)
    {
      assert TaskOk(st, t) && !AcceptedSerial(st, t.serial) && d.task.serial != t.serial;
    }
    forall i | 0 <= i < |after.channel|
      ensures TaskOk(after, after.channel[i].task) && !AcceptedSerial(after, after.channel[i].task.serial)
    {
      assert TaskOk(st, st.channel[i + 1].task) && !AcceptedSerial(st, st.channel[i + 1].task.serial);
      assert st.channel[0].task.serial != st.channel[i + 1].task.serial;
    }
    if d.task.generation == st.generation {
      AcceptKeeps(st, d, after);
    } else {
      assert AcceptedSerial(after, after.scans) <==> AcceptedSerial(st, st.scans);
    }
  }

  lemma AcceptKeeps(st: State, d: Delivery, after: State)
    requires Inv(st) && TaskOk(st, d.task) && d.task.serial == st.scans && !AcceptedSerial(st, d.task.serial)
    requires after.accepted == st.accepted + [Acceptance(d, st.scans, st.directories)]
    requires after.scans == st.scans && after.directories == st.directories
    ensures AcceptancesOk(after) && AcceptedSerial(after, after.scans)
  {
    assert after.accepted[|st.accepted|].delivery.task.serial == after.scans;
    forall i, j | 0 <= i < j < |after.accepted|
      ensures after.accepted[i].serial < after.accepted[j].serial
    {
      if j == |st.accepted| {
        assert st.accepted[i].delivery.task.serial == st.accepted[i].serial <= st.scans;
      }
    }
  }

  lemma {:induction false} PollKeeps(st: State)
    requires Inv(st) && st.scans <= GENERATIONS
    ensures Inv(PollOp(st)) && PollOp(st).scans == st.scans && PollOp(st).channel == []
    decreases |st.channel|
  {
    hide Inv;
    if st.channel != [] {
      ReceiveKeeps(st);
      PollKeeps(ReceiveOp(st.(channel := st.channel[1..]), st.channel[0]));
    }
  }

  // ----- every interleaving -----

  datatype Event =
    | Add(choice: Option<nat>)
    | Remove(index: nat)
    | Rescan
    | Finish(task: Task, result: ScanResult)
    | Die(task: Task)
    | Poll
    | TakeTemplates

  ghost function Step(st: State, event: Event): State {
    match event
    case Add(choice) => AddOp(st, choice)
    case Remove(index) => RemoveOp(st, index)
    case Rescan => StartScanOp(st)
    case Finish(task, result) => FinishOp(st, task, result)
    case Die(task) => DieOp(st, task)
    case Poll => PollOp(st)
    case TakeTemplates => TakeOp(st).0
  }

  ghost function Run(st: State, events: seq<Event>): State {
    if events == [] then st else Step(Run(st, events[..|events| - 1]), events[|events| - 1])
  }

  lemma TemplatesIrrelevant(st: State)
    requires Inv(st)
    ensures Inv(st.(templates := None))
  {
    var after := st.(templates := None);
    assert forall s :: AcceptedSerial(after, s) <==> AcceptedSerial(st, s);
    assert forall t :: TaskOk(after, t) <==> TaskOk(st, t);
  }

  lemma StepKeeps(st: State, event: Event)
    requires Inv(st) && st.scans <= GENERATIONS
    ensures Inv(Step(st, event))
  {
    hide Inv;
    match event
    case Add(choice) =>
      if choice.Some? && choice.value !in st.directories {
        StartKeeps(st, st.directories + [choice.value]);
      }
    case Remove(index) =>
      if index < |st.directories| {
        StartKeeps(st, st.directories[..index] + st.directories[index + 1..]);
      }
    case Rescan =>
      StartKeeps(st, st.directories);
      assert st.(directories := st.directories) == st;
    case Finish(task, result) => FinishKeeps(st, task, result);
    case Die(task) => DieKeeps(st, task);
    case Poll => PollKeeps(st);
    case TakeTemplates =>
      PollKeeps(st);
      TemplatesIrrelevant(PollOp(st));
  }

  lemma {:induction false} PollScans(st: State)
    ensures PollOp(st).scans == st.scans
    decreases |st.channel|
  {
    if st.channel != [] {
      PollScans(ReceiveOp(st.(channel := st.channel[1..]), st.channel[0]));
    }
  }

  lemma StepScans(st: State, event: Event)
    ensures st.scans <= Step(st, event).scans
  {
    PollScans(st);
  }

  lemma {:induction false} RunInv(directories: Directories, events: seq<Event>)
    requires Run(Init(directories), events).scans <= GENERATIONS
    ensures Inv(Run(Init(directories), events))
  {
    if events == [] {
      InitInv(directories);
    } else {
      var front := events[..|events| - 1];
      StepScans(Run(Init(directories), front), events[|events| - 1]);
      RunInv(directories, front);
      StepKeeps(Run(Init(directories), front), events[|events| - 1]);
    }
  }

  lemma InitInv(directories: Directories)
    ensures Inv(Init(directories))
  {
    var empty := State(directories, 0, false, 0, [], None, [], {}, 0, []);
    var st := Init(directories);
    GenerationStep(0);
    assert !AcceptedSerial(st, st.scans);
  }

  /**
   Over any interleaving of at most 2^64 scans: an accepted report belongs to
   the scan that was newest at that moment and was computed from the directory
   list current at that moment, no scan is accepted twice, and `scanning` is
   false exactly when the newest scan's report has been accepted.
   */
  lemma ScanGuarantees(directories: Directories, events: seq<Event>)
    requires Run(Init(directories), events).scans <= GENERATIONS
    ensures
      var st := Run(Init(directories), events);
      && (forall i :: 0 <= i < |st.accepted| ==>
            st.accepted[i].delivery.task.serial == st.accepted[i].serial
            && st.accepted[i].delivery.task.directories == st.accepted[i].directories)
      && (forall i, j :: 0 <= i < j < |st.accepted| ==> st.accepted[i].serial < st.accepted[j].serial)
      && (!st.scanning <==> exists i :: 0 <= i < |st.accepted| && st.accepted[i].serial == st.scans)
      && (!st.scanning ==> exists i :: 0 <= i < |st.accepted| && st.accepted[i].directories == st.directories)
  {
    RunInv(directories, events);
    var st := Run(Init(directories), events);
    if !st.scanning {
      var i :| 0 <= i < |st.accepted| && st.accepted[i].delivery.task.serial == st.scans;
      assert st.accepted[i].serial == st.scans && st.accepted[i].directories == st.directories;
    } else {
      forall i | 0 <= i < |st.accepted|
        ensures st.accepted[i].serial != st.scans
      {
        assert st.accepted[i].delivery.task.serial != st.scans;
      }
    }
  }

  // ----- what the catalog shows -----

  /** The newest accepted report that found something to show. */
  ghost function LastFound(accepted: seq<Acceptance>): (found: Option<Acceptance>)
    ensures found.Some? ==> found.value in accepted && found.value.delivery.result.Found?
  {
    if accepted == [] then None
    else
      var last := accepted[|accepted| - 1];
      if last.delivery.result.Found? then Some(last) else LastFound(accepted[..|accepted| - 1])
  }

  ghost function LastDiagnostics(accepted: seq<Acceptance>): seq<nat> {
    if accepted == [] then []
    else
      match accepted[|accepted| - 1].delivery.result
      case Found(_, diagnostics) => diagnostics
      case ScanFailed(diagnostic) => [diagnostic]
  }

  /** Count and untaken templates come from the last accepted find, diagnostics from the last accepted report. */
  ghost predicate Shows(st: State) {
    var found := LastFound(st.accepted);
    && st.discovered == (if found.Some? then |found.value.delivery.result.entries| else 0)
    && (st.templates.Some? ==> found.Some? && st.templates.value == found.value.delivery.result.entries)
    && st.diagnostics == LastDiagnostics(st.accepted)
  }

  lemma ReceiveShows(st: State, d: Delivery)
    requires Shows(st)
    ensures Shows(ReceiveOp(st, d))
  {
    var after := ReceiveOp(st, d);
    if d.task.generation == st.generation {
      assert after.accepted[..|after.accepted| - 1] == st.accepted;
    }
  }

  lemma {:induction false} PollShows(st: State)
    requires Shows(st)
    ensures Shows(PollOp(st))
    decreases |st.channel|
  {
    if st.channel != [] {
      var received := st.(channel := st.channel[1..]);
      assert Shows(received);
      ReceiveShows(received, st.channel[0]);
      PollShows(ReceiveOp(received, st.channel[0]));
    }
  }

  lemma StepShows(st: State, event: Event)
    requires Shows(st)
    ensures Shows(Step(st, event))
  {
    PollShows(st);
  }

  /** Over every interleaving, of any number of scans. */
  lemma {:induction false} RunShows(directories: Directories, events: seq<Event>)
    ensures Shows(Run(Init(directories), events))
  {
    if events != [] {
      RunShows(directories, events[..|events| - 1]);
      StepShows(Run(Init(directories), events[..|events| - 1]), events[|events| - 1]);
    }
  }

  /** What is shown was found by the newest scan. */
  ghost predicate ShowsNewest(st: State) {
    LastFound(st.accepted).Some? && LastFound(st.accepted).value.serial == st.scans
  }

  /**
   Within 2^64 scans, what the catalog shows is the newest scan's exactly when
   no scan is under way and the last accepted report is not a failure; it is then
   computed from the current directory list.
   */
  lemma ShowsNewestIff(directories: Directories, events: seq<Event>)
    requires Run(Init(directories), events).scans <= GENERATIONS
    ensures
      var st := Run(Init(directories), events);
      && Shows(st)
      && (ShowsNewest(st) <==>
            !st.scanning && st.accepted != [] && st.accepted[|st.accepted| - 1].delivery.result.Found?)
      && (ShowsNewest(st) ==> LastFound(st.accepted).value.delivery.task.directories == st.directories)
  {
    var st := Run(Init(directories), events);
    RunShows(directories, events);
    RunInv(directories, events);
    NewestIsLast(st);
  }

  lemma NewestIsLast(st: State)
    requires Inv(st)
    ensures ShowsNewest(st) <==>
      !st.scanning && st.accepted != [] && st.accepted[|st.accepted| - 1].delivery.result.Found?
    ensures ShowsNewest(st) ==> LastFound(st.accepted).value.delivery.task.directories == st.directories
  {
    var last := |st.accepted| - 1;
    assert forall i :: 0 <= i < last ==> st.accepted[i].serial < st.accepted[last].serial <= st.scans;
    if !st.scanning {
      var i :| 0 <= i < |st.accepted| && st.accepted[i].delivery.task.serial == st.scans;
      assert i == last;
    }
  }

  /** A directory is added after a find, and scanning the longer list fails. */
  ghost function FailedScanRun(directories: Directories, extra: nat, entries: seq<nat>, diagnostic: nat): seq<Event> {
    [Finish(Task(1, 1, directories), Found(entries, []))] + [Poll] + [Add(Some(extra))]
    + [Finish(Task(2, 2, directories + [extra]), ScanFailed(diagnostic))] + [Poll]
  }

  /** No scan is under way, yet the old list's entries are still counted and handed out. */
  lemma FailedScanShowsOld(directories: Directories, extra: nat, entries: seq<nat>, diagnostic: nat)
    requires extra !in directories
    ensures
      var st := Run(Init(directories), FailedScanRun(directories, extra, entries, diagnostic));
      && !st.scanning && st.directories == directories + [extra] && !ShowsNewest(st)
      && st.discovered == |entries| && TakeOp(st).1 == Some(entries)
      && LastFound(st.accepted).Some? && LastFound(st.accepted).value.delivery.task.directories == directories
  {
    var init := Init(directories);
    var first, second := Task(1, 1, directories), Task(2, 2, directories + [extra]);
    var found: ScanResult, failed: ScanResult := Found(entries, []), ScanFailed(diagnostic);
    var e1 := [Finish(first, found)];
    RunSnoc(init, [], Finish(first, found));
    assert [] + e1 == e1;
    var e2 := e1 + [Poll];
    RunSnoc(init, e1, Poll);
    PollOne(Run(init, e1), Delivery(first, found));
    var e3 := e2 + [Add(Some(extra))];
    RunSnoc(init, e2, Add(Some(extra)));
    var e4 := e3 + [Finish(second, failed)];
    RunSnoc(init, e3, Finish(second, failed));
    RunSnoc(init, e4, Poll);
    PollOne(Run(init, e4), Delivery(second, failed));
    var st := Run(init, e4 + [Poll]);
    var shown := Acceptance(Delivery(first, found), 1, directories);
    assert st.accepted == [shown] + [Acceptance(Delivery(second, failed), 2, directories + [extra])];
    assert st.accepted[..1] == [shown];
    assert LastFound(st.accepted) == LastFound([shown]) == Some(shown);
    assert PollOp(st) == st;
  }

  // ----- edits of the directory list -----

  /** Removing drops exactly the indexed directory, keeps the order of the others and scans what is left. */
  lemma RemoveDrops(st: State, index: nat, j: nat)
    requires index < |st.directories|
    ensures
      var after := RemoveOp(st, index);
      && |after.directories| == |st.directories| - 1 && after.scanning && after.scans == st.scans + 1
      && (j < |after.directories| ==> after.directories[j] == st.directories[if j < index then j else j + 1])
      && (forall t :: t in after.running - st.running ==> t.directories == after.directories)
  {
  }

  /** Adding appends an unlisted directory; removing it there again restores the list. */
  lemma RemoveUndoesAdd(st: State, directory: nat)
    requires directory !in st.directories
    ensures
      var added := AddOp(st, Some(directory));
      && added.directories == st.directories + [directory] && added.scanning
      && RemoveOp(added, |st.directories|).directories == st.directories
  {
  }

  ghost predicate Distinct(directories: Directories) {
    forall i, j :: 0 <= i < j < |directories| ==> directories[i] != directories[j]
  }

  /** No run lists a directory twice, unless the list started that way. */
  lemma {:induction false} RunDistinct(directories: Directories, events: seq<Event>)
    requires Distinct(directories)
    ensures Distinct(Run(Init(directories), events).directories)
  {
    if events != [] {
      var st := Run(Init(directories), events[..|events| - 1]);
      RunDistinct(directories, events[..|events| - 1]);
      PollDirectories(st);
    }
  }

  lemma {:induction false} PollDirectories(st: State)
    ensures PollOp(st).directories == st.directories
    decreases |st.channel|
  {
    if st.channel != [] {
      PollDirectories(ReceiveOp(st.(channel := st.channel[1..]), st.channel[0]));
    }
  }

  /** Templates are handed out once: a second take without a new report has none. */
  lemma TakenOnce(st: State)
    ensures TakeOp(TakeOp(st).0).1 == None
    ensures TakeOp(st).1 == PollOp(st).templates
  {
    PollEmpties(st);
    var taken := TakeOp(st).0;
    assert PollOp(taken) == taken;
  }

  lemma {:induction false} PollEmpties(st: State)
    ensures PollOp(st).channel == []
    decreases |st.channel|
  {
    if st.channel != [] {
      PollEmpties(ReceiveOp(st.(channel := st.channel[1..]), st.channel[0]));
    }
  }

  // ----- the bound is exact -----

  /** Every accepted report was computed from the directory list current when it was accepted. */
  ghost predicate Fresh(st: State) {
    forall i :: 0 <= i < |st.accepted| ==> st.accepted[i].delivery.task.directories == st.accepted[i].directories
  }

  ghost function Rescans(n: nat): (events: seq<Event>)
    ensures |events| == n
  {
    seq(n, _ => Rescan)
  }

  lemma RunSnoc(st: State, events: seq<Event>, event: Event)
    ensures Run(st, events + [event]) == Step(Run(st, events), event)
  {
    assert (events + [event])[..|events|] == events;
  }

  /** Rescanning only counts up; every running task keeps running. */
  lemma {:induction false} RescansCount(st: State, events: seq<Event>, n: nat)
    ensures
      var before, after := Run(st, events), Run(st, events + Rescans(n));
      && after.scans == before.scans + n && after.accepted == before.accepted
      && after.directories == before.directories && after.channel == before.channel && before.running <= after.running
      && (before.generation == before.scans % GENERATIONS ==> after.generation == after.scans % GENERATIONS)
  {
    if n == 0 {
      assert events + Rescans(n) == events;
    } else {
      RescansCount(st, events, n - 1);
      assert events + Rescans(n) == (events + Rescans(n - 1)) + [Rescan];
      RunSnoc(st, events + Rescans(n - 1), Rescan);
      GenerationStep(Run(st, events + Rescans(n - 1)).scans);
    }
  }

  /** A directory is added during the first scan, whose report arrives only after the generation has wrapped. */
  ghost function LateRun(directories: Directories, extra: nat, n: nat): seq<Event> {
    [Add(Some(extra))] + Rescans(n) + [Finish(Task(1, 1, directories), Found([], []))] + [Poll]
  }

  lemma LateReportAccepted(directories: Directories, extra: nat, n: nat)
    requires extra !in directories && (n + 2) % GENERATIONS == 1
    ensures
      var st := Run(Init(directories), LateRun(directories, extra, n));
      && st.scans == n + 2 && !st.scanning
      && st.accepted == [Acceptance(Delivery(Task(1, 1, directories), Found([], [])), n + 2, directories + [extra])]
  {
    var init, stale := Init(directories), Task(1, 1, directories);
    var result := Found([], []);
    RunSnoc(init, [], Add(Some(extra)));
    assert [] + [Add(Some(extra))] == [Add(Some(extra))];
    RescansCount(init, [Add(Some(extra))], n);
    var wrapped := [Add(Some(extra))] + Rescans(n);
    RunSnoc(init, wrapped, Finish(stale, result));
    RunSnoc(init, wrapped + [Finish(stale, result)], Poll);
    PollOne(Run(init, wrapped + [Finish(stale, result)]), Delivery(stale, result));
  }

  lemma PollOne(st: State, d: Delivery)
    requires st.channel == [d]
    ensures PollOp(st) == ReceiveOp(st.(channel := []), d)
  {
    var received := ReceiveOp(st.(channel := []), d);
    assert st.channel[1..] == [];
    assert PollOp(received) == received;
  }

  /** Stale reports are excluded for exactly the runs of at most 2^64 scans. */
  lemma FreshIffBounded(directories: Directories, extra: nat, n: nat)
    requires extra !in directories
    ensures n <= GENERATIONS <==>
      forall events: seq<Event> :: Run(Init(directories), events).scans == n ==> Fresh(Run(Init(directories), events))
  {
    if n <= GENERATIONS {
      forall events: seq<Event> | Run(Init(directories), events).scans == n
        ensures Fresh(Run(Init(directories), events))
      {
        ScanGuarantees(directories, events);
      }
    } else {
      var late := LateRun(directories, extra, GENERATIONS - 1);
      LateReportAccepted(directories, extra, GENERATIONS - 1);
      RescansCount(Init(directories), late, n - (GENERATIONS + 1));
      var st := Run(Init(directories), late + Rescans(n - (GENERATIONS + 1)));
      assert st.accepted[0].delivery.task.directories != st.accepted[0].directories;
    }
  }
}
