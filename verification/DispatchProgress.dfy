/**
 What the dispatch worker achieves when it is left to work: no event is appended, it does not
 crash, and no other worker moves its cursor. Everything else may go on around it.
 */
module DispatchProgress {
  import opened Wrappers
  import opened MemoryBackend
  import opened DispatchProtocol

  // ---- how many calls a worker needs ------------------------------------------------------

  /** The number of events up to a position. */
  function After(events: seq<Event>, pos: Option<nat>): nat {
    if pos.None? then 0 else IndexOfEvent(events, pos.value) + 1
  }

  function Stored(setup: Setup, s: Store, k: nat): nat
    requires k < |setup.cursorOf|
  {
    After(s.events, CursorOf(s, setup.cursorOf[k]))
  }

  /** Seven calls for an action, one to move the cursor, and at most two to poll. */
  function CostFrom(setup: Setup, events: seq<Event>, n: nat): (c: nat)
    ensures n < |events| ==> c >= 3
    decreases |events| - n
  {
    if n >= |events| then 0 else 7 * |ActionsFor(setup, events[n])| + 3 + CostFrom(setup, events, n + 1)
  }

  function PhaseCalls(phase: Phase): nat {
    match phase
    case Checking => 7
    case Performing => 6
    case Buffered => 5
    case Claiming => 4
    case Flushing(_) => 3
    case Confirming(_) => 2
    case Recording => 1
  }

  function TodoCalls(todo: seq<Action>, phase: Phase): nat {
    if todo == [] then 0 else 7 * (|todo| - 1) + PhaseCalls(phase)
  }

  /** The stored cursor is at the last event, and the worker is about to find nothing more. */
  predicate Finished(events: seq<Event>, stored: nat, p: Proc) {
    stored == |events| && (p.Idle? || (p.HasCursor? && After(events, p.pos) == |events|))
  }

  /** The calls that a worker needs at most to be at the end. */
  function Needs(setup: Setup, events: seq<Event>, stored: nat, p: Proc): nat {
    if Finished(events, stored, p) then 0
    else
      match p
      case HasCursor(pos) =>
        if After(events, pos) < |events| then CostFrom(setup, events, After(events, pos)) - 1
        else 1 + CostFrom(setup, events, stored)
      case Running(batch, i, todo, phase) =>
        TodoCalls(todo, phase) + 1
        + CostFrom(setup, events, if i < |batch| then IndexOfEvent(events, batch[i].id) + 1 else 0)
      case _ => CostFrom(setup, events, stored)
  }

  predicate AtEnd(setup: Setup, w: World, k: nat)
    requires k < |setup.cursorOf| && k < |w.procs|
  {
    Finished(w.store.events, Stored(setup, w.store, k), w.procs[k])
  }

  function CallsLeft(setup: Setup, w: World, k: nat): nat
    requires k < |setup.cursorOf| && k < |w.procs|
  {
    Needs(setup, w.store.events, Stored(setup, w.store, k), w.procs[k])
  }

  lemma {:induction false} CostShrinks(setup: Setup, events: seq<Event>, n: nat)
    ensures CostFrom(setup, events, n) <= CostFrom(setup, events, 0)
    ensures n < |events| ==>
      7 * |ActionsFor(setup, events[n])| + 3 + CostFrom(setup, events, n + 1) <= CostFrom(setup, events, 0)
  {
    if n > 0 { CostShrinks(setup, events, n - 1); }
  }

  // ---- workers stay workers ---------------------------------------------------------------

  predicate IsWorker(p: Proc) {
    && (p.Idle? || p.HasCursor? || p.Running?)
    && (Working(p) && p.phase.Buffered? ==> p.todo[0].accumulator.Some?)
  }

  ghost predicate Workers(setup: Setup, w: World) {
    |setup.cursorOf| <= |w.procs| && forall k :: 0 <= k < |setup.cursorOf| ==> IsWorker(w.procs[k])
  }

  lemma CallKeepsWorker(setup: Setup, w: World, k: nat, entryId: nat, createdAt: int, ok: bool)
    requires k < |w.procs| && IsWorker(w.procs[k])
    ensures IsWorker(Progress(setup, w, k, entryId, createdAt, ok).0)
  {
  }

  lemma StepKeepsWorkers(setup: Setup, w: World, step: Step)
    requires Workers(setup, w)
    ensures Workers(setup, Next(setup, w, step))
  {
    if step.Advance? && step.k < |w.procs| {
      var (p, e) := Progress(setup, w, step.k, step.entryId, step.createdAt, step.ok);
      ApplyGrows(w.(procs := w.procs[step.k := p]), e);
      if step.k < |setup.cursorOf| { CallKeepsWorker(setup, w, step.k, step.entryId, step.createdAt, step.ok); }
    }
  }

  lemma {:induction false} AlwaysWorkers(setup: Setup, steps: seq<Step>)
    ensures Workers(setup, Run(setup, steps))
  {
    if steps != [] {
      AlwaysWorkers(setup, steps[..|steps| - 1]);
      StepKeepsWorkers(setup, Run(setup, steps[..|steps| - 1]), steps[|steps| - 1]);
    }
  }

  // ---- every call is progress -------------------------------------------------------------

  /** A call for the current action brings the worker closer to its record. */
  lemma ActionCall(s: Store, buffered: set<nat>, p: Proc, entryId: nat, createdAt: int, ok: bool)
    requires Working(p) && IsWorker(p) && entryId !in buffered
    ensures var r := RunAction(s, buffered, p, entryId, createdAt, ok).0;
      && r.Running? && r.batch == p.batch && r.i == p.i
      && TodoCalls(r.todo, r.phase) < TodoCalls(p.todo, p.phase)
  {
  }

  /** A batch that was polled starts at the event after the position. */
  lemma PolledNext(setup: Setup, s: Store, pos: Option<nat>)
    requires setup.batchSize > 0 && After(s.events, pos) < |s.events|
    ensures var batch := PollSince(s.events, pos, setup.batchSize);
      batch != [] && batch[0] == s.events[After(s.events, pos)]
  {
  }

  /** The worker needs fewer calls than before, or it is at the end, where it stays. */
  ghost predicate Closer(setup: Setup, events: seq<Event>, stored: nat, p: Proc, stored': nat, p': Proc) {
    || Finished(events, stored', p')
    || (!Finished(events, stored, p) && Needs(setup, events, stored', p') < Needs(setup, events, stored, p))
  }

  /** Looking up a cursor that is in place, and polling from a position that is. */
  lemma PollIsProgress(setup: Setup, s: Store, stored: nat, pos: Option<nat>)
    requires setup.batchSize > 0 && DistinctEvents(s.events) && After(s.events, pos) <= |s.events|
    ensures After(s.events, pos) == stored ==> Closer(setup, s.events, stored, Idle, stored, HasCursor(pos))
    ensures Closer(setup, s.events, stored, HasCursor(pos), stored,
                   StartEvent(setup, PollSince(s.events, pos, setup.batchSize), 0))
  {
    var n := After(s.events, pos);
    if n < |s.events| {
      PolledNext(setup, s, pos);
      IndexOfDistinct(s.events, n);
    } else {
      assert PollSince(s.events, pos, setup.batchSize) == [];
    }
  }

  predicate EventAt(events: seq<Event>, ev: Event, at: nat) {
    at < |events| && events[at] == ev && IndexOfEvent(events, ev.id) == at
  }

  /** The batch event `i` is the one at `at` in the list, and the next event of the batch follows it. */
  predicate Placed(events: seq<Event>, batch: seq<Event>, i: nat, at: nat) {
    i < |batch| && EventAt(events, batch[i], at) && (i + 1 < |batch| ==> EventAt(events, batch[i + 1], at + 1))
  }

  lemma BatchIsPlaced(events: seq<Event>, batch: seq<Event>, start: nat, i: nat)
    requires DistinctEvents(events) && i < |batch| && Stretch(events, batch, start)
    ensures Placed(events, batch, i, start + i)
  {
    StretchIndex(events, batch, start, i);
    if i + 1 < |batch| { StretchIndex(events, batch, start, i + 1); }
  }

  /** Moving the cursor to an event whose actions are all recorded. */
  lemma EventIsProgress(setup: Setup, events: seq<Event>, stored: nat, batch: seq<Event>, i: nat, at: nat, phase: Phase)
    requires Placed(events, batch, i, at)
    ensures Closer(setup, events, stored, Running(batch, i, [], phase), at + 1, StartEvent(setup, batch, i + 1))
  {
    assert Needs(setup, events, stored, Running(batch, i, [], phase)) == 1 + CostFrom(setup, events, at + 1);
    if i + 1 < |batch| {
      assert CostFrom(setup, events, at + 1)
          == 7 * |ActionsFor(setup, batch[i + 1])| + 3 + CostFrom(setup, events, at + 2);
    }
  }

  /** What a call of a worker means for its own state, its cursor and the events. */
  lemma OwnCall(setup: Setup, w: World, k: nat, entryId: nat, createdAt: int, ok: bool)
    requires k < |setup.cursorOf| && k < |w.procs|
    ensures var (p, e) := Progress(setup, w, k, entryId, createdAt, ok);
            var v := Next(setup, w, Advance(k, entryId, createdAt, ok));
      && |v.procs| >= |w.procs| && v.procs[k] == p && v.store.events == w.store.events
      && (!e.SetCursor? ==> Stored(setup, v.store, k) == Stored(setup, w.store, k))
      && (e.SetCursor? && e.name == setup.cursorOf[k] ==>
            Stored(setup, v.store, k) == IndexOfEvent(w.store.events, e.eventId) + 1)
  {
    var (p, e) := Progress(setup, w, k, entryId, createdAt, ok);
    ApplyGrows(w.(procs := w.procs[k := p]), e);
  }

  /** The cursor, the position looked up and the batch polled are in the list of events. */
  predicate InPlace(setup: Setup, events: seq<Event>, stored: nat, p: Proc) {
    && stored <= |events|
    && (p.HasCursor? ==> After(events, p.pos) <= |events|)
    && (p.Running? ==>
          && p.i < |p.batch| && Placed(events, p.batch, p.i, IndexOfEvent(events, p.batch[p.i].id))
          && |p.todo| <= |ActionsFor(setup, p.batch[p.i])|)
  }

  lemma KnownPosition(setup: Setup, s: Store, id: nat)
    requires DoneThrough(setup, s, id)
    ensures After(s.events, Some(id)) <= |s.events|
  {
  }

  lemma RunningIsInPlace(setup: Setup, s: Store, q: Proc)
    requires DistinctEvents(s.events) && q.Running? && RunningSafe(setup, s, q.batch, q.i, q.todo)
    ensures InPlace(setup, s.events, 0, q)
  {
    BatchIsPlaced(s.events, q.batch, IndexOfEvent(s.events, q.batch[0].id), q.i);
  }

  lemma SafeIsInPlace(setup: Setup, w: World, k: nat)
    requires Safe(setup, w) && k < |setup.cursorOf| && k < |w.procs|
    ensures InPlace(setup, w.store.events, Stored(setup, w.store, k), w.procs[k])
  {
    var name, q := setup.cursorOf[k], w.procs[k];
    assert ProcSafe(setup, w.store, q);
    if name in w.store.cursors { KnownPosition(setup, w.store, w.store.cursors[name]); }
    if q.Running? {
      RunningIsInPlace(setup, w.store, q);
    } else if q.HasCursor? && q.pos.Some? {
      KnownPosition(setup, w.store, q.pos.value);
    }
  }

  /** Each call of a worker is progress. */
  lemma CallIsProgress(setup: Setup, w: World, k: nat, entryId: nat, createdAt: int, ok: bool)
    requires k < |setup.cursorOf| && k < |w.procs| && IsWorker(w.procs[k]) && setup.batchSize > 0
    requires DistinctEvents(w.store.events) && entryId !in w.buffered
    requires InPlace(setup, w.store.events, Stored(setup, w.store, k), w.procs[k])
    ensures var v := Next(setup, w, Advance(k, entryId, createdAt, ok));
      && k < |v.procs| && Closer(setup, w.store.events, Stored(setup, w.store, k), w.procs[k],
                                 Stored(setup, v.store, k), v.procs[k])
  {
    var q, stored := w.procs[k], Stored(setup, w.store, k);
    OwnCall(setup, w, k, entryId, createdAt, ok);
    if !q.Running? {
      FetchIsProgress(setup, w, k, entryId, createdAt, ok);
    } else if q.todo == [] {
      MoveIsProgress(setup, w, k, entryId, createdAt, ok);
    } else {
      ActionIsProgress(setup, w, k, entryId, createdAt, ok);
    }
  }

  lemma FetchIsProgress(setup: Setup, w: World, k: nat, entryId: nat, createdAt: int, ok: bool)
    requires k < |setup.cursorOf| && k < |w.procs| && IsWorker(w.procs[k]) && !w.procs[k].Running?
    requires setup.batchSize > 0 && DistinctEvents(w.store.events)
    requires InPlace(setup, w.store.events, Stored(setup, w.store, k), w.procs[k])
    ensures var (p, e) := Progress(setup, w, k, entryId, createdAt, ok);
            var stored := Stored(setup, w.store, k);
            !e.SetCursor? && Closer(setup, w.store.events, stored, w.procs[k], stored, p)
  {
    var pos := if w.procs[k].Idle? then CursorOf(w.store, setup.cursorOf[k]) else w.procs[k].pos;
    PollIsProgress(setup, w.store, Stored(setup, w.store, k), pos);
  }

  lemma MoveIsProgress(setup: Setup, w: World, k: nat, entryId: nat, createdAt: int, ok: bool)
    requires k < |setup.cursorOf| && k < |w.procs| && w.procs[k].Running? && w.procs[k].todo == []
    requires InPlace(setup, w.store.events, Stored(setup, w.store, k), w.procs[k])
    ensures var (p, e) := Progress(setup, w, k, entryId, createdAt, ok);
            var q, events := w.procs[k], w.store.events;
      && e == SetCursor(setup.cursorOf[k], q.batch[q.i].id)
      && Closer(setup, events, Stored(setup, w.store, k), q, IndexOfEvent(events, q.batch[q.i].id) + 1, p)
  {
    var q, events := w.procs[k], w.store.events;
    EventIsProgress(setup, events, Stored(setup, w.store, k), q.batch, q.i,
                    IndexOfEvent(events, q.batch[q.i].id), q.phase);
  }

  lemma ActionIsProgress(setup: Setup, w: World, k: nat, entryId: nat, createdAt: int, ok: bool)
    requires k < |setup.cursorOf| && k < |w.procs| && Working(w.procs[k]) && IsWorker(w.procs[k])
    requires entryId !in w.buffered
    ensures var (p, e) := Progress(setup, w, k, entryId, createdAt, ok);
            var stored := Stored(setup, w.store, k);
            !e.SetCursor? && Closer(setup, w.store.events, stored, w.procs[k], stored, p)
  {
    ActionCall(w.store, w.buffered, w.procs[k], entryId, createdAt, ok);
    RunActionShape(w.store, w.buffered, w.procs[k], entryId, createdAt, ok);
  }

  // ---- runs in which a worker is left to work -----------------------------------------------

  /** The step leaves worker `k` and its cursor alone; its own entries have new ids. */
  ghost predicate Undisturbed(setup: Setup, w: World, k: nat, step: Step)
    requires k < |setup.cursorOf|
  {
    match step
    case Append(_) => false
    case Crash(j) => j != k
    case Advance(j, entryId, _, _) =>
      if j == k then entryId !in w.buffered
      else j < |setup.cursorOf| ==> setup.cursorOf[j] != setup.cursorOf[k]
  }

  ghost predicate LeftToWork(setup: Setup, w: World, k: nat, steps: seq<Step>)
    requires k < |setup.cursorOf|
  {
    steps == [] ||
    (LeftToWork(setup, w, k, steps[..|steps| - 1])
     && Undisturbed(setup, RunFrom(setup, w, steps[..|steps| - 1]), k, steps[|steps| - 1]))
  }

  function OwnCalls(k: nat, step: Step): nat {
    if step.Advance? && step.k == k then 1 else 0
  }

  function CallsOf(k: nat, steps: seq<Step>): nat {
    if steps == [] then 0
    else CallsOf(k, steps[..|steps| - 1]) + OwnCalls(k, steps[|steps| - 1])
  }

  /** The steps of the others do not change what a worker has left. */
  lemma OthersKeepCalls(setup: Setup, w: World, k: nat, step: Step)
    requires Workers(setup, w) && k < |setup.cursorOf| && Undisturbed(setup, w, k, step)
    requires !(step.Advance? && step.k == k)
    ensures var v := Next(setup, w, step);
      && k < |v.procs| && v.procs[k] == w.procs[k] && v.store.events == w.store.events
      && Stored(setup, v.store, k) == Stored(setup, w.store, k)
  {
    if step.Advance? && step.k < |w.procs| {
      var (p, e) := Progress(setup, w, step.k, step.entryId, step.createdAt, step.ok);
      ApplyGrows(w.(procs := w.procs[step.k := p]), e);
      if Working(w.procs[step.k]) {
        RunActionShape(w.store, w.buffered, w.procs[step.k], step.entryId, step.createdAt, step.ok);
      }
    }
  }

  lemma {:induction false} StaysSafe(setup: Setup, w: World, steps: seq<Step>)
    requires Safe(setup, w) && Workers(setup, w)
    ensures var v := RunFrom(setup, w, steps); Safe(setup, v) && Workers(setup, v)
  {
    if steps != [] {
      var u, step := RunFrom(setup, w, steps[..|steps| - 1]), steps[|steps| - 1];
      StaysSafe(setup, w, steps[..|steps| - 1]);
      StepKeepsSafe(setup, u, step);
      StepKeepsWorkers(setup, u, step);
    }
  }

  /** An undisturbed step that leaves the worker short of the end pays for its own calls. */
  ghost predicate Paid(setup: Setup, w: World, v: World, k: nat, calls: nat)
    requires k < |setup.cursorOf|
  {
    && k < |w.procs| && k < |v.procs| && v.store.events == w.store.events
    && (AtEnd(setup, v, k) || (!AtEnd(setup, w, k) && CallsLeft(setup, v, k) + calls <= CallsLeft(setup, w, k)))
  }

  lemma EventsStay(setup: Setup, w: World, step: Step)
    requires !step.Append?
    ensures Next(setup, w, step).store.events == w.store.events && |w.procs| <= |Next(setup, w, step).procs|
  {
    if step.Advance? && step.k < |w.procs| {
      var (p, e) := Progress(setup, w, step.k, step.entryId, step.createdAt, step.ok);
      ApplyGrows(w.(procs := w.procs[step.k := p]), e);
    }
  }

  lemma StepIsPaid(setup: Setup, w: World, k: nat, step: Step)
    requires Safe(setup, w) && Workers(setup, w) && k < |setup.cursorOf| && setup.batchSize > 0
    requires Undisturbed(setup, w, k, step)
    ensures Paid(setup, w, Next(setup, w, step), k, OwnCalls(k, step))
  {
    EventsStay(setup, w, step);
    if step.Advance? && step.k == k {
      SafeIsInPlace(setup, w, k);
      CallIsProgress(setup, w, k, step.entryId, step.createdAt, step.ok);
    } else {
      OthersKeepCalls(setup, w, k, step);
    }
  }

  lemma {:induction false} CallsAreCounted(setup: Setup, w: World, k: nat, steps: seq<Step>)
    requires Safe(setup, w) && Workers(setup, w) && k < |setup.cursorOf| && setup.batchSize > 0
    requires LeftToWork(setup, w, k, steps)
    ensures Paid(setup, w, RunFrom(setup, w, steps), k, CallsOf(k, steps))
  {
    if steps != [] {
      var front, step := steps[..|steps| - 1], steps[|steps| - 1];
      CallsAreCounted(setup, w, k, front);
      StaysSafe(setup, w, front);
      StepIsPaid(setup, RunFrom(setup, w, front), k, step);
    }
  }

  lemma CallsAreBounded(setup: Setup, events: seq<Event>, stored: nat, p: Proc)
    requires InPlace(setup, events, stored, p) && IsWorker(p)
    ensures Needs(setup, events, stored, p) <= 1 + CostFrom(setup, events, 0)
    ensures Finished(events, stored, p) || Needs(setup, events, stored, p) > 0
  {
    CostShrinks(setup, events, stored);
    if p.HasCursor? {
      CostShrinks(setup, events, After(events, p.pos));
    } else if p.Running? {
      BatchIsBounded(setup, events, p, IndexOfEvent(events, p.batch[p.i].id));
    }
  }

  lemma BatchIsBounded(setup: Setup, events: seq<Event>, q: Proc, at: nat)
    requires q.Running? && Placed(events, q.batch, q.i, at) && |q.todo| <= |ActionsFor(setup, q.batch[q.i])|
    ensures Needs(setup, events, 0, q) <= CostFrom(setup, events, 0)
  {
    CostShrinks(setup, events, at);
    assert Needs(setup, events, 0, q) == TodoCalls(q.todo, q.phase) + 1 + CostFrom(setup, events, at + 1);
  }

  lemma EndIsDone(setup: Setup, w: World, k: nat)
    requires Safe(setup, w) && k < |setup.cursorOf| && k < |w.procs| && AtEnd(setup, w, k)
    ensures AllDone(setup, w.store, setup.cursorOf[k])
  {
  }

  /** Every event has all its records and the cursor is at the last one. */
  ghost predicate AllDone(setup: Setup, s: Store, name: string) {
    && (forall ev :: ev in s.events ==> EventDone(setup, s, ev))
    && (s.events != [] ==> name in s.cursors && s.cursors[name] == s.events[|s.events| - 1].id)
  }

  lemma EndIsReached(setup: Setup, w: World, k: nat, steps: seq<Step>)
    requires Safe(setup, w) && Workers(setup, w) && k < |setup.cursorOf| && setup.batchSize > 0
    requires LeftToWork(setup, w, k, steps) && CallsOf(k, steps) >= 1 + CostFrom(setup, w.store.events, 0)
    ensures var v := RunFrom(setup, w, steps); k < |v.procs| && AtEnd(setup, v, k) && v.store.events == w.store.events
  {
    var v := RunFrom(setup, w, steps);
    StaysSafe(setup, w, steps);
    CallsAreCounted(setup, w, k, steps);
    SafeIsInPlace(setup, w, k);
    SafeIsInPlace(setup, v, k);
    CallsAreBounded(setup, w.store.events, Stored(setup, w.store, k), w.procs[k]);
    CallsAreBounded(setup, v.store.events, Stored(setup, v.store, k), v.procs[k]);
  }

  /**
   From every reachable state on, a worker that is left to work has brought its cursor to the
   last event, with all records written, when it has made this many calls, and stays there.
   */
  lemma CatchesUp(setup: Setup, before: seq<Step>, k: nat, steps: seq<Step>)
    requires k < |setup.cursorOf| && setup.batchSize > 0 && LeftToWork(setup, Run(setup, before), k, steps)
    requires CallsOf(k, steps) >= 1 + CostFrom(setup, Run(setup, before).store.events, 0)
    ensures var s := RunFrom(setup, Run(setup, before), steps).store;
            AllDone(setup, s, setup.cursorOf[k]) && s.events == Run(setup, before).store.events
  {
    CursorsNeverPassUnfinished(setup, before);
    AlwaysWorkers(setup, before);
    EndIsReached(setup, Run(setup, before), k, steps);
    StaysSafe(setup, Run(setup, before), steps);
    EndIsDone(setup, RunFrom(setup, Run(setup, before), steps), k);
  }

  lemma {:induction false} SomeUnused(ids: set<nat>) returns (n: nat)
    ensures forall id :: id in ids ==> id < n
  {
    if ids == {} {
      n := 0;
    } else {
      var id :| id in ids;
      n := SomeUnused(ids - {id});
      if n <= id { n := id + 1; }
      assert forall x :: x in ids ==> x == id || x in ids - {id};
    }
  }

  predicate Alone(k: nat, steps: seq<Step>) {
    forall i :: 0 <= i < |steps| ==> steps[i].Advance? && steps[i].k == k
  }

  lemma {:induction false} CallsExist(setup: Setup, w: World, k: nat, n: nat) returns (steps: seq<Step>)
    requires k < |setup.cursorOf|
    ensures |steps| == n && Alone(k, steps) && CallsOf(k, steps) == n && LeftToWork(setup, w, k, steps)
  {
    if n == 0 {
      steps := [];
    } else {
      var front := CallsExist(setup, w, k, n - 1);
      var id := SomeUnused(RunFrom(setup, w, front).buffered);
      steps := front + [Advance(k, id, 0, true)];
      assert steps[..|steps| - 1] == front;
      assert Undisturbed(setup, RunFrom(setup, w, front), k, steps[|steps| - 1]);
      assert OwnCalls(k, steps[|steps| - 1]) == 1;
    }
  }

  /** From every reachable state one worker alone can do all there is to do, in that many calls. */
  lemma CanCatchUp(setup: Setup, before: seq<Step>, k: nat) returns (steps: seq<Step>)
    requires k < |setup.cursorOf| && setup.batchSize > 0
    ensures Alone(k, steps) && |steps| == 1 + CostFrom(setup, Run(setup, before).store.events, 0)
    ensures AllDone(setup, RunFrom(setup, Run(setup, before), steps).store, setup.cursorOf[k])
  {
    steps := CallsExist(setup, Run(setup, before), k, 1 + CostFrom(setup, Run(setup, before).store.events, 0));
    CatchesUp(setup, before, k, steps);
  }
}
