/**
 How often the dispatch protocol performs (executes or buffers) an event's action. For any
 number of workers every performance is matched by a completion record, a crash or a worker
 about to record; for one worker this makes it exactly once when nothing crashes.
 */
module DispatchAccounting {
  import opened Wrappers
  import opened MemoryBackend
  import opened DispatchProtocol

  /** Whether a process has performed the pair and not yet recorded it. */
  function Carries(p: Proc, q: Pair): nat {
    if Working(p) && !p.phase.Checking? && !p.phase.Performing? && CurrentPair(p) == q then 1 else 0
  }

  /** How many processes have performed the pair and not yet recorded it. */
  function Inflight(procs: seq<Proc>, q: Pair): nat {
    if procs == [] then 0
    else Inflight(procs[..|procs| - 1], q) + Carries(procs[|procs| - 1], q)
  }

  ghost predicate Accounted(w: World, q: Pair) {
    && w.performed[q] == w.recorded[q] + w.lost[q] + Inflight(w.procs, q)
    && (q in w.store.completions <==> w.recorded[q] > 0)
  }

  lemma {:induction false} InflightUpdate(procs: seq<Proc>, k: nat, p: Proc, q: Pair)
    requires k < |procs|
    ensures Inflight(procs[k := p], q) + Carries(procs[k], q) == Inflight(procs, q) + Carries(p, q)
  {
    var front := procs[..|procs| - 1];
    if k == |procs| - 1 {
      assert procs[k := p][..|procs| - 1] == front;
    } else {
      assert procs[k := p][..|procs| - 1] == front[k := p];
      InflightUpdate(front, k, p, q);
    }
  }

  lemma {:induction false} NothingInflight(procs: seq<Proc>, q: Pair)
    requires forall k :: 0 <= k < |procs| ==> procs[k].Idle?
    ensures Inflight(procs, q) == 0
  {
    if procs != [] { NothingInflight(procs[..|procs| - 1], q); }
  }

  function PerformedBy(e: Effect, q: Pair): nat {
    if (e.Execute? || e.Insert?) && e.pair == q then 1 else 0
  }

  function RecordedBy(e: Effect, q: Pair): nat {
    if e.Record? && e.pair == q then 1 else 0
  }

  lemma ActionBalances(s: Store, buffered: set<nat>, p: Proc, entryId: nat, createdAt: int, ok: bool, q: Pair)
    requires Working(p)
    ensures var (r, e) := RunAction(s, buffered, p, entryId, createdAt, ok);
            PerformedBy(e, q) + Carries(p, q) == Carries(r, q) + RecordedBy(e, q)
  {
  }

  /** What a call performs or records balances what its process has in flight. */
  lemma CallBalances(setup: Setup, w: World, k: nat, entryId: nat, createdAt: int, ok: bool, q: Pair)
    requires k < |w.procs|
    ensures var (p, e) := Progress(setup, w, k, entryId, createdAt, ok);
            PerformedBy(e, q) + Carries(w.procs[k], q) == Carries(p, q) + RecordedBy(e, q)
  {
    if Working(w.procs[k]) {
      ActionBalances(w.store, w.buffered, w.procs[k], entryId, createdAt, ok, q);
    }
  }

  lemma EffectCounts(w: World, e: Effect, q: Pair)
    ensures var v := Apply(w, e);
            && v.performed[q] == w.performed[q] + PerformedBy(e, q)
            && v.recorded[q] == w.recorded[q] + RecordedBy(e, q)
            && v.lost == w.lost && Inflight(v.procs, q) == Inflight(w.procs, q)
            && (q in v.store.completions <==> q in w.store.completions || RecordedBy(e, q) == 1)
  {
    if e.Schedule? {
      assert (w.procs + [FlushDue(e.action)])[..|w.procs|] == w.procs;
    }
  }

  lemma AdvanceKeepsAccount(setup: Setup, w: World, k: nat, entryId: nat, createdAt: int, ok: bool, q: Pair)
    requires k < |w.procs| && Accounted(w, q)
    ensures Accounted(Next(setup, w, Advance(k, entryId, createdAt, ok)), q)
  {
    var (p, e) := Progress(setup, w, k, entryId, createdAt, ok);
    CallBalances(setup, w, k, entryId, createdAt, ok, q);
    InflightUpdate(w.procs, k, p, q);
    EffectCounts(w.(procs := w.procs[k := p]), e, q);
  }

  /**
   For any number of workers, whatever they share and however they crash: performances ==
   completion records written + performances lost to a crash + performances about to be
   recorded. In particular every completion record follows a performance.
   */
  lemma {:induction false} EveryPerformanceAccounted(setup: Setup, steps: seq<Step>, q: Pair)
    ensures Accounted(Run(setup, steps), q)
    ensures q in Run(setup, steps).store.completions ==> q in Run(setup, steps).performed
  {
    if steps == [] {
      NothingInflight(Init(setup).procs, q);
    } else {
      var before, step := steps[..|steps| - 1], steps[|steps| - 1];
      EveryPerformanceAccounted(setup, before, q);
      var w := Run(setup, before);
      match step
      case Append(ev) =>
      case Advance(k, entryId, createdAt, ok) =>
        if k < |w.procs| { AdvanceKeepsAccount(setup, w, k, entryId, createdAt, ok, q); }
      case Crash(k) =>
        if k < |w.procs| { InflightUpdate(w.procs, k, AfterCrash(w.procs[k]), q); }
    }
  }

  // ---- one worker -----------------------------------------------------------------------

  predicate IsWorker(p: Proc) {
    p.Idle? || p.HasCursor? || p.Running?
  }

  /** Process 0 is the only worker, and what it is about to record has no record yet. */
  ghost predicate OneWorker(w: World, q: Pair) {
    && |w.procs| > 0
    && (forall k :: 1 <= k < |w.procs| ==> !IsWorker(w.procs[k]))
    && !(UnrecordedWork(w.procs[0], q) && q in w.store.completions)
    && w.recorded[q] <= 1
  }

  ghost predicate UnrecordedWork(p: Proc, q: Pair) {
    Working(p) && !p.phase.Checking? && CurrentPair(p) == q
  }

  lemma WorkerRecordsOnce(setup: Setup, w: World, entryId: nat, createdAt: int, ok: bool, q: Pair)
    requires OneWorker(w, q)
    ensures var (p, e) := Progress(setup, w, 0, entryId, createdAt, ok);
            && !(UnrecordedWork(p, q) && (q in w.store.completions || RecordedBy(e, q) == 1))
            && (RecordedBy(e, q) == 1 ==> q !in w.store.completions)
  {
  }

  lemma TimersStayTimers(setup: Setup, w: World, k: nat, entryId: nat, createdAt: int, ok: bool, q: Pair)
    requires k < |w.procs| && !IsWorker(w.procs[k])
    ensures var (p, e) := Progress(setup, w, k, entryId, createdAt, ok);
            !IsWorker(p) && RecordedBy(e, q) == 0
  {
  }

  lemma MoveKeepsOneWorker(w: World, k: nat, p: Proc, e: Effect, q: Pair)
    requires k < |w.procs| && OneWorker(w, q) && Accounted(w, q)
    requires k == 0 ==> !(UnrecordedWork(p, q) && (q in w.store.completions || RecordedBy(e, q) == 1))
    requires k > 0 ==> !IsWorker(p) && RecordedBy(e, q) == 0
    requires RecordedBy(e, q) == 1 ==> q !in w.store.completions
    ensures OneWorker(Apply(w.(procs := w.procs[k := p]), e), q)
  {
    var moved := w.(procs := w.procs[k := p]);
    var v := Apply(moved, e);
    ApplyGrows(moved, e);
    EffectCounts(moved, e, q);
    forall j | 1 <= j < |v.procs| ensures !IsWorker(v.procs[j]) {}
    assert v.procs[0] == moved.procs[0];
  }

  lemma OneWorkerStays(setup: Setup, w: World, step: Step, q: Pair)
    requires OneWorker(w, q) && Accounted(w, q)
    ensures OneWorker(Next(setup, w, step), q)
  {
    if step.Advance? && step.k < |w.procs| {
      var Advance(k, entryId, createdAt, ok) := step;
      var (p, e) := Progress(setup, w, k, entryId, createdAt, ok);
      if k == 0 {
        WorkerRecordsOnce(setup, w, entryId, createdAt, ok, q);
      } else {
        TimersStayTimers(setup, w, k, entryId, createdAt, ok, q);
      }
      MoveKeepsOneWorker(w, k, p, e, q);
    }
  }

  lemma {:induction false} InflightOfOne(procs: seq<Proc>, q: Pair)
    requires |procs| > 0 && forall k :: 1 <= k < |procs| ==> !IsWorker(procs[k])
    ensures Inflight(procs, q) == Carries(procs[0], q)
  {
    if |procs| > 1 {
      InflightOfOne(procs[..|procs| - 1], q);
    } else {
      assert procs[..0] == [];
    }
  }

  lemma {:induction false} StaysOneWorker(setup: Setup, steps: seq<Step>, q: Pair)
    requires |setup.cursorOf| == 1
    ensures OneWorker(Run(setup, steps), q)
  {
    if steps != [] {
      StaysOneWorker(setup, steps[..|steps| - 1], q);
      EveryPerformanceAccounted(setup, steps[..|steps| - 1], q);
      OneWorkerStays(setup, Run(setup, steps[..|steps| - 1]), steps[|steps| - 1], q);
    }
  }

  /**
   With one worker a pair is performed at most once more than it was lost to a crash between
   performance and record, and exactly so once its completion is recorded.
   */
  lemma PerformedOncePerLoss(setup: Setup, steps: seq<Step>, q: Pair)
    requires |setup.cursorOf| == 1
    ensures var w := Run(setup, steps);
            && w.performed[q] <= 1 + w.lost[q]
            && (q in w.store.completions ==> w.performed[q] == 1 + w.lost[q])
  {
    EveryPerformanceAccounted(setup, steps, q);
    StaysOneWorker(setup, steps, q);
    InflightOfOne(Run(setup, steps).procs, q);
  }

  predicate CrashFree(steps: seq<Step>) {
    forall i :: 0 <= i < |steps| ==> !steps[i].Crash?
  }

  lemma {:induction false} LossNeedsCrash(setup: Setup, steps: seq<Step>, q: Pair)
    requires CrashFree(steps)
    ensures Run(setup, steps).lost[q] == 0
  {
    if steps != [] {
      LossNeedsCrash(setup, steps[..|steps| - 1], q);
      var w, step := Run(setup, steps[..|steps| - 1]), steps[|steps| - 1];
      if step.Advance? && step.k < |w.procs| {
        var (p, e) := Progress(setup, w, step.k, step.entryId, step.createdAt, step.ok);
        EffectCounts(w.(procs := w.procs[step.k := p]), e, q);
      }
    }
  }

  /** Without crashes one worker performs every pair it completes exactly once. */
  lemma ExactlyOnceWithoutCrash(setup: Setup, steps: seq<Step>, q: Pair)
    requires |setup.cursorOf| == 1 && CrashFree(steps)
    ensures Run(setup, steps).performed[q] <= 1
    ensures q in Run(setup, steps).store.completions ==> Run(setup, steps).performed[q] == 1
  {
    PerformedOncePerLoss(setup, steps, q);
    LossNeedsCrash(setup, steps, q);
  }

  // ---- nothing to do --------------------------------------------------------------------

  ghost predicate NothingToDo(setup: Setup) {
    setup.cursorOf == [] || setup.batchSize == 0 || forall ev :: ActionsFor(setup, ev) == []
  }

  predicate IdlingProc(setup: Setup, p: Proc) {
    || p.Idle?
    || (p.HasCursor? && (setup.batchSize == 0 ==> p.pos.None?))
    || (p.Running? && p.todo == [] && setup.batchSize > 0)
  }

  ghost predicate Idling(setup: Setup, w: World) {
    && w.performed == multiset{} && |w.procs| == |setup.cursorOf|
    && (setup.batchSize == 0 ==> w.store.cursors == map[])
    && (forall k :: 0 <= k < |w.procs| ==> IdlingProc(setup, w.procs[k]))
  }

  lemma CallKeepsIdling(setup: Setup, w: World, k: nat, entryId: nat, createdAt: int, ok: bool)
    requires NothingToDo(setup) && Idling(setup, w) && k < |w.procs|
    ensures var (p, e) := Progress(setup, w, k, entryId, createdAt, ok);
      IdlingProc(setup, p) && (e.Nothing? || (e.SetCursor? && setup.batchSize > 0))
  {
    assert IdlingProc(setup, w.procs[k]);
  }

  lemma StepKeepsIdling(setup: Setup, w: World, step: Step)
    requires NothingToDo(setup) && Idling(setup, w)
    ensures Idling(setup, Next(setup, w, step))
  {
    var v := Next(setup, w, step);
    if step.Advance? && step.k < |w.procs| {
      CallKeepsIdling(setup, w, step.k, step.entryId, step.createdAt, step.ok);
    }
    if !step.Append? && step.k < |w.procs| {
      assert forall j :: 0 <= j < |w.procs| && j != step.k ==> v.procs[j] == w.procs[j];
    }
  }

  lemma {:induction false} NothingPerformed(setup: Setup, steps: seq<Step>)
    requires NothingToDo(setup)
    ensures Idling(setup, Run(setup, steps))
  {
    if steps != [] {
      NothingPerformed(setup, steps[..|steps| - 1]);
      StepKeepsIdling(setup, Run(setup, steps[..|steps| - 1]), steps[|steps| - 1]);
    }
  }

  // ---- two workers ----------------------------------------------------------------------

  /** A call of worker `k`; a buffer insert would use the worker's number as the new entry id. */
  function Call(k: nat): Step {
    Advance(k, k, 0, true)
  }

  /** A worker after its first `n` calls, when there is one event and no cursor. */
  function AfterCalls(setup: Setup, ev: Event, n: nat): Proc {
    if n == 0 then Idle
    else if n == 1 then HasCursor(None)
    else Running([ev], 0, ActionsFor(setup, ev), if n == 2 then Checking else Performing)
  }

  /** Two workers making `n` calls each in turn. */
  function InTurn(ev: Event, n: nat): seq<Step> {
    if n == 0 then [Append(ev)] else InTurn(ev, n - 1) + [Call(0)] + [Call(1)]
  }

  function FirstPair(setup: Setup, ev: Event): Pair
    requires ActionsFor(setup, ev) != []
  {
    (ev.id, ActionsFor(setup, ev)[0].id)
  }

  ghost predicate BothAt(setup: Setup, ev: Event, w: World, n: nat) {
    && w.store == EMPTY_STORE.(events := [ev]) && |w.procs| == |setup.cursorOf| >= 2
    && w.procs[0] == AfterCalls(setup, ev, n) && w.procs[1] == AfterCalls(setup, ev, n)
    && w.performed == multiset{} && w.buffered == {}
  }

  lemma NextCall(setup: Setup, ev: Event, w: World, k: nat, n: nat)
    requires setup.batchSize > 0 && w.store == EMPTY_STORE.(events := [ev])
    requires ActionsFor(setup, ev) != [] && k < |w.procs| == |setup.cursorOf|
    requires n < 3 && w.procs[k] == AfterCalls(setup, ev, n)
    ensures Next(setup, w, Call(k)) == w.(procs := w.procs[k := AfterCalls(setup, ev, n + 1)])
  {
  }

  lemma NextTurn(setup: Setup, ev: Event, w: World, n: nat)
    requires setup.batchSize > 0 && ActionsFor(setup, ev) != [] && n < 3 && BothAt(setup, ev, w, n)
    ensures BothAt(setup, ev, Next(setup, Next(setup, w, Call(0)), Call(1)), n + 1)
  {
    NextCall(setup, ev, w, 0, n);
    NextCall(setup, ev, Next(setup, w, Call(0)), 1, n);
  }

  lemma TurnRun(setup: Setup, ev: Event, n: nat)
    requires n > 0
    ensures Run(setup, InTurn(ev, n)) == Next(setup, Next(setup, Run(setup, InTurn(ev, n - 1)), Call(0)), Call(1))
  {
    RunSnoc(setup, InTurn(ev, n - 1), Call(0));
    RunSnoc(setup, InTurn(ev, n - 1) + [Call(0)], Call(1));
  }

  lemma EventAppended(setup: Setup, ev: Event)
    requires |setup.cursorOf| >= 2
    ensures BothAt(setup, ev, Run(setup, InTurn(ev, 0)), 0)
  {
    RunOne(setup, Append(ev));
    assert InTurn(ev, 0) == [Append(ev)];
    AppendedFirst(setup, ev);
  }

  lemma AppendedFirst(setup: Setup, ev: Event)
    requires |setup.cursorOf| >= 2
    ensures BothAt(setup, ev, Next(setup, Init(setup), Append(ev)), 0)
  {
    assert [] + [ev] == [ev];
  }

  lemma {:induction false} BothWorkersAt(setup: Setup, ev: Event, n: nat)
    requires |setup.cursorOf| >= 2 && setup.batchSize > 0 && ActionsFor(setup, ev) != [] && n <= 3
    ensures BothAt(setup, ev, Run(setup, InTurn(ev, n)), n)
  {
    if n == 0 {
      EventAppended(setup, ev);
    } else {
      BothWorkersAt(setup, ev, n - 1);
      NextTurn(setup, ev, Run(setup, InTurn(ev, n - 1)), n - 1);
      TurnRun(setup, ev, n);
    }
  }

  /** The fourth call executes the first action or buffers the event for it. */
  lemma PerformingCall(setup: Setup, ev: Event, w: World, k: nat)
    requires ActionsFor(setup, ev) != [] && k < |w.procs| && w.procs[k] == AfterCalls(setup, ev, 3) && k !in w.buffered
    ensures var v := Next(setup, w, Call(k));
      && v.performed == w.performed + multiset{FirstPair(setup, ev)} && v.buffered <= w.buffered + {k}
      && |v.procs| == |w.procs| && forall j :: 0 <= j < |w.procs| && j != k ==> v.procs[j] == w.procs[j]
  {
  }

  lemma {:induction false} TurnsHaveNoCrash(ev: Event, n: nat)
    ensures CrashFree(InTurn(ev, n))
  {
    if n > 0 { TurnsHaveNoCrash(ev, n - 1); }
  }

  /**
   With a second worker, whether it shares the cursor or not, exactly-once is lost even without
   a crash: both may find the pair without a record before either records it.
   */
  lemma TwoWorkersRepeat(setup: Setup, ev: Event) returns (steps: seq<Step>)
    requires |setup.cursorOf| >= 2 && setup.batchSize > 0 && ActionsFor(setup, ev) != []
    ensures CrashFree(steps) && Run(setup, steps).performed[FirstPair(setup, ev)] == 2
  {
    var turns := InTurn(ev, 3);
    steps := turns + [Call(0)] + [Call(1)];
    BothWorkersAt(setup, ev, 3);
    TurnsHaveNoCrash(ev, 3);
    RunSnoc(setup, turns, Call(0));
    PerformingCall(setup, ev, Run(setup, turns), 0);
    RunSnoc(setup, turns + [Call(0)], Call(1));
    PerformingCall(setup, ev, Run(setup, turns + [Call(0)]), 1);
  }

  /** In every run without a crash no pair is performed twice. */
  ghost predicate AtMostOnce(setup: Setup) {
    forall steps, q :: CrashFree(steps) ==> Run(setup, steps).performed[q] <= 1
  }

  /**
   Without crashes no pair is ever performed twice exactly for a setup with at most one worker,
   or one in which nothing is ever polled or nothing has an action.
   */
  lemma AtMostOnceExactly(setup: Setup)
    ensures AtMostOnce(setup) <==> |setup.cursorOf| <= 1 || NothingToDo(setup)
  {
    if NothingToDo(setup) {
      forall steps, q | CrashFree(steps) ensures Run(setup, steps).performed[q] <= 1 {
        NothingPerformed(setup, steps);
      }
    } else if |setup.cursorOf| <= 1 {
      forall steps, q | CrashFree(steps) ensures Run(setup, steps).performed[q] <= 1 {
        ExactlyOnceWithoutCrash(setup, steps, q);
      }
    } else {
      var ev :| ActionsFor(setup, ev) != [];
      var steps := TwoWorkersRepeat(setup, ev);
      assert Run(setup, steps).performed[FirstPair(setup, ev)] > 1;
    }
  }
}
