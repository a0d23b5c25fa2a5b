/**
 The durable dispatch worker as a state machine: any number of workers and timed flushes, one
 backend call a step, events appended at any time, and a crash possible between any two calls.
 The subscription set is fixed; action executions are oracles that may fail.
 */
module DispatchProtocol {
  import opened Wrappers
  import opened MemoryBackend

  datatype AccumulatorConfig = AccumulatorConfig(threshold: int, flushInterval: int)

  datatype Action = Action(id: nat, accumulator: Option<AccumulatorConfig>)

  datatype Filter = Filter(
    eventTypes: Option<seq<string>>, principal: Option<nat>, sources: Option<seq<string>>)

  datatype Subscription = Subscription(filter: Filter, actions: seq<Action>)

  datatype Setup = Setup(
    subscriptions: seq<Subscription>,
    resolve: seq<string> -> set<nat>,  // source slugs to source principals
    cursorOf: seq<string>,             // the cursor name of each worker; names may be shared
    batchSize: nat)

  const CLAIM_LIMIT: nat := 100

  predicate Matches(setup: Setup, ev: Event, f: Filter) {
    && (f.eventTypes.Some? ==> ev.eventType in f.eventTypes.value)
    && (f.principal.Some? ==> ev.principal == f.principal)
    && (f.sources.Some? ==> ev.principal.Some? && ev.principal.value in setup.resolve(f.sources.value))
  }

  /** The actions of every matching subscription, in order. */
  function ActionsOf(setup: Setup, subs: seq<Subscription>, ev: Event): seq<Action> {
    if subs == [] then []
    else (if Matches(setup, ev, subs[0].filter) then subs[0].actions else [])
         + ActionsOf(setup, subs[1..], ev)
  }

  function ActionsFor(setup: Setup, ev: Event): seq<Action> {
    ActionsOf(setup, setup.subscriptions, ev)
  }

  /** A filter lets an event through if it has no condition that the event fails to meet. */
  lemma {:induction false} DueExactly(setup: Setup, subs: seq<Subscription>, ev: Event, a: Action)
    ensures a in ActionsOf(setup, subs, ev) <==>
      exists i :: 0 <= i < |subs| && a in subs[i].actions
        && (subs[i].filter.eventTypes == None || ev.eventType in subs[i].filter.eventTypes.value)
        && (subs[i].filter.principal == None || ev.principal == subs[i].filter.principal)
        && (subs[i].filter.sources == None
            || (ev.principal != None && ev.principal.value in setup.resolve(subs[i].filter.sources.value)))
  {
    if subs != [] {
      DueExactly(setup, subs[1..], ev, a);
      if a in ActionsOf(setup, subs[1..], ev) {
        var i :| 0 <= i < |subs[1..]| && a in subs[1..][i].actions && Matches(setup, ev, subs[1..][i].filter);
        assert subs[i + 1] == subs[1..][i];
      }
      forall i | 0 < i < |subs| && a in subs[i].actions && Matches(setup, ev, subs[i].filter)
        ensures a in ActionsOf(setup, subs[1..], ev)
      {
        assert subs[1..][i - 1] == subs[i];
      }
    }
  }

  /** Where a worker stands with the current event and action. */
  datatype Phase =
    | Checking | Performing | Buffered | Claiming
    | Flushing(entries: seq<Entry>) | Confirming(entries: seq<Entry>) | Recording

  datatype Proc =
    | Idle
    | HasCursor(pos: Option<nat>)
    | Running(batch: seq<Event>, i: nat, todo: seq<Action>, phase: Phase)
    | FlushDue(action: nat) | FlushClaimed(entries: seq<Entry>) | FlushExecuted(entries: seq<Entry>)
    | FlushOver

  type Pair = (nat, nat)  // event id, action id

  /**
   The durable store, the processes with their volatile local state, and a history: executions
   and buffer inserts, completion records written, pairs lost to a crash between the two, and
   the entry ids ever buffered, executed without exception, and confirmed.
   */
  datatype World = World(
    store: Store, procs: seq<Proc>,
    performed: multiset<Pair>, recorded: multiset<Pair>, lost: multiset<Pair>,
    buffered: set<nat>, executed: set<nat>, confirmed: set<nat>)

  datatype Step =
    | Append(event: Event)
    | Advance(k: nat, entryId: nat, createdAt: int, ok: bool)  // the next call of process k
    | Crash(k: nat)

  function Init(setup: Setup): World {
    World(EMPTY_STORE, seq(|setup.cursorOf|, _ => Idle), multiset{}, multiset{}, multiset{}, {}, {}, {})
  }

  function StartEvent(setup: Setup, batch: seq<Event>, i: nat): Proc {
    if i < |batch| then Running(batch, i, ActionsFor(setup, batch[i]), Checking) else Idle
  }

  predicate Working(p: Proc) {
    p.Running? && p.i < |p.batch| && p.todo != []
  }

  function CurrentPair(p: Proc): Pair
    requires Working(p)
  {
    (p.batch[p.i].id, p.todo[0].id)
  }

  /** What one call changes besides the local state of the process that makes it. */
  datatype Effect =
    | Nothing
    | SetCursor(name: string, eventId: nat)
    | Execute(pair: Pair)
    | Insert(pair: Pair, entry: Entry)
    | Record(pair: Pair)
    | ClaimEntries(entries: seq<Entry>)
    | ExecuteEntries(entries: seq<Entry>)
    | ConfirmEntries(entries: seq<Entry>)
    | Schedule(action: nat)

  function Apply(w: World, e: Effect): World {
    match e
    case Nothing => w
    case SetCursor(name, id) => w.(store := w.store.(cursors := w.store.cursors[name := id]))
    case Execute(pair) => w.(performed := w.performed + multiset{pair})
    case Insert(pair, entry) =>
      w.(store := w.store.(accumulator := Put(w.store.accumulator, entry)),
         performed := w.performed + multiset{pair}, buffered := w.buffered + {entry.id})
    case Record(pair) =>
      w.(store := w.store.(completions := w.store.completions + {pair}),
         recorded := w.recorded + multiset{pair})
    case ClaimEntries(entries) => w.(store := Claim(w.store, entries))
    case ExecuteEntries(entries) => w.(executed := w.executed + Ids(entries))
    case ConfirmEntries(entries) =>
      w.(store := Confirm(w.store, Ids(entries)), confirmed := w.confirmed + Ids(entries))
    case Schedule(action) => w.(procs := w.procs + [FlushDue(action)])
  }

  function Next(setup: Setup, w: World, step: Step): World {
    match step
    case Append(ev) =>
      if IndexOfEvent(w.store.events, ev.id) < |w.store.events| then w
      else w.(store := w.store.(events := w.store.events + [ev]))
    case Crash(k) =>
      if k < |w.procs| then
        w.(procs := w.procs[k := AfterCrash(w.procs[k])], lost := w.lost + InflightOf(w.procs[k]))
      else w
    case Advance(k, entryId, createdAt, ok) =>
      if k < |w.procs| then
        var (p, e) := Progress(setup, w, k, entryId, createdAt, ok);
        Apply(w.(procs := w.procs[k := p]), e)
      else w
  }

  /** The pair a process has performed but not yet recorded. */
  function InflightOf(p: Proc): multiset<Pair> {
    if Working(p) && !p.phase.Checking? && !p.phase.Performing?
    then multiset{CurrentPair(p)} else multiset{}
  }

  function AfterCrash(p: Proc): Proc {
    if p.Idle? || p.HasCursor? || p.Running? then Idle else FlushOver
  }

  /** The next call of process `k`: its local state afterwards and the effect of the call. */
  function Progress(setup: Setup, w: World, k: nat, entryId: nat, createdAt: int, ok: bool): (Proc, Effect)
    requires k < |w.procs|
  {
    var p := w.procs[k];
    match p
    case Idle =>
      (if k < |setup.cursorOf| then HasCursor(CursorOf(w.store, setup.cursorOf[k])) else p, Nothing)
    case HasCursor(pos) => (StartEvent(setup, PollSince(w.store.events, pos, setup.batchSize), 0), Nothing)
    case Running(batch, i, todo, phase) =>
      if todo != [] && i < |batch| then RunAction(w.store, w.buffered, p, entryId, createdAt, ok)
      else if i < |batch| && k < |setup.cursorOf| then
        (StartEvent(setup, batch, i + 1), SetCursor(setup.cursorOf[k], batch[i].id))
      else (p, Nothing)
    case FlushDue(action) =>
      var entries := Claimable(w.store, action, CLAIM_LIMIT);
      if entries == [] then (FlushOver, Nothing) else (FlushClaimed(entries), ClaimEntries(entries))
    case FlushClaimed(entries) => if ok then (FlushExecuted(entries), ExecuteEntries(entries)) else (FlushOver, Nothing)
    case FlushExecuted(entries) => (FlushOver, ConfirmEntries(entries))
    case FlushOver => (p, Nothing)
  }

  function RunAction(s: Store, buffered: set<nat>, p: Proc, entryId: nat, createdAt: int, ok: bool): (Proc, Effect)
    requires Working(p)
  {
    var pair := CurrentPair(p);
    var action := p.todo[0];
    match p.phase
    case Checking =>
      (if pair in s.completions then p.(todo := p.todo[1..]) else p.(phase := Performing), Nothing)
    case Performing =>
      if action.accumulator.None? then (p.(phase := Recording), Execute(pair))
      else if entryId in buffered then (p, Nothing)
      else (p.(phase := Buffered), Insert(pair, Entry(entryId, action.id, pair.0, createdAt)))
    case Buffered =>
      if action.accumulator.None? then (p, Nothing)
      else
        var config := action.accumulator.value;
        if config.threshold > 0 && PendingCount(s, action.id) >= config.threshold then
          (p.(phase := Claiming), Nothing)
        else
          (p.(phase := Recording), if config.flushInterval > 0 then Schedule(action.id) else Nothing)
    case Claiming =>
      var entries := Claimable(s, action.id, CLAIM_LIMIT);
      if entries == [] then (p.(phase := Recording), Nothing)
      else (p.(phase := Flushing(entries)), ClaimEntries(entries))
    case Flushing(entries) =>
      if ok then (p.(phase := Confirming(entries)), ExecuteEntries(entries)) else (p.(phase := Recording), Nothing)
    case Confirming(entries) => (p.(phase := Recording), ConfirmEntries(entries))
    case Recording => (p.(todo := p.todo[1..], phase := Checking), Record(pair))
  }

  function Run(setup: Setup, steps: seq<Step>): World {
    if steps == [] then Init(setup)
    else Next(setup, Run(setup, steps[..|steps| - 1]), steps[|steps| - 1])
  }

  function RunFrom(setup: Setup, w: World, steps: seq<Step>): World {
    if steps == [] then w
    else Next(setup, RunFrom(setup, w, steps[..|steps| - 1]), steps[|steps| - 1])
  }

  lemma RunOne(setup: Setup, step: Step)
    ensures Run(setup, [step]) == Next(setup, Init(setup), step)
  {
    assert [step][..0] == [];
  }

  lemma RunSnoc(setup: Setup, steps: seq<Step>, step: Step)
    ensures Run(setup, steps + [step]) == Next(setup, Run(setup, steps), step)
  {
    assert (steps + [step])[..|steps|] == steps;
  }

  // ---- cursors never pass unfinished events ----------------------------------------------

  ghost predicate EventDone(setup: Setup, s: Store, ev: Event) {
    forall a :: a in ActionsFor(setup, ev) ==> (ev.id, a.id) in s.completions
  }

  ghost predicate DoneBefore(setup: Setup, s: Store, n: nat) {
    n <= |s.events| && forall q :: 0 <= q < n ==> EventDone(setup, s, s.events[q])
  }

  /** The event exists and it and all events before it have all their completion records. */
  ghost predicate DoneThrough(setup: Setup, s: Store, id: nat) {
    IndexOfEvent(s.events, id) < |s.events| && DoneBefore(setup, s, IndexOfEvent(s.events, id) + 1)
  }

  ghost predicate DistinctEvents(events: seq<Event>) {
    forall i, j :: 0 <= i < j < |events| ==> events[i].id != events[j].id
  }

  /** The batch is a stretch of the event list. */
  ghost predicate Stretch(events: seq<Event>, batch: seq<Event>, start: nat) {
    start + |batch| <= |events| && batch == events[start..start + |batch|]
  }

  /** All before the current event is done, and of the current event all but the actions to do. */
  ghost predicate RunningSafe(setup: Setup, s: Store, batch: seq<Event>, i: nat, todo: seq<Action>) {
    && i < |batch|
    && Stretch(s.events, batch, IndexOfEvent(s.events, batch[0].id))
    && DoneBefore(setup, s, IndexOfEvent(s.events, batch[0].id) + i)
    && AllButTodo(s, batch[i].id, ActionsFor(setup, batch[i]), todo)
  }

  ghost predicate AllButTodo(s: Store, eventId: nat, actions: seq<Action>, todo: seq<Action>) {
    && |todo| <= |actions| && todo == actions[|actions| - |todo|..]
    && forall a :: a in actions[..|actions| - |todo|] ==> (eventId, a.id) in s.completions
  }

  ghost predicate ProcSafe(setup: Setup, s: Store, p: Proc) {
    && (p.HasCursor? && p.pos.Some? ==> DoneThrough(setup, s, p.pos.value))
    && (p.Running? ==> RunningSafe(setup, s, p.batch, p.i, p.todo))
  }

  ghost predicate Safe(setup: Setup, w: World) {
    && DistinctEvents(w.store.events)
    && (forall name :: name in w.store.cursors ==> DoneThrough(setup, w.store, w.store.cursors[name]))
    && (forall k :: 0 <= k < |w.procs| ==> ProcSafe(setup, w.store, w.procs[k]))
  }

  /** A store that has every event and completion of an earlier one, in the same place. */
  ghost predicate Grows(s: Store, t: Store) {
    s.events <= t.events && s.completions <= t.completions
  }

  lemma {:induction false} IndexInLonger(events: seq<Event>, more: seq<Event>, id: nat)
    requires events <= more && IndexOfEvent(events, id) < |events|
    ensures IndexOfEvent(more, id) == IndexOfEvent(events, id)
  {
    if events[0].id != id {
      IndexInLonger(events[1..], more[1..], id);
    }
  }

  lemma {:induction false} IndexOfDistinct(events: seq<Event>, i: nat)
    requires DistinctEvents(events) && i < |events|
    ensures IndexOfEvent(events, events[i].id) == i
  {
    if i > 0 {
      assert events[0].id != events[i].id;
      IndexOfDistinct(events[1..], i - 1);
    }
  }

  /** Where the events of a stretch stand in the list. */
  lemma StretchIndex(events: seq<Event>, batch: seq<Event>, start: nat, i: nat)
    requires DistinctEvents(events) && i < |batch| && Stretch(events, batch, start)
    ensures events[start + i] == batch[i] && IndexOfEvent(events, batch[i].id) == start + i
  {
    assert events[start + i] == batch[i];
    IndexOfDistinct(events, start + i);
  }

  lemma DoneGrows(setup: Setup, s: Store, t: Store, id: nat)
    requires Grows(s, t) && DoneThrough(setup, s, id)
    ensures DoneThrough(setup, t, id)
  {
    IndexInLonger(s.events, t.events, id);
  }

  lemma ProcSafeGrows(setup: Setup, s: Store, t: Store, p: Proc)
    requires Grows(s, t) && ProcSafe(setup, s, p) && DistinctEvents(s.events)
    ensures ProcSafe(setup, t, p)
  {
    if p.HasCursor? && p.pos.Some? { DoneGrows(setup, s, t, p.pos.value); }
    if p.Running? {
      var start := IndexOfEvent(s.events, p.batch[0].id);
      assert s.events[start] == p.batch[0];
      IndexInLonger(s.events, t.events, p.batch[0].id);
      assert t.events[start..start + |p.batch|] == s.events[start..start + |p.batch|];
    }
  }

  lemma PolledStretch(setup: Setup, s: Store, pos: Option<nat>, limit: nat)
    requires DistinctEvents(s.events) && ProcSafe(setup, s, HasCursor(pos))
    ensures var batch := PollSince(s.events, pos, limit);
            batch != [] ==>
              var start := IndexOfEvent(s.events, batch[0].id);
              Stretch(s.events, batch, start) && DoneBefore(setup, s, start)
  {
    var batch := PollSince(s.events, pos, limit);
    if batch != [] {
      var from := if pos.None? then 0 else IndexOfEvent(s.events, pos.value) + 1;
      assert batch == s.events[from..from + |batch|];
      assert s.events[from] == batch[0];
      IndexOfDistinct(s.events, from);
    }
  }

  /** A change of process `k` and of the store keeps safety if what is new is safe. */
  lemma ChangeKeepsSafe(setup: Setup, w: World, v: World, k: nat)
    requires Safe(setup, w) && k < |w.procs| <= |v.procs|
    requires Grows(w.store, v.store) && v.store.events == w.store.events
    requires forall j :: 0 <= j < |w.procs| && j != k ==> v.procs[j] == w.procs[j]
    requires ProcSafe(setup, v.store, v.procs[k])
    requires forall j :: |w.procs| <= j < |v.procs| ==> v.procs[j].FlushDue?
    requires forall name :: name in v.store.cursors ==>
      (name in w.store.cursors && v.store.cursors[name] == w.store.cursors[name])
      || DoneThrough(setup, v.store, v.store.cursors[name])
    ensures Safe(setup, v)
  {
    forall name | name in v.store.cursors ensures DoneThrough(setup, v.store, v.store.cursors[name]) {
      if name in w.store.cursors && v.store.cursors[name] == w.store.cursors[name] {
        DoneGrows(setup, w.store, v.store, w.store.cursors[name]);
      }
    }
    forall j | 0 <= j < |v.procs| ensures ProcSafe(setup, v.store, v.procs[j]) {
      if j < |w.procs| && j != k {
        ProcSafeGrows(setup, w.store, v.store, w.procs[j]);
      }
    }
  }

  lemma AppendKeepsSafe(setup: Setup, w: World, ev: Event)
    requires Safe(setup, w)
    ensures Safe(setup, Next(setup, w, Append(ev)))
  {
    var v := Next(setup, w, Append(ev));
    if v != w {
      forall name | name in v.store.cursors ensures DoneThrough(setup, v.store, v.store.cursors[name]) {
        DoneGrows(setup, w.store, v.store, v.store.cursors[name]);
      }
      forall j | 0 <= j < |v.procs| ensures ProcSafe(setup, v.store, v.procs[j]) {
        ProcSafeGrows(setup, w.store, v.store, w.procs[j]);
      }
    }
  }

  /** With nothing left to do for its event, a worker may move its cursor to it. */
  lemma EventFinished(setup: Setup, s: Store, batch: seq<Event>, i: nat)
    requires RunningSafe(setup, s, batch, i, []) && DistinctEvents(s.events)
    ensures DoneThrough(setup, s, batch[i].id)
    ensures ProcSafe(setup, s, StartEvent(setup, batch, i + 1))
  {
    var start := IndexOfEvent(s.events, batch[0].id);
    var actions := ActionsFor(setup, batch[i]);
    assert actions[..|actions| - 0] == actions;
    assert EventDone(setup, s, batch[i]);
    StretchIndex(s.events, batch, start, i);
    assert DoneBefore(setup, s, start + i + 1);
    if i + 1 < |batch| {
      NothingDoneYet(s, batch[i + 1].id, ActionsFor(setup, batch[i + 1]));
    }
  }

  lemma DropFirstTodo(s: Store, eventId: nat, actions: seq<Action>, todo: seq<Action>)
    requires AllButTodo(s, eventId, actions, todo) && todo != []
    requires (eventId, todo[0].id) in s.completions
    ensures AllButTodo(s, eventId, actions, todo[1..])
  {
    var n := |actions| - |todo|;
    assert actions[..n + 1] == actions[..n] + [todo[0]];
  }

  /** A call for the current action stays with it, or leaves it once it has its record. */
  lemma RunActionShape(s: Store, buffered: set<nat>, p: Proc, entryId: nat, createdAt: int, ok: bool)
    requires Working(p)
    ensures var (r, e) := RunAction(s, buffered, p, entryId, createdAt, ok);
            && r.Running? && r.batch == p.batch && r.i == p.i && !e.SetCursor?
            && (r.todo == p.todo
                || (r.todo == p.todo[1..] && (CurrentPair(p) in s.completions || e == Record(CurrentPair(p)))))
  {
  }

  lemma ApplyGrows(w: World, e: Effect)
    ensures var v := Apply(w, e);
            && Grows(w.store, v.store) && v.store.events == w.store.events
            && (e.Record? ==> e.pair in v.store.completions)
            && v.store.cursors == (if e.SetCursor? then w.store.cursors[e.name := e.eventId] else w.store.cursors)
            && v.procs == (if e.Schedule? then w.procs + [FlushDue(e.action)] else w.procs)
  {
  }

  /** The call for the current action leaves the process safe in the store it produces. */
  lemma ActionKeepsProcSafe(setup: Setup, w: World, k: nat, p: Proc, e: Effect)
    requires Safe(setup, w) && k < |w.procs| && Working(w.procs[k])
    requires var q := w.procs[k];
             && p.Running? && p.batch == q.batch && p.i == q.i
             && (p.todo == q.todo
                 || (p.todo == q.todo[1..] && (CurrentPair(q) in w.store.completions || e == Record(CurrentPair(q)))))
    ensures ProcSafe(setup, Apply(w, e).store, p)
  {
    var q, t := w.procs[k], Apply(w, e).store;
    ApplyGrows(w, e);
    ProcSafeGrows(setup, w.store, t, q);
    if p.todo != q.todo {
      DropFirstTodo(t, q.batch[q.i].id, ActionsFor(setup, q.batch[q.i]), q.todo);
    }
  }

  lemma NothingDoneYet(s: Store, eventId: nat, actions: seq<Action>)
    ensures AllButTodo(s, eventId, actions, actions)
  {
    assert actions[|actions| - |actions|..] == actions;
    assert actions[..|actions| - |actions|] == [];
  }

  lemma PolledProcSafe(setup: Setup, w: World, k: nat)
    requires Safe(setup, w) && k < |w.procs| && w.procs[k].HasCursor?
    ensures ProcSafe(setup, w.store,
                     StartEvent(setup, PollSince(w.store.events, w.procs[k].pos, setup.batchSize), 0))
  {
    var pos := w.procs[k].pos;
    PolledStretch(setup, w.store, pos, setup.batchSize);
    var batch := PollSince(w.store.events, pos, setup.batchSize);
    if batch != [] { NothingDoneYet(w.store, batch[0].id, ActionsFor(setup, batch[0])); }
  }

  lemma FinishedProcSafe(setup: Setup, w: World, k: nat, name: string)
    requires Safe(setup, w) && k < |w.procs|
    requires w.procs[k].Running? && w.procs[k].todo == []
    ensures var batch, i := w.procs[k].batch, w.procs[k].i;
            && i < |batch|
            && var t := Apply(w, SetCursor(name, batch[i].id)).store;
               DoneThrough(setup, t, batch[i].id) && ProcSafe(setup, t, StartEvent(setup, batch, i + 1))
  {
    var batch, i := w.procs[k].batch, w.procs[k].i;
    assert ProcSafe(setup, w.store, w.procs[k]);
    EventFinished(setup, w.store, batch, i);
    var t := Apply(w, SetCursor(name, batch[i].id)).store;
    ApplyGrows(w, SetCursor(name, batch[i].id));
    DoneGrows(setup, w.store, t, batch[i].id);
    ProcSafeGrows(setup, w.store, t, StartEvent(setup, batch, i + 1));
  }

  lemma ProgressKeepsSafe(setup: Setup, w: World, k: nat, entryId: nat, createdAt: int, ok: bool)
    requires Safe(setup, w) && k < |w.procs|
    ensures var (p, e) := Progress(setup, w, k, entryId, createdAt, ok);
            && ProcSafe(setup, Apply(w, e).store, p)
            && (e.SetCursor? ==> DoneThrough(setup, Apply(w, e).store, e.eventId))
  {
    var q := w.procs[k];
    assert ProcSafe(setup, w.store, q);
    if Working(q) {
      ActionCallKeepsSafe(setup, w, k, entryId, createdAt, ok);
    } else if q.Running? {
      if k < |setup.cursorOf| { FinishedProcSafe(setup, w, k, setup.cursorOf[k]); }
    } else {
      PollCallKeepsSafe(setup, w, k, entryId, createdAt, ok);
    }
  }

  lemma ActionCallKeepsSafe(setup: Setup, w: World, k: nat, entryId: nat, createdAt: int, ok: bool)
    requires Safe(setup, w) && k < |w.procs| && Working(w.procs[k])
    ensures var (p, e) := Progress(setup, w, k, entryId, createdAt, ok);
            ProcSafe(setup, Apply(w, e).store, p) && !e.SetCursor?
  {
    var (p, e) := RunAction(w.store, w.buffered, w.procs[k], entryId, createdAt, ok);
    RunActionShape(w.store, w.buffered, w.procs[k], entryId, createdAt, ok);
    ActionKeepsProcSafe(setup, w, k, p, e);
  }

  /** Looking up the cursor, polling, and the calls of a timed flush. */
  lemma PollCallKeepsSafe(setup: Setup, w: World, k: nat, entryId: nat, createdAt: int, ok: bool)
    requires Safe(setup, w) && k < |w.procs| && !w.procs[k].Running?
    ensures var (p, e) := Progress(setup, w, k, entryId, createdAt, ok);
            ProcSafe(setup, Apply(w, e).store, p) && !e.SetCursor?
  {
    var q := w.procs[k];
    if q.HasCursor? {
      PolledProcSafe(setup, w, k);
    } else if q.Idle? && k < |setup.cursorOf| && setup.cursorOf[k] in w.store.cursors {
      assert DoneThrough(setup, w.store, w.store.cursors[setup.cursorOf[k]]);
    }
  }

  lemma AdvanceKeepsSafe(setup: Setup, w: World, k: nat, p: Proc, e: Effect)
    requires Safe(setup, w) && k < |w.procs|
    requires ProcSafe(setup, Apply(w, e).store, p)
    requires e.SetCursor? ==> DoneThrough(setup, Apply(w, e).store, e.eventId)
    ensures Safe(setup, Apply(w.(procs := w.procs[k := p]), e))
  {
    var moved := w.(procs := w.procs[k := p]);
    var v := Apply(moved, e);
    ApplyGrows(moved, e);
    assert v.store == Apply(w, e).store;
    ChangeKeepsSafe(setup, w, v, k);
  }

  lemma StepKeepsSafe(setup: Setup, w: World, step: Step)
    requires Safe(setup, w)
    ensures Safe(setup, Next(setup, w, step))
  {
    match step
    case Append(ev) => AppendKeepsSafe(setup, w, ev);
    case Advance(k, entryId, createdAt, ok) =>
      if k < |w.procs| {
        var (p, e) := Progress(setup, w, k, entryId, createdAt, ok);
        ProgressKeepsSafe(setup, w, k, entryId, createdAt, ok);
        AdvanceKeepsSafe(setup, w, k, p, e);
      }
    case Crash(k) =>
      if k < |w.procs| { ChangeKeepsSafe(setup, w, Next(setup, w, step), k); }
  }

  /**
   At every moment of every run: each stored cursor names an event of the list, and every
   action of every matching subscription has a completion record for that event and for all
   events before it.
   */
  lemma {:induction false} CursorsNeverPassUnfinished(setup: Setup, steps: seq<Step>)
    ensures Safe(setup, Run(setup, steps))
  {
    if steps != [] {
      CursorsNeverPassUnfinished(setup, steps[..|steps| - 1]);
      StepKeepsSafe(setup, Run(setup, steps[..|steps| - 1]), steps[|steps| - 1]);
    }
  }
}
