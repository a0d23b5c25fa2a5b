/**
 What stands behind a completion record in the dispatch protocol: the event of an accumulating
 action has been buffered for it, and nothing is ever buffered but what is due.
 */
module DispatchBuffering {
  import opened Wrappers
  import opened MemoryBackend
  import opened DispatchProtocol

  predicate Accumulates(setup: Setup, actionId: nat) {
    forall i, a :: 0 <= i < |setup.subscriptions| && a in setup.subscriptions[i].actions && a.id == actionId ==>
      a.accumulator != None
  }

  predicate Immediate(setup: Setup, actionId: nat) {
    forall i, a :: 0 <= i < |setup.subscriptions| && a in setup.subscriptions[i].actions && a.id == actionId ==>
      a.accumulator == None
  }

  /** The accumulator holds an entry of the action for the event. */
  ghost predicate Holds(s: Store, q: Pair) {
    exists e :: e in s.accumulator && e.eventId == q.0 && e.actionId == q.1
  }

  /** At some moment of the run it did. */
  ghost predicate WasBuffered(setup: Setup, steps: seq<Step>, q: Pair) {
    exists n :: 0 <= n <= |steps| && Holds(Run(setup, steps[..n]).store, q)
  }

  lemma BufferedStays(setup: Setup, steps: seq<Step>, q: Pair)
    requires steps != [] && WasBuffered(setup, steps[..|steps| - 1], q)
    ensures WasBuffered(setup, steps, q)
  {
    var before := steps[..|steps| - 1];
    var n :| 0 <= n <= |before| && Holds(Run(setup, before[..n]).store, q);
    assert before[..n] == steps[..n];
  }

  lemma BufferedNow(setup: Setup, steps: seq<Step>, q: Pair)
    requires Holds(Run(setup, steps).store, q)
    ensures WasBuffered(setup, steps, q)
  {
    assert steps[..|steps|] == steps;
  }

  lemma {:induction false} DueActionIsGiven(setup: Setup, subs: seq<Subscription>, ev: Event, a: Action)
    requires a in ActionsOf(setup, subs, ev)
    ensures exists i :: 0 <= i < |subs| && a in subs[i].actions
  {
    DueExactly(setup, subs, ev, a);
  }

  lemma {:induction false} PutMembers(entries: seq<Entry>, e: Entry)
    ensures e in Put(entries, e) && forall x :: x in Put(entries, e) ==> x == e || x in entries
  {
    if entries != [] && entries[0].id != e.id { PutMembers(entries[1..], e); }
  }

  // ---- a record stands for an entry ---------------------------------------------------------

  predicate PastInsert(p: Proc) {
    Working(p) && !p.phase.Checking? && !p.phase.Performing? && p.todo[0].accumulator.Some?
  }

  ghost predicate Carried(w: World, q: Pair) {
    exists k :: 0 <= k < |w.procs| && PastInsert(w.procs[k]) && CurrentPair(w.procs[k]) == q
  }

  /** The pair is recorded for an accumulating action, or a worker past its insert carries it. */
  ghost predicate Backed(setup: Setup, w: World, q: Pair) {
    (q in w.store.completions && Accumulates(setup, q.1)) || Carried(w, q)
  }

  lemma ActionInserts(s: Store, buffered: set<nat>, p: Proc, entryId: nat, createdAt: int, ok: bool)
    requires Working(p)
    ensures var (r, e) := RunAction(s, buffered, p, entryId, createdAt, ok);
      && (PastInsert(r) ==>
            || (e.Insert? && e.entry.eventId == CurrentPair(r).0 && e.entry.actionId == CurrentPair(r).1)
            || (PastInsert(p) && CurrentPair(p) == CurrentPair(r)))
      && (e.Record? ==> p.phase == Recording && e.pair == CurrentPair(p))
  {
  }

  /** A worker passes the insert of a call only by making it, and records only what it carries. */
  lemma CallInserts(setup: Setup, w: World, k: nat, entryId: nat, createdAt: int, ok: bool)
    requires k < |w.procs|
    ensures var (r, e) := Progress(setup, w, k, entryId, createdAt, ok);
            var p := w.procs[k];
      && (PastInsert(r) ==>
            || (e.Insert? && e.entry.eventId == CurrentPair(r).0 && e.entry.actionId == CurrentPair(r).1)
            || (PastInsert(p) && CurrentPair(p) == CurrentPair(r)))
      && (e.Record? ==> Working(p) && p.phase == Recording && e.pair == CurrentPair(p))
  {
    if Working(w.procs[k]) { ActionInserts(w.store, w.buffered, w.procs[k], entryId, createdAt, ok); }
  }

  /** The action that a worker is about to record belongs to some subscription. */
  lemma CurrentIsGiven(setup: Setup, w: World, k: nat)
    requires Safe(setup, w) && k < |w.procs| && Working(w.procs[k])
    ensures exists i :: 0 <= i < |setup.subscriptions| && w.procs[k].todo[0] in setup.subscriptions[i].actions
  {
    var p := w.procs[k];
    assert ProcSafe(setup, w.store, p);
    var actions := ActionsFor(setup, p.batch[p.i]);
    assert p.todo[0] == actions[|actions| - |p.todo|];
    DueActionIsGiven(setup, setup.subscriptions, p.batch[p.i], p.todo[0]);
  }

  lemma ApplyChanges(w: World, e: Effect)
    ensures var v := Apply(w, e);
      && |v.procs| >= |w.procs| && (forall j :: 0 <= j < |w.procs| ==> v.procs[j] == w.procs[j])
      && (forall j :: |w.procs| <= j < |v.procs| ==> v.procs[j].FlushDue?)
      && v.store.completions == w.store.completions + (if e.Record? then {e.pair} else {})
      && (e.Insert? ==> e.entry in v.store.accumulator)
  {
    if e.Insert? { PutMembers(w.store.accumulator, e.entry); }
  }

  /** What a call newly backs is in the accumulator after it. */
  lemma CallBacks(setup: Setup, w: World, k: nat, entryId: nat, createdAt: int, ok: bool, q: Pair)
    requires Safe(setup, w) && k < |w.procs| && !Backed(setup, w, q)
    requires Backed(setup, Next(setup, w, Advance(k, entryId, createdAt, ok)), q)
    ensures Holds(Next(setup, w, Advance(k, entryId, createdAt, ok)).store, q)
  {
    var (r, e) := Progress(setup, w, k, entryId, createdAt, ok);
    var v := Apply(w.(procs := w.procs[k := r]), e);
    CallInserts(setup, w, k, entryId, createdAt, ok);
    ApplyChanges(w.(procs := w.procs[k := r]), e);
    if Carried(v, q) {
      var j :| 0 <= j < |v.procs| && PastInsert(v.procs[j]) && CurrentPair(v.procs[j]) == q;
      assert j == k && e.Insert?;
    } else {
      CurrentIsGiven(setup, w, k);
      assert false;
    }
  }

  /** An append or a crash backs nothing new. */
  lemma OtherStepBacksNothing(setup: Setup, w: World, step: Step, q: Pair)
    requires !step.Advance? || step.k >= |w.procs|
    ensures Backed(setup, Next(setup, w, step), q) ==> Backed(setup, w, q)
  {
    var v := Next(setup, w, step);
    assert |v.procs| == |w.procs|;
    assert forall k :: 0 <= k < |v.procs| && PastInsert(v.procs[k]) ==> v.procs[k] == w.procs[k];
  }

  lemma StepBacks(setup: Setup, w: World, step: Step, q: Pair)
    requires Safe(setup, w) && !Backed(setup, w, q) && Backed(setup, Next(setup, w, step), q)
    ensures Holds(Next(setup, w, step).store, q)
  {
    if step.Advance? && step.k < |w.procs| {
      CallBacks(setup, w, step.k, step.entryId, step.createdAt, step.ok, q);
    } else {
      OtherStepBacksNothing(setup, w, step, q);
    }
  }

  lemma {:induction false} BackedIsBuffered(setup: Setup, steps: seq<Step>, q: Pair)
    requires Backed(setup, Run(setup, steps), q)
    ensures WasBuffered(setup, steps, q)
  {
    if steps != [] {
      var before := steps[..|steps| - 1];
      if Backed(setup, Run(setup, before), q) {
        BackedIsBuffered(setup, before, q);
        BufferedStays(setup, steps, q);
      } else {
        CursorsNeverPassUnfinished(setup, before);
        StepBacks(setup, Run(setup, before), steps[|steps| - 1], q);
        BufferedNow(setup, steps, q);
      }
    }
  }

  /**
   In every run: an event that is recorded as done for an accumulating action has been in the
   accumulator for it, so no such event is skipped.
   */
  lemma RecordedWasBuffered(setup: Setup, steps: seq<Step>, q: Pair)
    requires q in Run(setup, steps).store.completions && Accumulates(setup, q.1)
    ensures WasBuffered(setup, steps, q)
  {
    BackedIsBuffered(setup, steps, q);
  }

  // ---- an entry stands for something due ----------------------------------------------------

  ghost predicate IsDue(setup: Setup, s: Store, e: Entry) {
    exists ev, a :: ev in s.events && ev.id == e.eventId
      && a in ActionsFor(setup, ev) && a.id == e.actionId && a.accumulator != None
  }

  lemma InsertIsDue(setup: Setup, w: World, k: nat, entryId: nat, createdAt: int, ok: bool)
    requires Safe(setup, w) && k < |w.procs| && Progress(setup, w, k, entryId, createdAt, ok).1.Insert?
    ensures IsDue(setup, w.store, Progress(setup, w, k, entryId, createdAt, ok).1.entry)
  {
    var p := w.procs[k];
    assert ProcSafe(setup, w.store, p);
    var start := IndexOfEvent(w.store.events, p.batch[0].id);
    StretchIndex(w.store.events, p.batch, start, p.i);
    assert p.batch[p.i] in w.store.events;
    var actions := ActionsFor(setup, p.batch[p.i]);
    assert p.todo[0] == actions[|actions| - |p.todo|];
    assert p.todo[0] in actions;
  }

  lemma {:induction false} WithoutSubset(entries: seq<Entry>, ids: set<nat>)
    ensures forall e :: e in Without(entries, ids) ==> e in entries
  {
    if entries != [] { WithoutSubset(entries[1..], ids); }
  }

  /** The entries after a call were there before, or the call inserted them. */
  lemma CallAddsEntry(setup: Setup, w: World, k: nat, entryId: nat, createdAt: int, ok: bool)
    requires k < |w.procs|
    ensures var (p, e) := Progress(setup, w, k, entryId, createdAt, ok);
      forall x :: x in Next(setup, w, Advance(k, entryId, createdAt, ok)).store.accumulator ==>
        x in w.store.accumulator || (e.Insert? && x == e.entry)
  {
    var (p, e) := Progress(setup, w, k, entryId, createdAt, ok);
    if e.Insert? { PutMembers(w.store.accumulator, e.entry); }
    if e.ConfirmEntries? { WithoutSubset(w.store.accumulator, Ids(e.entries)); }
  }

  /** In every run each entry of the accumulator is that of an accumulating action due for an event. */
  lemma {:induction false} EntriesAreDue(setup: Setup, steps: seq<Step>)
    ensures forall e :: e in Run(setup, steps).store.accumulator ==> IsDue(setup, Run(setup, steps).store, e)
  {
    if steps != [] {
      var before, step := steps[..|steps| - 1], steps[|steps| - 1];
      var w, v := Run(setup, before), Run(setup, steps);
      EntriesAreDue(setup, before);
      CursorsNeverPassUnfinished(setup, before);
      forall e | e in v.store.accumulator ensures IsDue(setup, v.store, e) {
        if step.Advance? && step.k < |w.procs| {
          var (p, f) := Progress(setup, w, step.k, step.entryId, step.createdAt, step.ok);
          CallAddsEntry(setup, w, step.k, step.entryId, step.createdAt, step.ok);
          ApplyGrows(w.(procs := w.procs[step.k := p]), f);
          if e !in w.store.accumulator { InsertIsDue(setup, w, step.k, step.entryId, step.createdAt, step.ok); }
        }
        assert IsDue(setup, w.store, e);
      }
    }
  }

  /** So nothing is ever buffered for an action that is executed at once. */
  lemma ImmediateIsNotBuffered(setup: Setup, steps: seq<Step>, q: Pair)
    requires Immediate(setup, q.1)
    ensures !WasBuffered(setup, steps, q)
  {
    if WasBuffered(setup, steps, q) {
      var n :| 0 <= n <= |steps| && Holds(Run(setup, steps[..n]).store, q);
      var s := Run(setup, steps[..n]).store;
      var e :| e in s.accumulator && e.eventId == q.0 && e.actionId == q.1;
      EntriesAreDue(setup, steps[..n]);
      var ev, a :| ev in s.events && ev.id == e.eventId
        && a in ActionsFor(setup, ev) && a.id == e.actionId && a.accumulator != None;
      DueActionIsGiven(setup, setup.subscriptions, ev, a);
    }
  }

  // ---- what follows on an insert ------------------------------------------------------------

  /**
   After its insert a worker claims a batch exactly if the action has a positive threshold that its
   entries, claimed or not, have reached; otherwise it has a flush scheduled if there is an interval.
   */
  lemma FlushOrSchedule(setup: Setup, w: World, k: nat, entryId: nat, createdAt: int, ok: bool)
    requires DistinctIds(w.store.accumulator) && k < |w.procs| && Working(w.procs[k])
    requires w.procs[k].phase == Buffered && w.procs[k].todo[0].accumulator != None
    ensures var action := w.procs[k].todo[0];
            var config := action.accumulator.value;
            var reached := 0 < config.threshold <= |set e | e in w.store.accumulator && e.actionId == action.id|;
            var v := Next(setup, w, Advance(k, entryId, createdAt, ok));
      && k < |v.procs| && v.procs[k] == w.procs[k].(phase := if reached then Claiming else Recording)
      && v.procs == w.procs[k := v.procs[k]] + (if !reached && config.flushInterval > 0 then [FlushDue(action.id)] else [])
      && v == w.(procs := v.procs)
  {
    PendingIsAll(w.store.accumulator, w.procs[k].todo[0].id);
  }
}
