/**
 One dispatch worker run on its own: the loops of `_poll_and_process`, `_buffer_or_flush` and
 `_flush_action` over the in-memory backend, with action executions as oracles. The same
 calls interleaved with other processes and crashes are the subject of `DispatchProtocol`.
 */
module DispatchWorker {
  import opened Wrappers
  import opened MemoryBackend
  import opened DispatchProtocol
  import opened AccumulatorThreshold

  function PairsOf(eventId: nat, actions: seq<Action>): set<Pair> {
    set a | a in actions :: (eventId, a.id)
  }

  /** The immediate executions for one event, given the completion records at its start. */
  function Executions(done: set<Pair>, eventId: nat, actions: seq<Action>): seq<Pair>
    decreases |actions|
  {
    if actions == [] then []
    else
      var pair := (eventId, actions[0].id);
      if pair in done then Executions(done, eventId, actions[1..])
      else (if actions[0].accumulator.None? then [pair] else [])
           + Executions(done + {pair}, eventId, actions[1..])
  }

  function BatchPairs(setup: Setup, batch: seq<Event>): set<Pair> {
    if batch == [] then {}
    else BatchPairs(setup, batch[..|batch| - 1])
         + PairsOf(batch[|batch| - 1].id, ActionsFor(setup, batch[|batch| - 1]))
  }

  function BatchExecutions(setup: Setup, done: set<Pair>, batch: seq<Event>): seq<Pair> {
    if batch == [] then []
    else
      var front, last := batch[..|batch| - 1], batch[|batch| - 1];
      BatchExecutions(setup, done, front)
      + Executions(done + BatchPairs(setup, front), last.id, ActionsFor(setup, last))
  }

  lemma {:induction false} ExecutionsConcat(done: set<Pair>, id: nat, a: seq<Action>, b: seq<Action>)
    ensures Executions(done, id, a + b)
         == Executions(done, id, a) + Executions(done + PairsOf(id, a), id, b)
    decreases |a|
  {
    if a == [] {
      assert a + b == b && done + PairsOf(id, a) == done;
    } else {
      var pair := (id, a[0].id);
      assert (a + b)[1..] == a[1..] + b;
      assert PairsOf(id, a) == {pair} + PairsOf(id, a[1..]) by {
        assert forall x :: x in a <==> x == a[0] || x in a[1..];
      }
      var next := if pair in done then done else done + {pair};
      ExecutionsConcat(next, id, a[1..], b);
      assert next + PairsOf(id, a[1..]) == done + PairsOf(id, a);
    }
  }

  /** The records and executions of further actions follow on those of the actions before. */
  lemma MoreActions(done: set<Pair>, before: seq<Pair>, id: nat, seen: seq<Action>, more: seq<Action>)
    ensures done + PairsOf(id, seen) + PairsOf(id, more) == done + PairsOf(id, seen + more)
    ensures before + Executions(done, id, seen) + Executions(done + PairsOf(id, seen), id, more)
         == before + Executions(done, id, seen + more)
  {
    PairsOfConcat(id, seen, more);
    ExecutionsConcat(done, id, seen, more);
    var a, b := Executions(done, id, seen), Executions(done + PairsOf(id, seen), id, more);
    assert before + a + b == before + (a + b);
  }

  /** No pair is executed that already has a record, and none twice. */
  lemma {:induction false} ExecutionsAreNew(done: set<Pair>, id: nat, actions: seq<Action>)
    ensures NoDup(Executions(done, id, actions))
    ensures forall pair :: pair in Executions(done, id, actions) ==> pair !in done && pair in PairsOf(id, actions)
    decreases |actions|
  {
    if actions != [] {
      var pair := (id, actions[0].id);
      ExecutionsAreNew(if pair in done then done else done + {pair}, id, actions[1..]);
      assert forall x :: x in actions[1..] ==> x in actions;
    }
  }

  /** Every immediate action without a record is executed; of actions with one id the first counts. */
  lemma {:induction false} ExecutionsAreAll(done: set<Pair>, id: nat, actions: seq<Action>, k: nat)
    requires FirstOfId(actions, k) && actions[k].accumulator.None? && (id, actions[k].id) !in done
    ensures (id, actions[k].id) in Executions(done, id, actions)
    decreases |actions|
  {
    if k > 0 {
      var pair := (id, actions[0].id);
      assert forall j :: 0 <= j < k - 1 ==> actions[1..][j] == actions[j + 1];
      ExecutionsAreAll(if pair in done then done else done + {pair}, id, actions[1..], k - 1);
    }
  }

  lemma {:induction false} ActionsOfSnoc(setup: Setup, subs: seq<Subscription>, sub: Subscription, ev: Event)
    ensures ActionsOf(setup, subs + [sub], ev)
         == ActionsOf(setup, subs, ev) + (if Matches(setup, ev, sub.filter) then sub.actions else [])
  {
    if subs == [] {
      assert subs + [sub] == [sub] && [sub][1..] == [];
      assert ActionsOf(setup, [], ev) == [];
    } else {
      assert (subs + [sub])[1..] == subs[1..] + [sub];
      ActionsOfSnoc(setup, subs[1..], sub, ev);
    }
  }

  // ---- what has been performed ------------------------------------------------------------

  datatype Trail = Trail(executions: seq<Pair>, flushes: seq<seq<Entry>>, entries: seq<Entry>)

  ghost predicate IsFor(entries: seq<Entry>, actionId: nat, eventId: nat) {
    exists e :: e in entries && e.actionId == actionId && e.eventId == eventId
  }

  ghost predicate InBatch(flushes: seq<seq<Entry>>, flushed: nat, e: Entry) {
    exists k :: flushed <= k < |flushes| && e in flushes[k]
  }

  /** An entry for the action and event waits in the accumulator or is in a batch flushed since `u`. */
  ghost predicate Kept(u: Trail, v: Trail, actionId: nat, eventId: nat) {
    || IsFor(v.entries, actionId, eventId)
    || exists k :: |u.flushes| <= k < |v.flushes| && IsFor(v.flushes[k], actionId, eventId)
  }

  /** Histories only grow, and what leaves the accumulator is in a batch flushed meanwhile. */
  ghost predicate Extends(u: Trail, v: Trail) {
    && u.executions <= v.executions && u.flushes <= v.flushes
    && forall e :: e in u.entries ==> e in v.entries || InBatch(v.flushes, |u.flushes|, e)
  }

  /** Between the two trails the action was executed for the event, or an entry for it was buffered. */
  ghost predicate Performed(u: Trail, v: Trail, eventId: nat, a: Action) {
    if a.accumulator.None? then u.executions <= v.executions && (eventId, a.id) in v.executions[|u.executions|..]
    else Kept(u, v, a.id, eventId)
  }

  /** The first of the actions with its id: a later one finds the record of an earlier one. */
  predicate FirstOfId(actions: seq<Action>, k: nat) {
    k < |actions| && forall j :: 0 <= j < k ==> actions[j].id != actions[k].id
  }

  /** Every action without a record has been performed since; of one id the first counts. */
  ghost predicate AllPerformed(u: Trail, v: Trail, done: set<Pair>, eventId: nat, actions: seq<Action>) {
    forall k :: 0 <= k < |actions| && FirstOfId(actions, k) ==>
      (eventId, actions[k].id) in done || Performed(u, v, eventId, actions[k])
  }

  lemma ExtendsOn(u: Trail, v: Trail, w: Trail)
    requires Extends(u, v) && Extends(v, w)
    ensures Extends(u, w)
  {
    forall e | e in u.entries && e !in w.entries ensures InBatch(w.flushes, |u.flushes|, e) {
      if e !in v.entries {
        var k :| |u.flushes| <= k < |v.flushes| && e in v.flushes[k];
        assert e in w.flushes[k];
      }
    }
  }

  /** What has been performed stays performed. */
  lemma PerformedStays(u: Trail, v: Trail, w: Trail, eventId: nat, a: Action)
    requires Performed(u, v, eventId, a) && Extends(u, v) && Extends(v, w)
    ensures Performed(u, w, eventId, a)
  {
    if a.accumulator.None? {
      assert w.executions[|u.executions|..][..|v.executions| - |u.executions|] == v.executions[|u.executions|..];
    } else if IsFor(v.entries, a.id, eventId) {
      var e :| e in v.entries && e.actionId == a.id && e.eventId == eventId;
      if e !in w.entries {
        var k :| |v.flushes| <= k < |w.flushes| && e in w.flushes[k];
        assert IsFor(w.flushes[k], a.id, eventId);
      }
    } else {
      var k :| |u.flushes| <= k < |v.flushes| && IsFor(v.flushes[k], a.id, eventId);
      assert IsFor(w.flushes[k], a.id, eventId);
    }
  }

  lemma PerformedSooner(u: Trail, v: Trail, w: Trail, eventId: nat, a: Action)
    requires Performed(v, w, eventId, a) && Extends(u, v) && Extends(v, w)
    ensures Performed(u, w, eventId, a)
  {
    if a.accumulator.None? {
      assert w.executions[|u.executions|..][|v.executions| - |u.executions|..] == w.executions[|v.executions|..];
    }
  }

  lemma MorePerformed(u: Trail, v: Trail, w: Trail, done: set<Pair>, eventId: nat, front: seq<Action>, more: seq<Action>)
    requires AllPerformed(u, v, done, eventId, front) && Extends(u, v) && Extends(v, w)
    requires AllPerformed(v, w, done + PairsOf(eventId, front), eventId, more)
    ensures AllPerformed(u, w, done, eventId, front + more)
  {
    var actions := front + more;
    forall k | 0 <= k < |actions| && FirstOfId(actions, k)
      ensures (eventId, actions[k].id) in done || Performed(u, w, eventId, actions[k])
    {
      if k < |front| {
        assert forall j :: 0 <= j <= k ==> front[j] == actions[j];
        assert FirstOfId(front, k);
        if (eventId, actions[k].id) !in done { PerformedStays(u, v, w, eventId, actions[k]); }
      } else {
        FirstInMore(front, more, k);
        if (eventId, actions[k].id) !in done { PerformedSooner(u, v, w, eventId, actions[k]); }
      }
    }
  }

  /** The given actions are recorded for the event, and what that took has been performed. */
  ghost predicate ActionsProcessed(eventId: nat, actions: seq<Action>, done: set<Pair>, completions: set<Pair>,
                                   u: Trail, v: Trail) {
    && completions == done + PairsOf(eventId, actions)
    && v.executions == u.executions + Executions(done, eventId, actions)
    && Extends(u, v) && AllPerformed(u, v, done, eventId, actions)
  }

  lemma NoActionsProcessed(eventId: nat, done: set<Pair>, u: Trail)
    ensures ActionsProcessed(eventId, [], done, done, u, u)
  {
    assert PairsOf(eventId, []) == {} && u.executions + [] == u.executions;
  }

  lemma MoreActionsProcessed(eventId: nat, front: seq<Action>, more: seq<Action>, done: set<Pair>, recorded: set<Pair>,
                             completions: set<Pair>, u: Trail, v: Trail, w: Trail)
    requires ActionsProcessed(eventId, front, done, recorded, u, v)
    requires ActionsProcessed(eventId, more, recorded, completions, v, w)
    ensures ActionsProcessed(eventId, front + more, done, completions, u, w)
  {
    MoreActions(done, u.executions, eventId, front, more);
    MorePerformed(u, v, w, done, eventId, front, more);
    ExtendsOn(u, v, w);
  }

  predicate FirstEvent(batch: seq<Event>, q: nat) {
    q < |batch| && forall p :: 0 <= p < q ==> batch[p].id != batch[q].id
  }

  /** The first `n` events of a batch have been performed; of events with one id the first counts. */
  ghost predicate BatchPerformed(setup: Setup, u: Trail, v: Trail, done: set<Pair>, batch: seq<Event>, n: nat) {
    forall q :: 0 <= q < n && FirstEvent(batch, q) ==>
      AllPerformed(u, v, done, batch[q].id, ActionsFor(setup, batch[q]))
  }

  lemma {:induction false} BatchPairsOfEvents(setup: Setup, batch: seq<Event>, pair: Pair)
    requires pair in BatchPairs(setup, batch)
    ensures exists p :: 0 <= p < |batch| && batch[p].id == pair.0
  {
    var front, last := batch[..|batch| - 1], batch[|batch| - 1];
    if pair in BatchPairs(setup, front) {
      BatchPairsOfEvents(setup, front, pair);
      var p :| 0 <= p < |front| && front[p].id == pair.0;
      assert batch[p].id == pair.0;
    }
  }

  lemma AllPerformedStays(u: Trail, v: Trail, w: Trail, done: set<Pair>, eventId: nat, actions: seq<Action>)
    requires AllPerformed(u, v, done, eventId, actions) && Extends(u, v) && Extends(v, w)
    ensures AllPerformed(u, w, done, eventId, actions)
  {
    forall k | 0 <= k < |actions| && FirstOfId(actions, k) && (eventId, actions[k].id) !in done
      ensures Performed(u, w, eventId, actions[k])
    {
      PerformedStays(u, v, w, eventId, actions[k]);
    }
  }

  lemma NextPerformed(setup: Setup, u: Trail, v: Trail, w: Trail, done: set<Pair>, batch: seq<Event>, n: nat)
    requires n < |batch| && BatchPerformed(setup, u, v, done, batch, n) && Extends(u, v) && Extends(v, w)
    requires AllPerformed(v, w, done + BatchPairs(setup, batch[..n]), batch[n].id, ActionsFor(setup, batch[n]))
    ensures BatchPerformed(setup, u, w, done, batch, n + 1)
  {
    forall q | 0 <= q < n + 1 && FirstEvent(batch, q)
      ensures AllPerformed(u, w, done, batch[q].id, ActionsFor(setup, batch[q]))
    {
      if q < n {
        AllPerformedStays(u, v, w, done, batch[q].id, ActionsFor(setup, batch[q]));
      } else {
        LastPerformed(setup, u, v, w, done, batch[..n], batch[n]);
      }
    }
  }

  lemma LastPerformed(setup: Setup, u: Trail, v: Trail, w: Trail, done: set<Pair>, front: seq<Event>, ev: Event)
    requires Extends(u, v) && Extends(v, w) && forall p :: 0 <= p < |front| ==> front[p].id != ev.id
    requires AllPerformed(v, w, done + BatchPairs(setup, front), ev.id, ActionsFor(setup, ev))
    ensures AllPerformed(u, w, done, ev.id, ActionsFor(setup, ev))
  {
    var actions := ActionsFor(setup, ev);
    forall k | 0 <= k < |actions| && FirstOfId(actions, k) && (ev.id, actions[k].id) !in done
      ensures Performed(u, w, ev.id, actions[k])
    {
      if (ev.id, actions[k].id) in BatchPairs(setup, front) {
        BatchPairsOfEvents(setup, front, (ev.id, actions[k].id));
      }
      PerformedSooner(u, v, w, ev.id, actions[k]);
    }
  }

  /** The first `n` events of a batch are recorded, and what that took has been performed. */
  ghost predicate BatchProcessed(setup: Setup, batch: seq<Event>, n: nat, done: set<Pair>, completions: set<Pair>,
                                 u: Trail, v: Trail)
    requires n <= |batch|
  {
    && completions == done + BatchPairs(setup, batch[..n])
    && v.executions == u.executions + BatchExecutions(setup, done, batch[..n])
    && Extends(u, v) && BatchPerformed(setup, u, v, done, batch, n)
  }

  lemma NextProcessed(setup: Setup, batch: seq<Event>, n: nat, done: set<Pair>, recorded: set<Pair>,
                      completions: set<Pair>, u: Trail, v: Trail, w: Trail)
    requires n < |batch| && BatchProcessed(setup, batch, n, done, recorded, u, v)
    requires ActionsProcessed(batch[n].id, ActionsFor(setup, batch[n]), recorded, completions, v, w)
    ensures BatchProcessed(setup, batch, n + 1, done, completions, u, w)
  {
    NextInBatch(setup, done, u.executions, batch, n);
    NextPerformed(setup, u, v, w, done, batch, n);
    ExtendsOn(u, v, w);
  }

  lemma FirstInMore(front: seq<Action>, more: seq<Action>, k: nat)
    requires |front| <= k && FirstOfId(front + more, k)
    ensures FirstOfId(more, k - |front|) && forall a :: a in front ==> a.id != more[k - |front|].id
  {
    forall j | 0 <= j < k - |front| ensures more[j].id != more[k - |front|].id {
      assert (front + more)[j + |front|] == more[j];
    }
    forall a | a in front ensures a.id != more[k - |front|].id {
      var j :| 0 <= j < |front| && front[j] == a;
      assert (front + more)[j] == a;
    }
  }

  class DispatchWorker {
    const backend: InMemoryBackend
    const setup: Setup
    const cursorName: string
    const batchSize: nat
    var stopRequested: bool
    var executions: seq<Pair>        // calls of the action executor for single events
    var flushes: seq<seq<Entry>>     // calls of the action executor for claimed batches
    var scheduled: seq<nat>          // actions with a deferred flush handed to the scheduler
    ghost const configs: nat -> AccumulatorConfig  // the accumulator configuration of each action
    ghost var failures: nat          // flushes whose execution raised

    /** As long as no flush fails every action stays below its threshold. */
    twostate predicate KeepsBelow()
      reads this, backend
    {
      && failures >= old(failures)
      && (AgreeAll() && old(Below()) && failures == old(failures) ==> Below())
    }

    constructor (backend: InMemoryBackend, setup: Setup, cursorName: string, batchSize: nat,
                 ghost configs: nat -> AccumulatorConfig)
      ensures this.backend == backend && this.setup == setup && this.configs == configs
      ensures this.cursorName == cursorName && this.batchSize == batchSize
      ensures !stopRequested && executions == [] && flushes == [] && scheduled == [] && failures == 0
    {
      this.backend, this.setup, this.cursorName, this.batchSize := backend, setup, cursorName, batchSize;
      stopRequested, executions, flushes, scheduled := false, [], [], [];
      this.configs, failures := configs, 0;
    }

    /** The actions of each id are configured as `configs` says. */
    ghost predicate Agree(actions: seq<Action>) {
      forall a :: a in actions && a.accumulator.Some? ==> configs(a.id) == a.accumulator.value
    }

    ghost predicate AgreeAll() {
      forall i :: 0 <= i < |setup.subscriptions| ==> Agree(setup.subscriptions[i].actions)
    }

    /** Nothing is left claimed and every action is below its positive threshold. */
    ghost predicate Below()
      reads this, backend
    {
      AllBelow(configs, backend.accumulator, backend.claimed)
    }

    /** What the worker has done so far and what still waits in the accumulator. */
    ghost function SoFar(): Trail
      reads this, backend
    {
      Trail(executions, flushes, backend.accumulator)
    }

    /** Runs the action; an exception is logged and swallowed. */
    method ExecuteActionImmediate(action: Action, eventId: nat)
      modifies this`executions
      ensures executions == old(executions) + [(eventId, action.id)]
    {
      executions := executions + [(eventId, action.id)];
    }

    /** Claims a batch, executes it, and confirms it unless the execution raised. */
    method FlushAction(action: Action) returns (raised: bool)
      modifies this`flushes, this`failures, backend
      ensures failures == old(failures) + if raised then 1 else 0
      ensures !raised ==> backend.Model() == AfterFlush(old(backend.Model()), action.id)
      ensures old(Below()) && !raised ==> Below()
      ensures var batch := Claimable(old(backend.Model()), action.id, CLAIM_LIMIT);
        && (batch == [] ==> backend.Model() == old(backend.Model()) && flushes == old(flushes) && !raised)
        && (batch != [] ==>
              && flushes == old(flushes) + [batch]
              && backend.Model() == (if raised then Claim(old(backend.Model()), batch)
                                     else Confirm(Claim(old(backend.Model()), batch), Ids(batch))))
      ensures old(DistinctIds(backend.accumulator)) ==> Extends(old(SoFar()), SoFar())
    {
      raised := false;
      var batch := backend.ClaimBatch(action.id, CLAIM_LIMIT);
      ghost var before := old(backend.Model());
      if AllBelow(configs, before.accumulator, before.claimed) { FlushKeepsBelow(configs, before, action.id); }
      if batch == [] {
        EmptyFlush(before, action.id);
        assert Ids(batch) == {};
        return;
      }
      ghost var claimed := backend.Model();
      flushes := flushes + [batch];
      raised := *;
      assert backend.Model() == claimed;
      if raised {
        failures := failures + 1;
        return;
      }
      var ids: seq<nat> := seq(|batch|, i requires 0 <= i < |batch| => batch[i].id);
      assert Elements(ids) == Ids(batch) by {
        forall e | e in batch ensures e.id in ids { assert ids[Position(batch, e)] == e.id; }
      }
      backend.ConfirmBatch(ids);
      if DistinctIds(before.accumulator) { FlushedLeave(before, action.id); }
      assert flushes[|old(flushes)|] == batch;
    }

    /**
     Buffers the event and flushes inline when the threshold is reached. If all actions were
     below their thresholds and the flush does not fail, all are below their thresholds again.
     */
    method BufferOrFlush(action: Action, config: AccumulatorConfig, eventId: nat, entryId: nat, now: int)
      returns (raised: bool)
      requires entryId !in Ids(backend.accumulator) && DistinctIds(backend.accumulator)
      modifies this`flushes, this`failures, this`scheduled, backend
      ensures failures == old(failures) + if raised then 1 else 0
      ensures !raised ==>
        backend.Model() == AfterBuffer(old(backend.Model()), config, Entry(entryId, action.id, eventId, now))
      ensures backend.completions == old(backend.completions) && backend.cursors == old(backend.cursors)
      ensures backend.events == old(backend.events)
      ensures DistinctIds(backend.accumulator)
      ensures config == configs(action.id) && old(Below()) && !raised ==> Below()
      ensures Extends(old(SoFar()), SoFar())
      ensures Kept(old(SoFar()), SoFar(), action.id, eventId)
      ensures !(0 < config.threshold <= PendingCount(old(backend.Model()), action.id) + 1) ==>
        && backend.accumulator == old(backend.accumulator) + [Entry(entryId, action.id, eventId, now)]
        && backend.claimed == old(backend.claimed) && flushes == old(flushes) && !raised
        && scheduled == old(scheduled) + (if config.flushInterval > 0 then [action.id] else [])
      ensures 0 < config.threshold <= PendingCount(old(backend.Model()), action.id) + 1 ==>
        var entry := Entry(entryId, action.id, eventId, now);
        var batch := Claimable(old(backend.Model()).(accumulator := old(backend.accumulator) + [entry]), action.id, CLAIM_LIMIT);
        scheduled == old(scheduled) && flushes == old(flushes) + if batch == [] then [] else [batch]
    {
      raised := false;
      var entry := Entry(entryId, action.id, eventId, now);
      if config == configs(action.id) && Below() { BufferKeepsBelow(configs, backend.Model(), entry); }
      BufferRaisesPending(backend.accumulator, entry);
      PutFresh(backend.accumulator, entry);
      BufferedDistinct(backend.accumulator, entry);
      assert entry in backend.accumulator + [entry];
      var _ := backend.BufferEvent(entry);
      var pending := backend.CountPending(action.id);
      if config.threshold > 0 && pending >= config.threshold {
        ghost var before := backend.Model();
        raised := FlushAction(action);
        WithoutMembers(before.accumulator, Ids(Claimable(before, action.id, CLAIM_LIMIT)));
      } else if config.flushInterval > 0 {
        scheduled := scheduled + [action.id];
      }
    }

    /** Performs and records one action for the event, unless it has a record. */
    method ProcessAction(ev: Event, action: Action)
      requires DistinctIds(backend.accumulator)
      modifies this`executions, this`flushes, this`failures, this`scheduled, backend
      ensures DistinctIds(backend.accumulator)
      ensures backend.events == old(backend.events) && backend.cursors == old(backend.cursors)
      ensures failures >= old(failures)
      ensures Agree([action]) && old(Below()) && failures == old(failures) ==> Below()
      ensures ActionsProcessed(ev.id, [action], old(backend.completions), backend.completions, old(SoFar()), SoFar())
    {
      assert [action][1..] == [] && action in [action] && PairsOf(ev.id, [action]) == {(ev.id, action.id)};
      var completed := backend.IsActionCompleted(ev.id, action.id);
      if !completed {
        if action.accumulator.Some? {
          var now := *;
          var _ := BufferOrFlush(action, action.accumulator.value, ev.id, FreshId(backend.accumulator), now);
        } else {
          ExecuteActionImmediate(action, ev.id);
        }
        backend.RecordCompletion(ev.id, action.id);
      }
    }

    /** Performs and records the given actions for one event, skipping those with a record. */
    method ProcessActions(ev: Event, actions: seq<Action>)
      requires DistinctIds(backend.accumulator)
      modifies this`executions, this`flushes, this`failures, this`scheduled, backend
      ensures DistinctIds(backend.accumulator)
      ensures backend.events == old(backend.events) && backend.cursors == old(backend.cursors)
      ensures failures >= old(failures)
      ensures Agree(actions) && old(Below()) && failures == old(failures) ==> Below()
      ensures ActionsProcessed(ev.id, actions, old(backend.completions), backend.completions, old(SoFar()), SoFar())
    {
      ghost var done, start := backend.completions, SoFar();
      NoActionsProcessed(ev.id, done, start);
      for k := 0 to |actions|
        invariant DistinctIds(backend.accumulator)
        invariant backend.events == old(backend.events) && backend.cursors == old(backend.cursors)
        invariant failures >= old(failures)
        invariant Agree(actions) && old(Below()) && failures == old(failures) ==> Below()
        invariant ActionsProcessed(ev.id, actions[..k], done, backend.completions, start, SoFar())
      {
        ghost var recorded, earlier := backend.completions, SoFar();
        ProcessAction(ev, actions[k]);
        MoreActionsProcessed(ev.id, actions[..k], [actions[k]], done, recorded, backend.completions,
                             start, earlier, SoFar());
        assert actions[..k + 1] == actions[..k] + [actions[k]];
      }
      assert actions[..|actions|] == actions;
    }

    /** Matches the event against every subscription and processes the actions of those that match. */
    method ProcessEvent(ev: Event)
      requires DistinctIds(backend.accumulator)
      modifies this`executions, this`flushes, this`failures, this`scheduled, backend
      ensures DistinctIds(backend.accumulator)
      ensures backend.events == old(backend.events) && backend.cursors == old(backend.cursors)
      ensures KeepsBelow()
      ensures ActionsProcessed(ev.id, ActionsFor(setup, ev), old(backend.completions), backend.completions,
                               old(SoFar()), SoFar())
    {
      var subs := setup.subscriptions;
      ghost var done, start := backend.completions, SoFar();
      NoActionsProcessed(ev.id, done, start);
      for k := 0 to |subs|
        invariant DistinctIds(backend.accumulator)
        invariant backend.events == old(backend.events) && backend.cursors == old(backend.cursors)
        invariant KeepsBelow()
        invariant ActionsProcessed(ev.id, ActionsOf(setup, subs[..k], ev), done, backend.completions, start, SoFar())
      {
        ghost var seen := ActionsOf(setup, subs[..k], ev);
        assert subs[..k + 1] == subs[..k] + [subs[k]];
        ActionsOfSnoc(setup, subs[..k], subs[k], ev);
        if Matches(setup, ev, subs[k].filter) {
          ghost var recorded, earlier := backend.completions, SoFar();
          ProcessActions(ev, subs[k].actions);
          MoreActionsProcessed(ev.id, seen, subs[k].actions, done, recorded, backend.completions,
                               start, earlier, SoFar());
        } else {
          assert seen + [] == seen;
        }
      }
      assert subs[..|subs|] == subs;
    }

    /**
     Processes one batch from the cursor on, up to a stop request. Afterwards the processed
     events have all their records, each missing one because its action was executed or its event
     buffered meanwhile, and the cursor stands at the last of them; a cursor with everything done behind it stays such a cursor.
     */
    method PollAndProcess() returns (processed: nat)
      requires DistinctIds(backend.accumulator)
      modifies this, backend
      ensures var batch := PollSince(old(backend.events), CursorOf(old(backend.Model()), cursorName), batchSize);
        && processed <= |batch| && (processed < |batch| ==> stopRequested)
        && backend.events == old(backend.events)
        && backend.completions == old(backend.completions) + BatchPairs(setup, batch[..processed])
        && executions == old(executions) + BatchExecutions(setup, old(backend.completions), batch[..processed])
        && backend.cursors == CursorsAfter(old(backend.cursors), cursorName, batch, processed)
      ensures Extends(old(SoFar()), SoFar())
      ensures BatchPerformed(setup, old(SoFar()), SoFar(), old(backend.completions),
        PollSince(old(backend.events), CursorOf(old(backend.Model()), cursorName), batchSize), processed)
      ensures KeepsBelow()
      ensures CaughtUp(setup, old(backend.Model()), cursorName) ==> CaughtUp(setup, backend.Model(), cursorName)
    {
      ghost var before := backend.Model();
      var cursorPos := backend.GetCursorPosition(cursorName);
      var events := backend.PollEventsSince(cursorPos, batchSize);
      processed := ProcessBatch(events);
      if processed > 0 && CaughtUp(setup, before, cursorName) {
        BatchIsCaughtUp(setup, before, backend.Model(), cursorName, batchSize, processed);
      }
    }

    /** The first `n` events are recorded and executed, and the cursor stands at the last of them. */
    ghost predicate Processed(batch: seq<Event>, n: nat, done: set<Pair>, start: Trail, cursors: map<string, nat>)
      requires n <= |batch|
      reads this, backend
    {
      && DistinctIds(backend.accumulator)
      && BatchProcessed(setup, batch, n, done, backend.completions, start, SoFar())
      && backend.cursors == CursorsAfter(cursors, cursorName, batch, n)
    }

    lemma NothingProcessed(batch: seq<Event>)
      requires DistinctIds(backend.accumulator)
      ensures Processed(batch, 0, backend.completions, SoFar(), backend.cursors)
    {
    }

    /** Processes the next event of the batch and moves the cursor to it. */
    method FinishEvent(batch: seq<Event>, n: nat,
                       ghost done: set<Pair>, ghost start: Trail, ghost cursors: map<string, nat>)
      requires n < |batch| && Processed(batch, n, done, start, cursors)
      modifies this`executions, this`flushes, this`failures, this`scheduled, backend
      ensures Processed(batch, n + 1, done, start, cursors) && backend.events == old(backend.events)
      ensures KeepsBelow()
    {
      ghost var earlier, recorded := SoFar(), backend.completions;
      ProcessEvent(batch[n]);
      NextProcessed(setup, batch, n, done, recorded, backend.completions, start, earlier, SoFar());
      backend.AdvanceCursor(cursorName, batch[n].id);
    }

    /** Processes the events in order, each followed by moving the cursor, up to a stop request. */
    method ProcessBatch(events: seq<Event>) returns (processed: nat)
      requires DistinctIds(backend.accumulator)
      modifies this`stopRequested, this`executions, this`flushes, this`failures, this`scheduled, backend
      ensures processed <= |events| && (processed < |events| ==> stopRequested)
      ensures Processed(events, processed, old(backend.completions), old(SoFar()), old(backend.cursors))
      ensures KeepsBelow() && backend.events == old(backend.events)
    {
      ghost var done, start, cursors := backend.completions, SoFar(), backend.cursors;
      processed := 0;
      NothingProcessed(events);
      while processed < |events|
        invariant processed <= |events| && Processed(events, processed, done, start, cursors)
        invariant KeepsBelow() && backend.events == old(backend.events)
      {
        var requested := *;
        stopRequested := stopRequested || requested;
        if stopRequested {
          break;
        }
        FinishEvent(events, processed, done, start, cursors);
        processed := processed + 1;
      }
    }
  }

  lemma FlushedLeave(s: Store, action: nat)
    requires DistinctIds(s.accumulator)
    ensures var batch := Claimable(s, action, CLAIM_LIMIT);
      forall e :: e in s.accumulator ==> e in Without(s.accumulator, Ids(batch)) || e in batch
  {
    var batch := Claimable(s, action, CLAIM_LIMIT);
    ClaimTakesOldest(s, action, CLAIM_LIMIT);
    WithoutMembers(s.accumulator, Ids(batch));
    forall e | e in s.accumulator && e.id in Ids(batch) ensures e in batch {
      var x :| x in batch && x.id == e.id;
      assert s.accumulator[Position(s.accumulator, x)] == s.accumulator[Position(s.accumulator, e)];
    }
  }

  lemma NextInBatch(setup: Setup, done: set<Pair>, earlier: seq<Pair>, events: seq<Event>, n: nat)
    requires n < |events|
    ensures var front, ev := events[..n], events[n];
            && done + BatchPairs(setup, events[..n + 1])
               == done + BatchPairs(setup, front) + PairsOf(ev.id, ActionsFor(setup, ev))
            && earlier + BatchExecutions(setup, done, events[..n + 1])
               == earlier + BatchExecutions(setup, done, front)
                  + Executions(done + BatchPairs(setup, front), ev.id, ActionsFor(setup, ev))
  {
    assert events[..n + 1][..n] == events[..n];
  }

  function CursorsAfter(cursors: map<string, nat>, name: string, batch: seq<Event>, n: nat): map<string, nat>
    requires n <= |batch|
  {
    if n == 0 then cursors else cursors[name := batch[n - 1].id]
  }

  /** The cursor, if stored, names an event before which nothing is left undone. */
  ghost predicate CaughtUp(setup: Setup, s: Store, name: string) {
    DistinctEvents(s.events) && (name in s.cursors ==> DoneThrough(setup, s, s.cursors[name]))
  }

  lemma {:induction false} BatchPairsCover(setup: Setup, batch: seq<Event>, i: nat)
    requires i < |batch|
    ensures PairsOf(batch[i].id, ActionsFor(setup, batch[i])) <= BatchPairs(setup, batch)
  {
    if i < |batch| - 1 { BatchPairsCover(setup, batch[..|batch| - 1], i); }
  }

  lemma BatchIsCaughtUp(setup: Setup, s: Store, t: Store, name: string, limit: nat, n: nat)
    requires CaughtUp(setup, s, name) && t.events == s.events
    requires var batch := PollSince(s.events, CursorOf(s, name), limit);
             && 0 < n <= |batch| && name in t.cursors && t.cursors[name] == batch[n - 1].id
             && t.completions == s.completions + BatchPairs(setup, batch[..n])
    ensures CaughtUp(setup, t, name)
  {
    var batch := PollSince(s.events, CursorOf(s, name), limit);
    PolledStretch(setup, s, CursorOf(s, name), limit);
    var start := IndexOfEvent(s.events, batch[0].id);
    StretchDone(setup, s, t, batch, start, n);
    StretchIndex(s.events, batch, start, n - 1);
  }

  lemma StretchDone(setup: Setup, s: Store, t: Store, batch: seq<Event>, start: nat, n: nat)
    requires Stretch(s.events, batch, start) && DoneBefore(setup, s, start) && n <= |batch|
    requires t.events == s.events && t.completions == s.completions + BatchPairs(setup, batch[..n])
    ensures DoneBefore(setup, t, start + n)
  {
    forall q | 0 <= q < start + n ensures EventDone(setup, t, t.events[q]) {
      if q >= start {
        assert t.events[q] == batch[..n][q - start];
        BatchPairsCover(setup, batch[..n], q - start);
        PairsDone(setup, t, t.events[q]);
      } else {
        assert EventDone(setup, s, s.events[q]);
      }
    }
  }

  lemma PairsDone(setup: Setup, s: Store, ev: Event)
    requires PairsOf(ev.id, ActionsFor(setup, ev)) <= s.completions
    ensures EventDone(setup, s, ev)
  {
    forall a | a in ActionsFor(setup, ev) ensures (ev.id, a.id) in s.completions {
      assert (ev.id, a.id) in PairsOf(ev.id, ActionsFor(setup, ev));
    }
  }

  lemma PairsOfConcat(id: nat, a: seq<Action>, b: seq<Action>)
    ensures PairsOf(id, a + b) == PairsOf(id, a) + PairsOf(id, b)
  {
    assert forall x :: x in a + b <==> x in a || x in b;
  }

  /** An entry id in use nowhere in the accumulator, as a new UUID would be. */
  function FreshId(entries: seq<Entry>): (id: nat)
    ensures id !in Ids(entries) && forall e :: e in entries ==> e.id < id
  {
    if entries == [] then 0
    else
      var rest := FreshId(entries[1..]);
      assert forall e :: e in entries <==> e == entries[0] || e in entries[1..];
      if entries[0].id >= rest then entries[0].id + 1 else rest
  }
}
