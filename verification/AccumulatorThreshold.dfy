/**
 The accumulator of a worker that runs on its own: an entry is buffered, and the batch of its
 action is flushed when the threshold is reached; timed flushes come at any time. With no
 failing flush every action stays below its threshold.
 */
module AccumulatorThreshold {
  import opened Wrappers
  import opened MemoryBackend
  import opened DispatchProtocol

  /** Taking away an entry of the action lowers its pending count. */
  lemma {:induction false} RemovalLowersPending(entries: seq<Entry>, ids: set<nat>, action: nat, e: Entry)
    requires e in entries && e.actionId == action && e.id in ids
    ensures |OfAction(Without(entries, ids), action, {})| < |OfAction(entries, action, {})|
  {
    RemovalKeepsOrLowers(entries[1..], ids, action);
    if e != entries[0] {
      RemovalLowersPending(entries[1..], ids, action, e);
    }
  }

  lemma {:induction false} RemovalKeepsOrLowers(entries: seq<Entry>, ids: set<nat>, action: nat)
    ensures |OfAction(Without(entries, ids), action, {})| <= |OfAction(entries, action, {})|
  {
    if entries != [] { RemovalKeepsOrLowers(entries[1..], ids, action); }
  }

  lemma {:induction false} BufferRaisesPending(entries: seq<Entry>, e: Entry)
    requires e.id !in Ids(entries)
    ensures |OfAction(Put(entries, e), e.actionId, {})| == |OfAction(entries, e.actionId, {})| + 1
  {
    if entries != [] {
      assert entries[0].id in Ids(entries);
      assert forall x :: x in entries[1..] ==> x in entries;
      BufferRaisesPending(entries[1..], e);
    }
  }

  /** No entry of the action is left claimed from an earlier, failed flush. */
  ghost predicate NothingClaimed(s: Store, action: nat) {
    forall e :: e in s.accumulator && e.actionId == action ==> e.id !in s.claimed
  }

  lemma {:induction false} UnclaimedIsPending(entries: seq<Entry>, action: nat, claimed: set<nat>)
    requires forall e :: e in entries && e.actionId == action ==> e.id !in claimed
    ensures OfAction(entries, action, claimed) == OfAction(entries, action, {})
  {
    if entries != [] {
      assert forall x :: x in entries[1..] ==> x in entries;
      UnclaimedIsPending(entries[1..], action, claimed);
    }
  }

  /** A successful flush of a nonempty, wholly unclaimed buffer makes it smaller. */
  lemma FlushLowersPending(s: Store, action: nat)
    requires DistinctIds(s.accumulator) && NothingClaimed(s, action) && PendingCount(s, action) > 0
    ensures var batch := Claimable(s, action, CLAIM_LIMIT);
            batch != [] && PendingCount(Confirm(Claim(s, batch), Ids(batch)), action) < PendingCount(s, action)
  {
    var batch := Claimable(s, action, CLAIM_LIMIT);
    UnclaimedIsPending(s.accumulator, action, s.claimed);
    ClaimTakesOldest(s, action, CLAIM_LIMIT);
    assert batch[0] in batch;
    RemovalLowersPending(s.accumulator, Ids(batch), action, batch[0]);
  }

  lemma FlushLeavesNothingClaimed(s: Store, action: nat)
    requires DistinctIds(s.accumulator) && NothingClaimed(s, action)
    ensures var batch := Claimable(s, action, CLAIM_LIMIT);
            NothingClaimed(Confirm(Claim(s, batch), Ids(batch)), action)
  {
    WithoutMembers(s.accumulator, Ids(Claimable(s, action, CLAIM_LIMIT)));
  }

  lemma BufferedDistinct(entries: seq<Entry>, e: Entry)
    requires DistinctIds(entries) && e.id !in Ids(entries)
    ensures DistinctIds(entries + [e])
  {
    forall i | 0 <= i < |entries| ensures entries[i].id != e.id { assert entries[i].id in Ids(entries); }
  }

  // ---- one call ---------------------------------------------------------------------------

  /** The store after a flush whose execution succeeds. */
  function AfterFlush(s: Store, action: nat): Store {
    var batch := Claimable(s, action, CLAIM_LIMIT);
    Confirm(Claim(s, batch), Ids(batch))
  }

  /** The store after buffering an entry, with the inline flush that the threshold may ask for. */
  function AfterBuffer(s: Store, config: AccumulatorConfig, entry: Entry): Store {
    var t := s.(accumulator := Put(s.accumulator, entry));
    if 0 < config.threshold <= PendingCount(t, entry.actionId) then AfterFlush(t, entry.actionId) else t
  }

  lemma EmptyFlush(s: Store, action: nat)
    requires Claimable(s, action, CLAIM_LIMIT) == []
    ensures AfterFlush(s, action) == s
  {
    WithoutNone(s.accumulator);
    assert Ids([]) == {};
  }

  // ---- runs -------------------------------------------------------------------------------

  /** Nothing is left claimed, and each action has fewer entries than its positive threshold. */
  ghost predicate AllBelow(configs: nat -> AccumulatorConfig, entries: seq<Entry>, claimed: set<nat>) {
    && claimed == {} && DistinctIds(entries)
    && forall a :: configs(a).threshold > 0 ==> |OfAction(entries, a, {})| < configs(a).threshold
  }

  lemma {:induction false} RemovalKeepsOthers(entries: seq<Entry>, ids: set<nat>, other: nat)
    requires forall e :: e in entries && e.id in ids ==> e.actionId != other
    ensures OfAction(Without(entries, ids), other, {}) == OfAction(entries, other, {})
  {
    if entries != [] {
      assert entries[0] in entries && forall e :: e in entries[1..] ==> e in entries;
      RemovalKeepsOthers(entries[1..], ids, other);
    }
  }

  lemma {:induction false} InsertKeepsOthers(entries: seq<Entry>, e: Entry, other: nat)
    requires e.actionId != other
    ensures OfAction(entries + [e], other, {}) == OfAction(entries, other, {})
  {
    if entries == [] {
      assert entries + [e] == [e] && [e][1..] == [];
    } else {
      assert (entries + [e])[1..] == entries[1..] + [e];
      InsertKeepsOthers(entries[1..], e, other);
    }
  }

  /** A flush takes away entries of its action only, and leaves nothing claimed. */
  lemma FlushKeepsOthers(s: Store, action: nat, other: nat)
    requires DistinctIds(s.accumulator) && s.claimed == {} && other != action
    ensures PendingCount(AfterFlush(s, action), other) == PendingCount(s, other)
  {
    var batch := Claimable(s, action, CLAIM_LIMIT);
    ClaimTakesOldest(s, action, CLAIM_LIMIT);
    forall e | e in s.accumulator && e.id in Ids(batch) ensures e.actionId != other {
      var x :| x in batch && x.id == e.id;
      assert s.accumulator[Position(s.accumulator, x)] == s.accumulator[Position(s.accumulator, e)];
    }
    RemovalKeepsOthers(s.accumulator, Ids(batch), other);
  }

  lemma FlushedStore(s: Store, action: nat)
    requires DistinctIds(s.accumulator) && s.claimed == {}
    ensures AfterFlush(s, action).claimed == {} && DistinctIds(AfterFlush(s, action).accumulator)
    ensures PendingCount(AfterFlush(s, action), action) <= PendingCount(s, action)
    ensures PendingCount(s, action) > 0 ==> PendingCount(AfterFlush(s, action), action) < PendingCount(s, action)
  {
    var batch := Claimable(s, action, CLAIM_LIMIT);
    WithoutMembers(s.accumulator, Ids(batch));
    RemovalKeepsOrLowers(s.accumulator, Ids(batch), action);
    if PendingCount(s, action) > 0 { FlushLowersPending(s, action); }
  }

  lemma FlushKeepsBelow(configs: nat -> AccumulatorConfig, s: Store, action: nat)
    requires AllBelow(configs, s.accumulator, s.claimed)
    ensures var t := AfterFlush(s, action); AllBelow(configs, t.accumulator, t.claimed)
  {
    FlushedStore(s, action);
    forall a | configs(a).threshold > 0 ensures PendingCount(AfterFlush(s, action), a) < configs(a).threshold {
      if a != action { FlushKeepsOthers(s, action, a); }
    }
  }

  /** Buffering raises one count by one, and a flush brings it below the threshold again. */
  lemma BufferKeepsBelow(configs: nat -> AccumulatorConfig, s: Store, e: Entry)
    requires AllBelow(configs, s.accumulator, s.claimed) && e.id !in Ids(s.accumulator)
    ensures var t := AfterBuffer(s, configs(e.actionId), e); AllBelow(configs, t.accumulator, t.claimed)
  {
    var t := s.(accumulator := Put(s.accumulator, e));
    var v := AfterBuffer(s, configs(e.actionId), e);
    PutFresh(s.accumulator, e);
    BufferedDistinct(s.accumulator, e);
    BufferRaisesPending(s.accumulator, e);
    FlushedStore(t, e.actionId);
    forall a | configs(a).threshold > 0 ensures PendingCount(v, a) < configs(a).threshold {
      if a != e.actionId {
        InsertKeepsOthers(s.accumulator, e, a);
        FlushKeepsOthers(t, e.actionId, a);
      }
    }
  }

  datatype Op =
    | BufferCall(action: nat, eventId: nat, entryId: nat, now: int)
    | TimedFlush(action: nat)

  function Perform(configs: nat -> AccumulatorConfig, s: Store, op: Op): Store {
    match op
    case BufferCall(action, eventId, entryId, now) =>
      if entryId in Ids(s.accumulator) then s  // a new entry has a new id
      else AfterBuffer(s, configs(action), Entry(entryId, action, eventId, now))
    case TimedFlush(action) => AfterFlush(s, action)
  }

  function PerformAll(configs: nat -> AccumulatorConfig, ops: seq<Op>): Store {
    if ops == [] then EMPTY_STORE else Perform(configs, PerformAll(configs, ops[..|ops| - 1]), ops[|ops| - 1])
  }

  /**
   After any buffering calls and timed flushes of any actions, none of which fails, every action
   with a positive threshold has fewer entries pending than its threshold.
   */
  lemma {:induction false} BelowThresholdThroughout(configs: nat -> AccumulatorConfig, ops: seq<Op>)
    ensures var s := PerformAll(configs, ops); AllBelow(configs, s.accumulator, s.claimed)
  {
    if ops == [] {
      assert forall a :: OfAction([], a, {}) == [];
    } else {
      var s, op := PerformAll(configs, ops[..|ops| - 1]), ops[|ops| - 1];
      BelowThresholdThroughout(configs, ops[..|ops| - 1]);
      match op
      case BufferCall(action, eventId, entryId, now) =>
        if entryId !in Ids(s.accumulator) { BufferKeepsBelow(configs, s, Entry(entryId, action, eventId, now)); }
      case TimedFlush(action) => FlushKeepsBelow(configs, s, action);
    }
  }
}
