/**
 The in-memory dispatch backend: accumulator, cursors, completion records and the event list.
 `Store` is its abstract value with one function for each storage call; the class keeps the
 same data in mutable fields and its methods are proved against these functions. Identifiers
 (UUIDs in the source) are natural numbers.
 */
module MemoryBackend {
  import opened Wrappers
  import opened Sorting

  datatype Event = Event(id: nat, eventType: string, principal: Option<nat>)

  datatype Entry = Entry(id: nat, actionId: nat, eventId: nat, createdAt: int)

  datatype Store = Store(
    accumulator: seq<Entry>,  // an insertion-ordered dictionary keyed by entry id
    claimed: set<nat>,
    cursors: map<string, nat>,
    completions: set<(nat, nat)>,
    events: seq<Event>)

  const EMPTY_STORE := Store([], {}, map[], {}, [])

  function Ids(entries: seq<Entry>): set<nat> {
    set e | e in entries :: e.id
  }

  ghost predicate DistinctIds(entries: seq<Entry>) {
    forall i, j :: 0 <= i < j < |entries| ==> entries[i].id != entries[j].id
  }

  // ---- accumulator ----------------------------------------------------------------------

  /** Assignment to a dictionary key: in place when present, at the end otherwise. */
  function Put(entries: seq<Entry>, e: Entry): seq<Entry> {
    if entries == [] then [e]
    else if entries[0].id == e.id then [e] + entries[1..]
    else [entries[0]] + Put(entries[1..], e)
  }

  function OfAction(entries: seq<Entry>, action: nat, without: set<nat>): seq<Entry> {
    if entries == [] then []
    else if entries[0].actionId == action && entries[0].id !in without then
      [entries[0]] + OfAction(entries[1..], action, without)
    else OfAction(entries[1..], action, without)
  }

  function OldestFirst(entries: seq<Entry>): seq<Entry> {
    SortBy(entries, (e: Entry) => e.createdAt)
  }

  function Claimable(s: Store, action: nat, limit: nat): seq<Entry> {
    Take(OldestFirst(OfAction(s.accumulator, action, s.claimed)), limit)
  }

  function Claim(s: Store, batch: seq<Entry>): Store {
    s.(claimed := s.claimed + Ids(batch))
  }

  function Without(entries: seq<Entry>, ids: set<nat>): seq<Entry> {
    if entries == [] then []
    else if entries[0].id in ids then Without(entries[1..], ids)
    else [entries[0]] + Without(entries[1..], ids)
  }

  function Confirm(s: Store, ids: set<nat>): Store {
    s.(accumulator := Without(s.accumulator, ids), claimed := s.claimed - ids)
  }

  function PendingCount(s: Store, action: nat): nat {
    |OfAction(s.accumulator, action, {})|
  }

  lemma {:induction false} OfActionMembers(entries: seq<Entry>, action: nat, without: set<nat>)
    requires DistinctIds(entries)
    ensures forall e :: e in OfAction(entries, action, without) <==>
      e in entries && e.actionId == action && e.id !in without
    ensures DistinctIds(OfAction(entries, action, without))
  {
    if entries != [] {
      OfActionMembers(entries[1..], action, without);
      assert forall e :: e in entries <==> e == entries[0] || e in entries[1..];
    }
  }

  lemma {:induction false} WithoutMembers(entries: seq<Entry>, ids: set<nat>)
    requires DistinctIds(entries)
    ensures forall e :: e in Without(entries, ids) <==> e in entries && e.id !in ids
    ensures DistinctIds(Without(entries, ids))
  {
    if entries != [] {
      WithoutMembers(entries[1..], ids);
      assert forall e :: e in entries <==> e == entries[0] || e in entries[1..];
    }
  }

  lemma {:induction false} PutFresh(entries: seq<Entry>, e: Entry)
    requires e.id !in Ids(entries)
    ensures Put(entries, e) == entries + [e]
  {
    if entries != [] {
      assert entries[0].id in Ids(entries);
      forall x | x in entries[1..] ensures x.id in Ids(entries) { assert x in entries; }
      PutFresh(entries[1..], e);
    }
  }

  /** An entry under an id in use takes the place of the older one, and all others stay. */
  lemma {:induction false} PutReplaces(entries: seq<Entry>, e: Entry, k: nat)
    requires k < |entries| && entries[k].id == e.id && forall j :: 0 <= j < k ==> entries[j].id != e.id
    ensures Put(entries, e) == entries[k := e]
  {
    if k > 0 { PutReplaces(entries[1..], e, k - 1); }
  }

  /** The pending count is the number of all entries of the action, claimed or not. */
  lemma PendingIsAll(entries: seq<Entry>, action: nat)
    requires DistinctIds(entries)
    ensures |OfAction(entries, action, {})| == |set e | e in entries && e.actionId == action|
  {
    var mine := OfAction(entries, action, {});
    OfActionMembers(entries, action, {});
    assert NoDup(mine);
    SizeOfElements(mine);
    assert Elements(mine) == set e | e in entries && e.actionId == action;
  }

  ghost predicate LeftUnclaimed(s: Store, action: nat, batch: seq<Entry>, o: Entry) {
    o in s.accumulator && o.actionId == action && o.id !in s.claimed && o !in batch
  }

  /** A claim takes unclaimed entries of the action only, each once, the oldest, at most `limit`. */
  lemma ClaimTakesOldest(s: Store, action: nat, limit: nat)
    requires DistinctIds(s.accumulator)
    ensures var batch := Claimable(s, action, limit);
            && |batch| <= limit && DistinctIds(batch)
            && Ascending(batch, (e: Entry) => e.createdAt)
            && (forall e :: e in batch ==> e in s.accumulator && e.actionId == action && e.id !in s.claimed)
            && forall e, o :: e in batch && LeftUnclaimed(s, action, batch, o) ==>
                 e.createdAt <= o.createdAt && |batch| == limit
  {
    var key := (e: Entry) => e.createdAt;
    var queue := OldestFirst(OfAction(s.accumulator, action, s.claimed));
    var batch := Take(queue, limit);
    QueueMembers(s, action);
    forall e, o | e in batch && LeftUnclaimed(s, action, batch, o)
      ensures e.createdAt <= o.createdAt && |batch| == limit
    {
      var i, j := Position(batch, e), Position(queue, o);
      assert queue[j] !in batch;
      assert key(queue[i]) <= key(queue[j]);
    }
  }

  lemma QueueMembers(s: Store, action: nat)
    requires DistinctIds(s.accumulator)
    ensures var queue := OldestFirst(OfAction(s.accumulator, action, s.claimed));
            && DistinctIds(queue) && Ascending(queue, (e: Entry) => e.createdAt)
            && (forall e :: e in queue <==> e in s.accumulator && e.actionId == action && e.id !in s.claimed)
  {
    var unclaimed := OfAction(s.accumulator, action, s.claimed);
    var key := (e: Entry) => e.createdAt;
    OfActionMembers(s.accumulator, action, s.claimed);
    SortBySorts(unclaimed, key);
    SortByMembers(unclaimed, key);
    SortByNoDup(unclaimed, key);
    SameIdSameEntry(unclaimed, OldestFirst(unclaimed));
  }

  lemma SameIdSameEntry(a: seq<Entry>, b: seq<Entry>)
    requires DistinctIds(a) && NoDup(b) && forall e :: e in b ==> e in a
    ensures DistinctIds(b)
  {
    forall i, j | 0 <= i < j < |b| ensures b[i].id != b[j].id {
      assert b[i] in a && b[j] in a && b[i] != b[j];
    }
  }

  // ---- polling --------------------------------------------------------------------------

  /** The first index of an event with this id, or the length of the list. */
  function IndexOfEvent(events: seq<Event>, id: nat): (i: nat)
    ensures i <= |events|
    ensures i < |events| ==> events[i].id == id
    ensures forall k :: 0 <= k < i ==> events[k].id != id
  {
    if events == [] || events[0].id == id then 0 else 1 + IndexOfEvent(events[1..], id)
  }

  /**
   At most `limit` events after the given one, none when it is unknown. After an event the
   scan appends before it compares with the limit, so a limit of zero still yields one event.
   */
  function PollSince(events: seq<Event>, since: Option<nat>, limit: nat): seq<Event> {
    match since
    case None => Take(events, limit)
    case Some(id) =>
      var i := IndexOfEvent(events, id);
      if i == |events| then [] else Take(events[i + 1..], if limit == 0 then 1 else limit)
  }

  /** The events polled follow on the given one without a gap, and there are as many as there may be. */
  lemma PolledEvents(events: seq<Event>, since: Option<nat>, limit: nat, at: nat)
    requires since.Some? ==> at < |events| && events[at].id == since.value
    requires since.Some? ==> forall k :: 0 <= k < at ==> events[k].id != since.value
    ensures var polled, from := PollSince(events, since, limit), if since.None? then 0 else at + 1;
      && from + |polled| <= |events|
      && (forall k :: 0 <= k < |polled| ==> polled[k] == events[from + k])
      && (|polled| == limit || from + |polled| == |events| || (limit == 0 && since.Some? && |polled| == 1))
      && (|polled| <= limit || (limit == 0 && since.Some?))
  {
    if since.Some? {
      var i := IndexOfEvent(events, since.value);
      assert i == at;
    }
  }

  /** An unknown event has nothing after it. */
  lemma NothingAfterUnknown(events: seq<Event>, id: nat, limit: nat)
    requires forall k :: 0 <= k < |events| ==> events[k].id != id
    ensures PollSince(events, Some(id), limit) == []
  {
    var i := IndexOfEvent(events, id);
  }

  class InMemoryBackend {
    var accumulator: seq<Entry>
    var claimed: set<nat>
    var cursors: map<string, nat>
    var completions: set<(nat, nat)>
    var events: seq<Event>

    function Model(): Store
      reads this
    {
      Store(accumulator, claimed, cursors, completions, events)
    }

    constructor ()
      ensures Model() == EMPTY_STORE
    {
      accumulator, claimed, cursors, completions, events := [], {}, map[], {}, [];
    }

    method BufferEvent(entry: Entry) returns (id: nat)
      modifies this`accumulator
      ensures Model() == old(Model()).(accumulator := Put(old(accumulator), entry)) && id == entry.id
    {
      accumulator := Put(accumulator, entry);
      id := entry.id;
    }

    method ClaimBatch(actionId: nat, limit: nat) returns (batch: seq<Entry>)
      modifies this`claimed
      ensures batch == Claimable(old(Model()), actionId, limit)
      ensures Model() == Claim(old(Model()), batch)
    {
      var unclaimed := OfAction(accumulator, actionId, claimed);
      unclaimed := OldestFirst(unclaimed);
      batch := Take(unclaimed, limit);
      for i := 0 to |batch|
        invariant claimed == old(claimed) + Ids(batch[..i])
      {
        claimed := claimed + {batch[i].id};
        assert batch[..i + 1] == batch[..i] + [batch[i]];
      }
      assert batch[..|batch|] == batch;
    }

    method ConfirmBatch(entryIds: seq<nat>)
      modifies this`accumulator, this`claimed
      ensures Model() == Confirm(old(Model()), Elements(entryIds))
    {
      assert Elements(entryIds[..0]) == {};
      WithoutNone(accumulator);
      for i := 0 to |entryIds|
        invariant accumulator == Without(old(accumulator), Elements(entryIds[..i]))
        invariant claimed == old(claimed) - Elements(entryIds[..i])
      {
        WithoutTwice(old(accumulator), Elements(entryIds[..i]), entryIds[i]);
        accumulator := Without(accumulator, {entryIds[i]});
        claimed := claimed - {entryIds[i]};
        assert entryIds[..i + 1] == entryIds[..i] + [entryIds[i]];
        assert Elements(entryIds[..i + 1]) == Elements(entryIds[..i]) + {entryIds[i]};
      }
      assert entryIds[..|entryIds|] == entryIds;
    }

    method CountPending(actionId: nat) returns (n: nat)
      ensures n == PendingCount(Model(), actionId)
    {
      n := |OfAction(accumulator, actionId, {})|;
    }

    method GetCursorPosition(name: string) returns (pos: Option<nat>)
      ensures pos == CursorOf(Model(), name)
    {
      pos := if name in cursors then Some(cursors[name]) else None;
    }

    method AdvanceCursor(name: string, eventId: nat)
      modifies this`cursors
      ensures Model() == old(Model()).(cursors := old(cursors)[name := eventId])
    {
      cursors := cursors[name := eventId];
    }

    method IsActionCompleted(eventId: nat, actionId: nat) returns (b: bool)
      ensures b == ((eventId, actionId) in completions)
    {
      b := (eventId, actionId) in completions;
    }

    method RecordCompletion(eventId: nat, actionId: nat)
      modifies this`completions
      ensures Model() == old(Model()).(completions := old(completions) + {(eventId, actionId)})
    {
      completions := completions + {(eventId, actionId)};
    }

    method PollEventsSince(since: Option<nat>, limit: nat) returns (result: seq<Event>)
      ensures result == PollSince(events, since, limit)
    {
      if since.None? {
        return Take(events, limit);
      }
      var found := false;
      result := [];
      ghost var at := IndexOfEvent(events, since.value);
      for k := 0 to |events|
        invariant found <==> at < k
        invariant result == if found then events[at + 1..k] else []
        invariant result != [] ==> |result| < limit
      {
        if found {
          assert events[at + 1..k] + [events[k]] == events[at + 1..k + 1];
          result := result + [events[k]];
          if |result| >= limit {
            assert events[at + 1..][..|result|] == result;
            return;
          }
        } else if events[k].id == since.value {
          found := true;
        }
      }
      if found {
        assert events[at + 1..|events|] == events[at + 1..];
      }
    }

    method InjectEvent(event: Event)
      modifies this`events
      ensures Model() == old(Model()).(events := old(events) + [event])
    {
      events := events + [event];
    }
  }

  function CursorOf(s: Store, name: string): Option<nat> {
    if name in s.cursors then Some(s.cursors[name]) else None
  }

  lemma {:induction false} WithoutNone(entries: seq<Entry>)
    ensures Without(entries, {}) == entries
  {
    if entries != [] {
      WithoutNone(entries[1..]);
    }
  }

  lemma {:induction false} WithoutTwice(entries: seq<Entry>, ids: set<nat>, id: nat)
    ensures Without(Without(entries, ids), {id}) == Without(entries, ids + {id})
  {
    if entries != [] {
      WithoutTwice(entries[1..], ids, id);
    }
  }
}
