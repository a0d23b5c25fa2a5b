/**
 Notification deliveries and the stream that first replays and then follows them live: subscribe
 before replay, deduplicate, and look each announced delivery up in a listing of at most 50.
 Creation, acknowledgement and announcement interleave freely with the stream's steps.
 */
module Notification {
  import opened Wrappers
  import opened Sorting

  datatype Delivery = Delivery(id: nat, target: nat, createdAt: int, acknowledged: bool)

  const LIMIT: nat := 50

  function Selects(d: Delivery, principal: nat, unackedOnly: bool, cursor: Option<nat>): bool {
    d.target == principal && !(unackedOnly && d.acknowledged) && (cursor.Some? ==> d.id > cursor.value)
  }

  function Select(ds: seq<Delivery>, principal: nat, unackedOnly: bool, cursor: Option<nat>): seq<Delivery> {
    if ds == [] then []
    else
      Select(ds[..|ds| - 1], principal, unackedOnly, cursor)
      + (if Selects(ds[|ds| - 1], principal, unackedOnly, cursor) then [ds[|ds| - 1]] else [])
  }

  function ByCreation(ds: seq<Delivery>): seq<Delivery> {
    SortBy(ds, (d: Delivery) => d.createdAt)
  }

  /** The listing appends before it compares with the limit, so it is never cut below one. */
  function List(ds: seq<Delivery>, principal: nat, unackedOnly: bool, cursor: Option<nat>, limit: nat): seq<Delivery> {
    Take(Select(ByCreation(ds), principal, unackedOnly, cursor), if limit == 0 then 1 else limit)
  }

  /**
   What a listing promises: deliveries of the principal, unacknowledged if only these are asked
   for, past the cursor if there is one, in creation order and at most `limit` (but never cut
   below one); and one that is missing comes after as many that are listed.
   */
  ghost predicate IsListing(results: seq<Delivery>, ds: seq<Delivery>, principal: nat,
                            unackedOnly: bool, cursor: Option<nat>, limit: nat) {
    var most := if limit == 0 then 1 else limit;
    && |results| <= most
    && (forall d :: d in results ==> d in ds && d.target == principal)
    && (unackedOnly ==> forall d :: d in results ==> !d.acknowledged)
    && (cursor.Some? ==> forall d :: d in results ==> d.id > cursor.value)
    && (forall i, j :: 0 <= i < j < |results| ==> results[i].createdAt <= results[j].createdAt)
    && (forall d :: d in ds && d.target == principal && d !in results ==>
          || (unackedOnly && d.acknowledged) || (cursor.Some? && d.id <= cursor.value)
          || (|results| == most && forall e :: e in results ==> e.createdAt <= d.createdAt))
  }

  function Acknowledge(ds: seq<Delivery>, id: nat): seq<Delivery> {
    if ds == [] then []
    else Acknowledge(ds[..|ds| - 1], id)
         + [if ds[|ds| - 1].id == id then ds[|ds| - 1].(acknowledged := true) else ds[|ds| - 1]]
  }

  ghost predicate Unique(ds: seq<Delivery>) {
    forall i, j :: 0 <= i < j < |ds| ==> ds[i].id != ds[j].id
  }

  class InMemoryNotificationBackend {
    var deliveries: seq<Delivery>  // an insertion-ordered dictionary keyed by id

    constructor ()
      ensures deliveries == []
    {
      deliveries := [];
    }

    method CreateDelivery(id: nat, target: nat, now: int)
      requires forall d :: d in deliveries ==> d.id != id
      modifies this
      ensures deliveries == old(deliveries) + [Delivery(id, target, now, false)]
    {
      deliveries := deliveries + [Delivery(id, target, now, false)];
    }

    method ListForPrincipal(principal: nat, unackedOnly: bool, cursor: Option<nat>, limit: nat)
      returns (results: seq<Delivery>)
      ensures IsListing(results, deliveries, principal, unackedOnly, cursor, limit)
      ensures results == List(deliveries, principal, unackedOnly, cursor, limit)
    {
      ListIsListing(deliveries, principal, unackedOnly, cursor, limit);
      results := [];
      var sorted := ByCreation(deliveries);
      for k := 0 to |sorted|
        invariant results == Select(sorted[..k], principal, unackedOnly, cursor)
        invariant results != [] ==> |results| < limit
      {
        var delivery := sorted[k];
        SelectNext(sorted, k, principal, unackedOnly, cursor);
        if delivery.target != principal {
          continue;
        }
        if unackedOnly && delivery.acknowledged {
          continue;
        }
        if cursor.Some? && delivery.id <= cursor.value {
          continue;
        }
        results := results + [delivery];
        if |results| >= limit {
          SelectPrefix(sorted, k + 1, principal, unackedOnly, cursor);
          TakeFilled(results, Select(sorted, principal, unackedOnly, cursor));
          return;
        }
      }
      assert sorted[..|sorted|] == sorted;
    }

    /** Fails, as a KeyError, when the delivery is missing or already acknowledged. */
    method AcknowledgeDelivery(id: nat) returns (ok: bool)
      requires Unique(deliveries)
      modifies this
      ensures ok <==> exists d :: d in old(deliveries) && d.id == id && !d.acknowledged
      ensures deliveries == if ok then Acknowledge(old(deliveries), id) else old(deliveries)
      ensures |deliveries| == |old(deliveries)|
      ensures forall k :: 0 <= k < |deliveries| ==>
        deliveries[k] == if old(deliveries)[k].id == id && ok then old(deliveries)[k].(acknowledged := true)
                         else old(deliveries)[k]
    {
      var k := 0;
      while k < |deliveries| && deliveries[k].id != id
        invariant k <= |deliveries| && forall j :: 0 <= j < k ==> deliveries[j].id != id
      {
        k := k + 1;
      }
      if k == |deliveries| || deliveries[k].acknowledged {
        return false;
      }
      assert deliveries[k] in deliveries;
      AcknowledgeAt(deliveries, k);
      deliveries := deliveries[k := deliveries[k].(acknowledged := true)];
      return true;
    }
  }

  lemma {:induction false} SelectMembers(ds: seq<Delivery>, p: nat, u: bool, c: Option<nat>)
    ensures forall d :: d in Select(ds, p, u, c) <==>
      d in ds && d.target == p && (u ==> !d.acknowledged) && (c.Some? ==> d.id > c.value)
    ensures Unique(ds) ==> Unique(Select(ds, p, u, c))
  {
    if ds != [] {
      var front, last := ds[..|ds| - 1], ds[|ds| - 1];
      assert ds == front + [last];
      SelectMembers(front, p, u, c);
      if Unique(ds) {
        assert Unique(front);
        forall d | d in front ensures d.id != last.id { assert d == ds[Position(front, d)]; }
      }
    }
  }

  lemma {:induction false} SelectInOrder(ds: seq<Delivery>, p: nat, u: bool, c: Option<nat>)
    requires Ascending(ds, (d: Delivery) => d.createdAt)
    ensures Ascending(Select(ds, p, u, c), (d: Delivery) => d.createdAt)
  {
    if ds != [] {
      var front, last := ds[..|ds| - 1], ds[|ds| - 1];
      assert ds == front + [last];
      SelectInOrder(front, p, u, c);
      SelectMembers(front, p, u, c);
      var selected := Select(front, p, u, c);
      forall i | 0 <= i < |selected| ensures selected[i].createdAt <= last.createdAt {
        assert selected[i] in selected && ds[Position(front, selected[i])] == selected[i];
      }
    }
  }

  lemma ListIsListing(ds: seq<Delivery>, p: nat, u: bool, c: Option<nat>, limit: nat)
    ensures IsListing(List(ds, p, u, c, limit), ds, p, u, c, limit)
  {
    var key := (d: Delivery) => d.createdAt;
    SortBySorts(ds, key);
    SortByMembers(ds, key);
    SelectMembers(ByCreation(ds), p, u, c);
    SelectInOrder(ByCreation(ds), p, u, c);
    var selected, listed := Select(ByCreation(ds), p, u, c), List(ds, p, u, c, limit);
    forall d | d in selected && d !in listed
      ensures |listed| == (if limit == 0 then 1 else limit) && forall e :: e in listed ==> e.createdAt <= d.createdAt
    {
      TakesFirst(selected, if limit == 0 then 1 else limit, d);
    }
  }

  lemma TakesFirst(selected: seq<Delivery>, n: nat, d: Delivery)
    requires Ascending(selected, (e: Delivery) => e.createdAt) && d in selected && d !in Take(selected, n)
    ensures |Take(selected, n)| == n && forall e :: e in Take(selected, n) ==> e.createdAt <= d.createdAt
  {
    var k := Position(selected, d);
    assert k >= n;
    forall e | e in Take(selected, n) ensures e.createdAt <= d.createdAt {
      assert selected[Position(Take(selected, n), e)] == e;
    }
  }

  lemma SelectNext(ds: seq<Delivery>, k: nat, principal: nat, unackedOnly: bool, cursor: Option<nat>)
    requires k < |ds|
    ensures Select(ds[..k + 1], principal, unackedOnly, cursor)
         == Select(ds[..k], principal, unackedOnly, cursor)
            + (if Selects(ds[k], principal, unackedOnly, cursor) then [ds[k]] else [])
  {
    assert ds[..k + 1][..k] == ds[..k];
  }

  lemma TakeFilled(front: seq<Delivery>, s: seq<Delivery>)
    requires front <= s
    ensures Take(s, |front|) == front
  {
  }

  lemma {:induction false} SelectPrefix(ds: seq<Delivery>, k: nat, principal: nat, unackedOnly: bool, cursor: Option<nat>)
    requires k <= |ds|
    ensures Select(ds[..k], principal, unackedOnly, cursor) <= Select(ds, principal, unackedOnly, cursor)
  {
    if k < |ds| {
      assert ds[..|ds| - 1][..k] == ds[..k];
      SelectPrefix(ds[..|ds| - 1], k, principal, unackedOnly, cursor);
    } else {
      assert ds[..k] == ds;
    }
  }

  lemma {:induction false} AcknowledgeAt(ds: seq<Delivery>, k: nat)
    requires Unique(ds) && k < |ds|
    ensures Acknowledge(ds, ds[k].id) == ds[k := ds[k].(acknowledged := true)]
  {
    var front, last := ds[..|ds| - 1], ds[|ds| - 1];
    if k < |ds| - 1 {
      AcknowledgeAt(front, k);
    } else {
      AcknowledgeAbsent(front, last.id);
    }
  }

  lemma {:induction false} AcknowledgeAbsent(ds: seq<Delivery>, id: nat)
    requires forall i :: 0 <= i < |ds| ==> ds[i].id != id
    ensures Acknowledge(ds, id) == ds
  {
    if ds != [] { AcknowledgeAbsent(ds[..|ds| - 1], id); }
  }
}
