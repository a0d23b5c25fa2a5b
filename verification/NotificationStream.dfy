/**
 The catch-up-then-live notification stream of one principal as a state machine. Deliveries are
 created and acknowledged, announcements travel and arrive, and the stream replays and follows
 in any interleaving.
 */
module NotificationStream {
  import opened Wrappers
  import opened Sorting
  import opened Notification

  datatype Note = Note(id: nat, target: nat)

  datatype Phase = Connecting | Listening | Replaying | Live

  /**
   The deliveries, announcements on their way and queued, the stream's local state, and a
   history: what the replay listed, what it owed (unacknowledged and after the cursor), what
   was created for the principal after the subscription, and what a heartbeat dropped unseen.
   The stream waits for a task that takes from the queue: `taken` is what the task has taken,
   `current` what the stream has been handed.
   */
  datatype World = World(
    deliveries: seq<Delivery>, wire: seq<Note>, queue: seq<Note>,
    phase: Phase, pending: seq<Delivery>, taken: Option<Note>, current: Option<Note>,
    seen: set<nat>, emitted: seq<nat>,
    replayed: set<nat>, owed: set<nat>, due: set<nat>, dropped: set<nat>)

  datatype Step =
    | Create(id: nat, target: nat, now: int) | Ack(id: nat)
    | Subscribe | Arrive | Replay | EmitReplayed
    | TakeLive   // the waiting task takes an announcement from the queue
    | HandOver   // the stream resumes with it
    | Heartbeat  // the stream resumes because its wait timed out
    | FetchLive

  const INIT := World([], [], [], Connecting, [], None, None, {}, [], {}, {}, {}, {})

  function IdsOf(ds: seq<Delivery>): set<nat> {
    set d | d in ds :: d.id
  }

  /** The principal's unacknowledged deliveries past the cursor. */
  function Owed(ds: seq<Delivery>, p: nat, cursor: Option<nat>): set<nat> {
    set d | d in ds && d.target == p && !d.acknowledged && (cursor == None || d.id > cursor.value) :: d.id
  }

  function Next(p: nat, cursor: Option<nat>, w: World, step: Step): World {
    match step
    case Create(id, target, now) =>
      if id in IdsOf(w.deliveries) then w
      else
        var v := w.(deliveries := w.deliveries + [Delivery(id, target, now, false)]);
        if w.phase.Connecting? then v
        else v.(wire := w.wire + [Note(id, target)], due := if target == p then w.due + {id} else w.due)
    case Ack(id) => w.(deliveries := Acknowledge(w.deliveries, id))
    case Subscribe => if w.phase.Connecting? then w.(phase := Listening) else w
    case Arrive =>
      if w.wire == [] then w
      else w.(wire := w.wire[1..], queue := if w.wire[0].target == p then w.queue + [w.wire[0]] else w.queue)
    case Replay =>
      if !w.phase.Listening? then w
      else
        var listed := List(w.deliveries, p, true, cursor, LIMIT);
        w.(phase := Replaying, pending := listed, replayed := IdsOf(listed),
           owed := Owed(w.deliveries, p, cursor))
    case EmitReplayed =>
      if !w.phase.Replaying? then w
      else if w.pending == [] then w.(phase := Live)
      else Emit(w.(pending := w.pending[1..]), w.pending[0].id)
    case TakeLive =>
      if w.phase.Live? && w.taken.None? && w.current.None? && w.queue != [] then
        w.(taken := Some(w.queue[0]), queue := w.queue[1..])
      else w
    case HandOver => if w.taken.Some? then w.(current := w.taken, taken := None) else w
    case Heartbeat =>
      if w.taken.None? then w
      else
        var id := w.taken.value.id;
        w.(taken := None, dropped := if id in w.seen then w.dropped else w.dropped + {id})
    case FetchLive =>
      if w.current.None? then w
      else
        var id := w.current.value.id;
        var done := w.(current := None);
        if id !in w.seen && id in IdsOf(List(w.deliveries, p, false, None, LIMIT)) then Emit(done, id) else done
  }

  function Emit(w: World, id: nat): World {
    w.(seen := w.seen + {id}, emitted := w.emitted + [id])
  }

  function Run(p: nat, cursor: Option<nat>, steps: seq<Step>): World {
    if steps == [] then INIT
    else Next(p, cursor, Run(p, cursor, steps[..|steps| - 1]), steps[|steps| - 1])
  }

  // ---- listings -------------------------------------------------------------------------

  lemma SortedUnique(ds: seq<Delivery>)
    requires Unique(ds)
    ensures Unique(ByCreation(ds)) && forall d :: d in ByCreation(ds) <==> d in ds
  {
    var key := (d: Delivery) => d.createdAt;
    SortByMembers(ds, key);
    SortByNoDup(ds, key);
    var sorted := ByCreation(ds);
    forall i, j | 0 <= i < j < |sorted| ensures sorted[i].id != sorted[j].id {
      assert sorted[i] in ds && sorted[j] in ds && sorted[i] != sorted[j];
    }
  }

  lemma ListMembers(ds: seq<Delivery>, p: nat, u: bool, c: Option<nat>)
    requires Unique(ds)
    ensures var listed := List(ds, p, u, c, LIMIT);
            && Unique(listed) && |listed| <= LIMIT
            && forall d :: d in listed ==>
                 d in ds && d.target == p && (u ==> !d.acknowledged) && (c.Some? ==> d.id > c.value)
  {
    SortedUnique(ds);
    SelectMembers(ByCreation(ds), p, u, c);
  }

  /** The number of the principal's deliveries. */
  function Count(ds: seq<Delivery>, p: nat): nat {
    if ds == [] then 0 else Count(ds[..|ds| - 1], p) + if ds[|ds| - 1].target == p then 1 else 0
  }

  lemma {:induction false} CountSelected(ds: seq<Delivery>, p: nat)
    ensures |Select(ds, p, false, None)| == Count(ds, p)
  {
    if ds != [] { CountSelected(ds[..|ds| - 1], p); }
  }

  lemma {:induction false} SelectNarrows(ds: seq<Delivery>, p: nat, u: bool, c: Option<nat>)
    ensures |Select(ds, p, u, c)| <= Count(ds, p)
  {
    if ds != [] { SelectNarrows(ds[..|ds| - 1], p, u, c); }
  }

  lemma CountSorted(ds: seq<Delivery>, p: nat)
    requires Unique(ds)
    ensures Count(ByCreation(ds), p) == Count(ds, p)
  {
    SortedUnique(ds);
    SelectMembers(ds, p, false, None);
    SelectMembers(ByCreation(ds), p, false, None);
    var a, b := Select(ds, p, false, None), Select(ByCreation(ds), p, false, None);
    SizeOfElements(a);
    SizeOfElements(b);
    CountSelected(ds, p);
    CountSelected(ByCreation(ds), p);
    assert Elements(a) == Elements(b);
  }

  /** A principal with at most 50 deliveries has every selected delivery listed. */
  lemma ListComplete(ds: seq<Delivery>, p: nat, u: bool, c: Option<nat>)
    requires Unique(ds) && Count(ds, p) <= LIMIT
    ensures forall d :: d in ds && d.target == p && (u ==> !d.acknowledged) && (c.Some? ==> d.id > c.value) ==>
      d in List(ds, p, u, c, LIMIT)
  {
    CountSorted(ds, p);
    SelectNarrows(ByCreation(ds), p, u, c);
    SortedUnique(ds);
    SelectMembers(ByCreation(ds), p, u, c);
  }

  // ---- acknowledgement changes nothing but the flag ---------------------------------------

  lemma {:induction false} AcknowledgeKeeps(ds: seq<Delivery>, id: nat)
    ensures var es := Acknowledge(ds, id);
            && |es| == |ds|
            && (forall i :: 0 <= i < |ds| ==> es[i] == ds[i] || es[i] == ds[i].(acknowledged := true))
  {
    if ds != [] { AcknowledgeKeeps(ds[..|ds| - 1], id); }
  }

  lemma {:induction false} AcknowledgeKeepsCount(ds: seq<Delivery>, id: nat, p: nat)
    ensures Count(Acknowledge(ds, id), p) == Count(ds, p)
  {
    if ds != [] {
      var es := Acknowledge(ds, id);
      AcknowledgeKeepsCount(ds[..|ds| - 1], id, p);
      assert es[..|es| - 1] == Acknowledge(ds[..|ds| - 1], id);
    }
  }

  ghost predicate Belongs(ds: seq<Delivery>, p: nat, id: nat) {
    exists i :: 0 <= i < |ds| && ds[i].id == id && ds[i].target == p
  }

  lemma AcknowledgeKeepsOwner(ds: seq<Delivery>, id: nat, p: nat)
    requires Unique(ds)
    ensures Unique(Acknowledge(ds, id))
    ensures forall x :: Belongs(Acknowledge(ds, id), p, x) <==> Belongs(ds, p, x)
  {
    AcknowledgeKeeps(ds, id);
    var es := Acknowledge(ds, id);
    forall x ensures Belongs(es, p, x) <==> Belongs(ds, p, x) {
      if Belongs(ds, p, x) {
        var i :| 0 <= i < |ds| && ds[i].id == x && ds[i].target == p;
        assert es[i].id == x && es[i].target == p;
      }
    }
  }

  // ---- each delivery at most once, and only the principal's --------------------------------

  /** What is emitted is duplicate-free, the principal's own, and was replayed or is new. */
  ghost predicate WellEmitted(p: nat, w: World) {
    && Unique(w.deliveries)
    && NoDup(w.emitted) && Elements(w.emitted) == w.seen
    && Unique(w.pending) && IdsOf(w.pending) !! w.seen
    && (forall id :: id in w.seen || id in IdsOf(w.pending) ==> Belongs(w.deliveries, p, id))
    && (!w.phase.Replaying? ==> w.pending == [])
    && (w.phase.Connecting? || w.phase.Listening? ==> w.seen == {})
    && (w.taken.Some? || w.current.Some? || w.dropped != {} ==> w.phase.Live?)
    && (w.taken.Some? ==> w.current.None?)
  }

  lemma CreateKeepsEmitted(p: nat, cursor: Option<nat>, w: World, id: nat, target: nat, now: int)
    requires WellEmitted(p, w)
    ensures WellEmitted(p, Next(p, cursor, w, Create(id, target, now)))
  {
    var v := Next(p, cursor, w, Create(id, target, now));
    if v != w {
      forall i | 0 <= i < |w.deliveries| ensures w.deliveries[i].id != id {
        assert w.deliveries[i].id in IdsOf(w.deliveries);
      }
      forall x | Belongs(w.deliveries, p, x) ensures Belongs(v.deliveries, p, x) {
        var i :| 0 <= i < |w.deliveries| && w.deliveries[i].id == x && w.deliveries[i].target == p;
        assert v.deliveries[i] == w.deliveries[i];
      }
    }
  }

  lemma ListedBelong(ds: seq<Delivery>, p: nat, u: bool, c: Option<nat>, id: nat)
    requires Unique(ds) && id in IdsOf(List(ds, p, u, c, LIMIT))
    ensures Belongs(ds, p, id)
  {
    ListMembers(ds, p, u, c);
    var d :| d in List(ds, p, u, c, LIMIT) && d.id == id;
    assert ds[Position(ds, d)].id == id;
  }

  lemma StepKeepsEmitted(p: nat, cursor: Option<nat>, w: World, step: Step)
    requires WellEmitted(p, w)
    ensures WellEmitted(p, Next(p, cursor, w, step))
  {
    match step
    case Create(id, target, now) => CreateKeepsEmitted(p, cursor, w, id, target, now);
    case Ack(id) => AcknowledgeKeepsOwner(w.deliveries, id, p);
    case Replay =>
      ListMembers(w.deliveries, p, true, cursor);
      forall id | id in IdsOf(List(w.deliveries, p, true, cursor, LIMIT)) ensures Belongs(w.deliveries, p, id) {
        ListedBelong(w.deliveries, p, true, cursor, id);
      }
    case EmitReplayed =>
      if w.phase.Replaying? && w.pending != [] {
        assert w.pending[0] in w.pending;
        assert forall d :: d in w.pending[1..] ==> d in w.pending;
        EmitOnce(w, w.pending[0].id);
      }
    case FetchLive =>
      if w.current.Some? && w.current.value.id in IdsOf(List(w.deliveries, p, false, None, LIMIT)) {
        ListedBelong(w.deliveries, p, false, None, w.current.value.id);
        if w.current.value.id !in w.seen { EmitOnce(w, w.current.value.id); }
      }
    case _ =>
  }

  lemma EmitOnce(w: World, id: nat)
    requires NoDup(w.emitted) && Elements(w.emitted) == w.seen && id !in w.seen
    ensures NoDup(Emit(w, id).emitted) && Elements(Emit(w, id).emitted) == Emit(w, id).seen
  {
    assert forall x :: x in w.emitted <==> x in Elements(w.emitted);
  }

  /** Under every interleaving no delivery is emitted twice and none of another principal. */
  lemma {:induction false} EmittedOnceToOwner(p: nat, cursor: Option<nat>, steps: seq<Step>)
    ensures WellEmitted(p, Run(p, cursor, steps))
  {
    if steps != [] {
      EmittedOnceToOwner(p, cursor, steps[..|steps| - 1]);
      StepKeepsEmitted(p, cursor, Run(p, cursor, steps[..|steps| - 1]), steps[|steps| - 1]);
    }
  }

  // ---- nothing owed or due is lost --------------------------------------------------------

  ghost predicate Announced(p: nat, w: World, id: nat) {
    Note(id, p) in w.wire || Note(id, p) in w.queue || w.taken == Some(Note(id, p)) || w.current == Some(Note(id, p))
  }

  ghost predicate Handled(p: nat, w: World, id: nat) {
    Announced(p, w, id) || id in w.seen || id in w.dropped
  }

  /** Announcements are about what is due, and what is due is announced until it is handled. */
  ghost predicate Tracked(p: nat, w: World) {
    && (forall n :: n in w.queue || w.taken == Some(n) || w.current == Some(n) ==> n.target == p)
    && (forall id :: id in w.due ==> Belongs(w.deliveries, p, id))
    && (forall id :: Announced(p, w, id) || id in w.dropped ==> id in w.due)
    && (w.phase.Connecting? ==> w.wire == [] && w.queue == [] && w.due == {})
    && (w.phase.Connecting? || w.phase.Listening? ==> w.replayed == {} && w.owed == {})
    && w.replayed <= w.seen + IdsOf(w.pending)
    && IdsOf(w.pending) <= w.replayed <= w.owed && w.seen <= w.replayed + w.due
    && (w.owed <= w.replayed || Count(w.deliveries, p) > LIMIT)
    && (Count(w.deliveries, p) <= LIMIT ==> forall id :: id in w.due ==> Handled(p, w, id))
  }

  lemma CreatedBelongs(ds: seq<Delivery>, d: Delivery, p: nat)
    ensures forall x :: Belongs(ds, p, x) ==> Belongs(ds + [d], p, x)
    ensures d.target == p ==> Belongs(ds + [d], p, d.id)
    ensures Count(ds, p) <= Count(ds + [d], p)
  {
    var es := ds + [d];
    assert es[..|ds|] == ds && es[|ds|] == d;
    forall x | Belongs(ds, p, x) ensures Belongs(es, p, x) {
      var i :| 0 <= i < |ds| && ds[i].id == x && ds[i].target == p;
      assert es[i] == ds[i];
    }
  }

  lemma SentIsAnnounced(p: nat, w: World, v: World, n: Note)
    requires v.wire == w.wire + [n] && v.queue == w.queue && v.taken == w.taken && v.current == w.current
    ensures forall id :: Announced(p, v, id) <==> Announced(p, w, id) || n == Note(id, p)
  {
    assert v.wire[|w.wire|] == n;
    assert forall m :: m in v.wire <==> m in w.wire || m == n;
  }

  lemma CreateKeepsTracked(p: nat, cursor: Option<nat>, w: World, id: nat, target: nat, now: int)
    requires WellEmitted(p, w) && Tracked(p, w)
    ensures Tracked(p, Next(p, cursor, w, Create(id, target, now)))
  {
    var v := Next(p, cursor, w, Create(id, target, now));
    if v != w {
      CreatedBelongs(w.deliveries, Delivery(id, target, now, false), p);
      if !w.phase.Connecting? {
        SentIsAnnounced(p, w, v, Note(id, target));
        SentKeepsTracked(p, w, v, id, target);
      }
    }
  }

  lemma SentKeepsTracked(p: nat, w: World, v: World, id: nat, target: nat)
    requires Tracked(p, w) && !w.phase.Connecting?
    requires v == w.(deliveries := v.deliveries, wire := v.wire, due := v.due)
    requires v.due == if target == p then w.due + {id} else w.due
    requires forall x :: Announced(p, v, x) <==> Announced(p, w, x) || Note(id, target) == Note(x, p)
    requires forall x :: Belongs(w.deliveries, p, x) ==> Belongs(v.deliveries, p, x)
    requires target == p ==> Belongs(v.deliveries, p, id)
    requires Count(w.deliveries, p) <= Count(v.deliveries, p)
    ensures Tracked(p, v)
  {
  }

  lemma ReplayKeepsTracked(p: nat, cursor: Option<nat>, w: World)
    requires WellEmitted(p, w) && Tracked(p, w) && w.phase.Listening?
    ensures Tracked(p, Next(p, cursor, w, Replay))
  {
    if Count(w.deliveries, p) <= LIMIT {
      ListComplete(w.deliveries, p, true, cursor);
    }
    ListMembers(w.deliveries, p, true, cursor);
  }

  lemma FetchKeepsTracked(p: nat, cursor: Option<nat>, w: World)
    requires WellEmitted(p, w) && Tracked(p, w)
    ensures Tracked(p, Next(p, cursor, w, FetchLive))
  {
    if w.current.Some? {
      var n := w.current.value;
      assert n == Note(n.id, p) && Announced(p, w, n.id);
      if Count(w.deliveries, p) <= LIMIT {
        ListComplete(w.deliveries, p, false, None);
        var i :| 0 <= i < |w.deliveries| && w.deliveries[i].id == n.id && w.deliveries[i].target == p;
        assert w.deliveries[i] in List(w.deliveries, p, false, None, LIMIT);
      }
    }
  }

  lemma MoveNotes(p: nat, cursor: Option<nat>, w: World, step: Step)
    requires WellEmitted(p, w) && Tracked(p, w) && (step.Arrive? || step.TakeLive? || step.HandOver?)
    ensures var v := Next(p, cursor, w, step);
            && (forall id :: Announced(p, v, id) <==> Announced(p, w, id))
            && (forall n :: n in v.queue || v.taken == Some(n) || v.current == Some(n) ==> n.target == p)
  {
    var v := Next(p, cursor, w, step);
    if step.Arrive? && w.wire != [] {
      assert forall n :: n in w.wire <==> n == w.wire[0] || n in v.wire;
    } else if step.TakeLive? && v != w {
      assert forall n :: n in w.queue <==> n == w.queue[0] || n in v.queue;
    }
  }

  lemma AckKeepsTracked(p: nat, cursor: Option<nat>, w: World, id: nat)
    requires WellEmitted(p, w) && Tracked(p, w)
    ensures Tracked(p, Next(p, cursor, w, Ack(id)))
  {
    AcknowledgeKeepsCount(w.deliveries, id, p);
    AcknowledgeKeepsOwner(w.deliveries, id, p);
  }

  lemma EmitKeepsTracked(p: nat, cursor: Option<nat>, w: World)
    requires Tracked(p, w)
    ensures Tracked(p, Next(p, cursor, w, EmitReplayed))
  {
    if w.phase.Replaying? && w.pending != [] {
      assert forall d :: d in w.pending <==> d == w.pending[0] || d in w.pending[1..];
    }
  }

  lemma HeartbeatKeepsTracked(p: nat, cursor: Option<nat>, w: World)
    requires Tracked(p, w)
    ensures Tracked(p, Next(p, cursor, w, Heartbeat))
  {
    var v := Next(p, cursor, w, Heartbeat);
    if w.taken.Some? {
      var n := w.taken.value;
      assert n == Note(n.id, p) && Announced(p, w, n.id);
      forall id | id in w.due && Handled(p, w, id) ensures Handled(p, v, id) {}
    }
  }

  lemma StepKeepsTracked(p: nat, cursor: Option<nat>, w: World, step: Step)
    requires WellEmitted(p, w) && Tracked(p, w)
    ensures Tracked(p, Next(p, cursor, w, step))
  {
    match step
    case Create(id, target, now) => CreateKeepsTracked(p, cursor, w, id, target, now);
    case Ack(id) => AckKeepsTracked(p, cursor, w, id);
    case Replay => if w.phase.Listening? { ReplayKeepsTracked(p, cursor, w); }
    case EmitReplayed => EmitKeepsTracked(p, cursor, w);
    case FetchLive => FetchKeepsTracked(p, cursor, w);
    case Subscribe =>
    case Arrive => MoveNotes(p, cursor, w, step);
    case TakeLive => MoveNotes(p, cursor, w, step);
    case HandOver => MoveNotes(p, cursor, w, step);
    case Heartbeat => HeartbeatKeepsTracked(p, cursor, w);
  }

  lemma {:induction false} AlwaysTracked(p: nat, cursor: Option<nat>, steps: seq<Step>)
    ensures Tracked(p, Run(p, cursor, steps))
  {
    if steps != [] {
      EmittedOnceToOwner(p, cursor, steps[..|steps| - 1]);
      AlwaysTracked(p, cursor, steps[..|steps| - 1]);
      StepKeepsTracked(p, cursor, Run(p, cursor, steps[..|steps| - 1]), steps[|steps| - 1]);
    }
  }

  // ---- what a heartbeat drops is gone -----------------------------------------------------

  /** How many announcements of a delivery are under way. */
  function Underway(w: World, n: Note): nat {
    multiset(w.wire)[n] + multiset(w.queue)[n]
    + (if w.taken == Some(n) then 1 else 0) + (if w.current == Some(n) then 1 else 0)
  }

  /** A delivery is announced once, and one that was dropped is neither announced nor seen. */
  ghost predicate OnceOnly(p: nat, w: World) {
    forall id :: Underway(w, Note(id, p)) <= 1
      && (id in w.dropped ==> Underway(w, Note(id, p)) == 0 && id !in w.seen)
  }

  lemma UnderwayIffAnnounced(p: nat, w: World, id: nat)
    ensures Announced(p, w, id) <==> Underway(w, Note(id, p)) > 0
  {
  }

  lemma FirstCounts<T>(s: seq<T>, x: T)
    requires s != []
    ensures multiset(s)[x] == multiset(s[1..])[x] + if s[0] == x then 1 else 0
  {
    assert s == [s[0]] + s[1..];
  }

  lemma LastCounts<T>(s: seq<T>, y: T, x: T)
    ensures multiset(s + [y])[x] == multiset(s)[x] + if y == x then 1 else 0
  {
  }

  lemma ArriveKeepsUnderway(p: nat, cursor: Option<nat>, w: World, id: nat)
    ensures Underway(Next(p, cursor, w, Arrive), Note(id, p)) == Underway(w, Note(id, p))
  {
    if w.wire != [] {
      FirstCounts(w.wire, Note(id, p));
      LastCounts(w.queue, w.wire[0], Note(id, p));
    }
  }

  /** Moving an announcement along changes no count of the principal's. */
  lemma MovesKeepUnderway(p: nat, cursor: Option<nat>, w: World, step: Step, id: nat)
    requires WellEmitted(p, w) && (step.Arrive? || step.TakeLive? || step.HandOver?)
    ensures Underway(Next(p, cursor, w, step), Note(id, p)) == Underway(w, Note(id, p))
  {
    if step.Arrive? {
      ArriveKeepsUnderway(p, cursor, w, id);
    } else if step.TakeLive? && w.queue != [] {
      FirstCounts(w.queue, Note(id, p));
    }
  }

  lemma CreateKeepsOnce(p: nat, cursor: Option<nat>, w: World, id: nat, target: nat, now: int)
    requires WellEmitted(p, w) && Tracked(p, w) && OnceOnly(p, w)
    ensures OnceOnly(p, Next(p, cursor, w, Create(id, target, now)))
  {
    var v := Next(p, cursor, w, Create(id, target, now));
    if v != w && !w.phase.Connecting? {
      forall x | Belongs(w.deliveries, p, x) ensures x in IdsOf(w.deliveries) {
        var i :| 0 <= i < |w.deliveries| && w.deliveries[i].id == x && w.deliveries[i].target == p;
      }
      UnderwayIffAnnounced(p, w, id);
      assert id !in w.due;
      forall x ensures multiset(v.wire)[Note(x, p)]
                    == multiset(w.wire)[Note(x, p)] + if Note(id, target) == Note(x, p) then 1 else 0 {}
    }
  }

  lemma StepKeepsOnce(p: nat, cursor: Option<nat>, w: World, step: Step)
    requires WellEmitted(p, w) && Tracked(p, w) && OnceOnly(p, w)
    ensures OnceOnly(p, Next(p, cursor, w, step))
  {
    match step
    case Create(id, target, now) => CreateKeepsOnce(p, cursor, w, id, target, now);
    case Ack(id) =>
    case Subscribe =>
    case Replay =>
    case EmitReplayed =>
    case FetchLive => FetchKeepsOnce(p, cursor, w);
    case Heartbeat => HeartbeatKeepsOnce(p, cursor, w);
    case _ =>
      forall id ensures Underway(Next(p, cursor, w, step), Note(id, p)) == Underway(w, Note(id, p)) {
        MovesKeepUnderway(p, cursor, w, step, id);
      }
  }

  lemma FetchUses(p: nat, cursor: Option<nat>, w: World)
    requires w.current.Some?
    ensures var v := Next(p, cursor, w, FetchLive);
      && v.wire == w.wire && v.queue == w.queue && v.taken == w.taken && v.current == None
      && v.dropped == w.dropped && v.seen <= w.seen + {w.current.value.id}
  {
  }

  lemma UsedOnce(p: nat, w: World, v: World)
    requires Tracked(p, w) && OnceOnly(p, w) && w.current.Some?
    requires v.wire == w.wire && v.queue == w.queue && v.taken == w.taken && v.current == None
    requires v.dropped == w.dropped && v.seen <= w.seen + {w.current.value.id}
    ensures OnceOnly(p, v)
  {
    var n := w.current.value;
    assert n == Note(n.id, p) && Underway(w, n) >= 1;
    forall id ensures Underway(v, Note(id, p)) <= Underway(w, Note(id, p)) {}
  }

  lemma FetchKeepsOnce(p: nat, cursor: Option<nat>, w: World)
    requires Tracked(p, w) && OnceOnly(p, w)
    ensures OnceOnly(p, Next(p, cursor, w, FetchLive))
  {
    if w.current.Some? {
      FetchUses(p, cursor, w);
      UsedOnce(p, w, Next(p, cursor, w, FetchLive));
    }
  }

  lemma HeartbeatKeepsOnce(p: nat, cursor: Option<nat>, w: World)
    requires Tracked(p, w) && OnceOnly(p, w)
    ensures OnceOnly(p, Next(p, cursor, w, Heartbeat))
  {
    var v := Next(p, cursor, w, Heartbeat);
    if w.taken.Some? {
      var n := w.taken.value;
      assert n == Note(n.id, p) && Underway(w, n) == 1 && Underway(v, n) == 0;
      forall id ensures Underway(v, Note(id, p)) <= Underway(w, Note(id, p)) {}
    }
  }

  lemma {:induction false} AlwaysOnce(p: nat, cursor: Option<nat>, steps: seq<Step>)
    ensures OnceOnly(p, Run(p, cursor, steps))
  {
    if steps != [] {
      EmittedOnceToOwner(p, cursor, steps[..|steps| - 1]);
      AlwaysTracked(p, cursor, steps[..|steps| - 1]);
      AlwaysOnce(p, cursor, steps[..|steps| - 1]);
      StepKeepsOnce(p, cursor, Run(p, cursor, steps[..|steps| - 1]), steps[|steps| - 1]);
    }
  }

  /** The wait times out after the task took an unseen announcement, which nobody then uses. */
  predicate Drops(w: World, step: Step, id: nat) {
    step.Heartbeat? && w.taken.Some? && w.taken.value.id == id && id !in w.seen
  }

  predicate DropsAt(p: nat, cursor: Option<nat>, steps: seq<Step>, k: nat, id: nat)
    requires k < |steps|
  {
    Drops(Run(p, cursor, steps[..k]), steps[k], id)
  }

  lemma StepDrops(p: nat, cursor: Option<nat>, w: World, step: Step, id: nat)
    ensures id in Next(p, cursor, w, step).dropped <==> id in w.dropped || Drops(w, step, id)
  {
  }

  lemma {:induction false} DroppedByHeartbeat(p: nat, cursor: Option<nat>, steps: seq<Step>, id: nat)
    ensures id in Run(p, cursor, steps).dropped <==> exists k :: 0 <= k < |steps| && DropsAt(p, cursor, steps, k, id)
  {
    if steps != [] {
      var before, last := steps[..|steps| - 1], |steps| - 1;
      DroppedByHeartbeat(p, cursor, before, id);
      StepDrops(p, cursor, Run(p, cursor, before), steps[last], id);
      assert DropsAt(p, cursor, steps, last, id) <==> Drops(Run(p, cursor, before), steps[last], id);
      forall k | 0 <= k < last ensures DropsAt(p, cursor, before, k, id) <==> DropsAt(p, cursor, steps, k, id) {
        assert before[..k] == steps[..k];
      }
    }
  }

  /** The stream is live and every announcement has travelled, arrived and been handled. */
  ghost predicate Drained(w: World) {
    w.phase.Live? && w.wire == [] && w.queue == [] && w.taken.None? && w.current.None?
  }

  /**
   If the principal has no more than 50 deliveries, a drained stream has emitted everything
   that was unacknowledged and after the cursor when it replayed, and everything created for
   the principal since it subscribed, except exactly what a heartbeat dropped.
   */
  lemma LostExactlyWhenDropped(p: nat, cursor: Option<nat>, steps: seq<Step>)
    requires var w := Run(p, cursor, steps); Drained(w) && Count(w.deliveries, p) <= 50
    ensures var w := Run(p, cursor, steps);
            && w.seen == w.owed + w.due - w.dropped && Elements(w.emitted) == w.seen && NoDup(w.emitted)
            && (w.owed <= w.seen && w.due <= w.seen <==> w.dropped == {})
  {
    EmittedOnceToOwner(p, cursor, steps);
    AlwaysTracked(p, cursor, steps);
    AlwaysOnce(p, cursor, steps);
    var w := Run(p, cursor, steps);
    assert w.pending == [];
    forall id | id in w.due ensures Handled(p, w, id) && !Announced(p, w, id) {}
    assert w.owed <= w.seen;
    assert forall id :: id in w.dropped ==> id in w.due && id !in w.seen;
  }

  /** The shortest losing run: one delivery, taken just as the wait for it times out. */
  function LosingRun(p: nat, id: nat, now: int, n: nat): seq<Step> {
    [Subscribe, Replay, EmitReplayed, Create(id, p, now), Arrive, TakeLive, Heartbeat][..if n < 7 then n else 7]
  }

  lemma LosingSnoc(p: nat, cursor: Option<nat>, id: nat, now: int, n: nat)
    requires n < 7
    ensures Run(p, cursor, LosingRun(p, id, now, n + 1))
         == Next(p, cursor, Run(p, cursor, LosingRun(p, id, now, n)), LosingRun(p, id, now, 7)[n])
  {
    var steps := LosingRun(p, id, now, n + 1);
    assert steps[..n] == LosingRun(p, id, now, n) && steps[n] == LosingRun(p, id, now, 7)[n];
  }

  lemma LosingRunReplays(p: nat, cursor: Option<nat>, id: nat, now: int)
    ensures Run(p, cursor, LosingRun(p, id, now, 3)) == INIT.(phase := Live)
  {
    assert LosingRun(p, id, now, 0) == [];
    LosingSnoc(p, cursor, id, now, 0);
    LosingSnoc(p, cursor, id, now, 1);
    LosingSnoc(p, cursor, id, now, 2);
    ListMembers([], p, true, cursor);
    var listed := List([], p, true, cursor, LIMIT);
    forall d ensures d !in listed {}
    assert listed == [];
    assert Owed([], p, cursor) == {};
    assert IdsOf([]) == {};
  }

  lemma OneIsAnnounced(p: nat, cursor: Option<nat>, id: nat, now: int)
    ensures Next(p, cursor, INIT.(phase := Live), Create(id, p, now))
         == INIT.(phase := Live, deliveries := [Delivery(id, p, now, false)], wire := [Note(id, p)], due := {id})
  {
  }

  lemma OneIsTaken(p: nat, cursor: Option<nat>, w: World, n: Note)
    requires w.phase.Live? && w.wire == [n] && w.queue == [] && w.taken == w.current == None && n.target == p
    ensures Next(p, cursor, Next(p, cursor, w, Arrive), TakeLive) == w.(wire := [], taken := Some(n))
  {
    assert [n][1..] == [] && [] + [n] == [n];
  }

  lemma LosingRunTakes(p: nat, cursor: Option<nat>, id: nat, now: int)
    ensures Run(p, cursor, LosingRun(p, id, now, 6))
         == INIT.(phase := Live, deliveries := [Delivery(id, p, now, false)], taken := Some(Note(id, p)), due := {id})
  {
    LosingRunReplays(p, cursor, id, now);
    LosingSnoc(p, cursor, id, now, 3);
    LosingSnoc(p, cursor, id, now, 4);
    LosingSnoc(p, cursor, id, now, 5);
    OneIsAnnounced(p, cursor, id, now);
    OneIsTaken(p, cursor, Run(p, cursor, LosingRun(p, id, now, 4)), Note(id, p));
  }

  /** A principal with one delivery, everything drained, and the delivery was never emitted. */
  lemma HeartbeatLosesDelivery(p: nat, cursor: Option<nat>, id: nat, now: int)
    ensures var w := Run(p, cursor, LosingRun(p, id, now, 7));
            && Drained(w) && w.deliveries == [Delivery(id, p, now, false)] && Count(w.deliveries, p) == 1
            && w.due == {id} && w.emitted == []
  {
    LosingRunTakes(p, cursor, id, now);
    LosingSnoc(p, cursor, id, now, 6);
    var d := Delivery(id, p, now, false);
    assert [d][..0] == [] && Count([], p) == 0;
    assert Count([d], p) == 1;
  }

  // ---- exactly what is emitted under a clock that never goes back -------------------------

  ghost predicate Steady(ds: seq<Delivery>) {
    Ascending(ds, (d: Delivery) => d.createdAt)
  }

  /** How many of the principal's deliveries were created before the one with this id. */
  function Rank(ds: seq<Delivery>, p: nat, id: nat): nat {
    if ds == [] then 0
    else if ds[|ds| - 1].id == id then Count(ds[..|ds| - 1], p)
    else Rank(ds[..|ds| - 1], p, id)
  }

  lemma {:induction false} RankIsIndex(ds: seq<Delivery>, p: nat, id: nat)
    requires Unique(ds) && Belongs(ds, p, id)
    ensures var selected := Select(ds, p, false, None);
      Rank(ds, p, id) < |selected| == Count(ds, p) && selected[Rank(ds, p, id)].id == id
  {
    CountSelected(ds, p);
    var i :| 0 <= i < |ds| && ds[i].id == id && ds[i].target == p;
    var front := ds[..|ds| - 1];
    CountSelected(front, p);
    if i < |ds| - 1 {
      assert front[i].id == id && front[i].target == p;
      RankIsIndex(front, p, id);
    }
  }

  lemma ListedIffEarly(ds: seq<Delivery>, p: nat, id: nat)
    requires Unique(ds) && Steady(ds) && Belongs(ds, p, id)
    ensures id in IdsOf(List(ds, p, false, None, LIMIT)) <==> Rank(ds, p, id) < 50
  {
    SortByKeepsSorted(ds, (d: Delivery) => d.createdAt);
    RankIsIndex(ds, p, id);
    SelectMembers(ds, p, false, None);
    var selected, r := Select(ds, p, false, None), Rank(ds, p, id);
    var listed := Take(selected, LIMIT);
    if r < LIMIT { assert listed[r].id == id; }
    if id in IdsOf(listed) {
      var d :| d in listed && d.id == id;
      assert selected[Position(listed, d)].id == id;
    }
  }

  lemma {:induction false} AcknowledgeKeepsRank(ds: seq<Delivery>, id: nat, p: nat, x: nat)
    ensures Rank(Acknowledge(ds, id), p, x) == Rank(ds, p, x)
  {
    if ds != [] {
      var es := Acknowledge(ds, id);
      assert es[..|es| - 1] == Acknowledge(ds[..|ds| - 1], id);
      AcknowledgeKeepsCount(ds[..|ds| - 1], id, p);
      AcknowledgeKeeps(ds[..|ds| - 1], id);
      AcknowledgeKeepsRank(ds[..|ds| - 1], id, p, x);
    }
  }

  /** As long as the clock was steady, only early deliveries are emitted live, and all of them. */
  ghost predicate Exact(p: nat, w: World) {
    Steady(w.deliveries) ==>
      && (forall id :: id in w.due ==>
            Handled(p, w, id) || Rank(w.deliveries, p, id) >= LIMIT)
      && (forall id :: id in w.seen ==>
            id in w.replayed || (id in w.due && Rank(w.deliveries, p, id) < LIMIT))
  }

  lemma CreateKeepsExact(p: nat, cursor: Option<nat>, w: World, id: nat, target: nat, now: int)
    requires WellEmitted(p, w) && Tracked(p, w) && Exact(p, w)
    ensures Exact(p, Next(p, cursor, w, Create(id, target, now)))
  {
    var v := Next(p, cursor, w, Create(id, target, now));
    if v != w && Steady(v.deliveries) {
      assert v.deliveries[..|w.deliveries|] == w.deliveries;
      forall i, j | 0 <= i < j < |w.deliveries| ensures w.deliveries[i].createdAt <= w.deliveries[j].createdAt {
        assert v.deliveries[i] == w.deliveries[i] && v.deliveries[j] == w.deliveries[j];
      }
      if !w.phase.Connecting? { SentIsAnnounced(p, w, v, Note(id, target)); }
      forall x | Belongs(w.deliveries, p, x) ensures x != id && Rank(v.deliveries, p, x) == Rank(w.deliveries, p, x) {
        assert x in IdsOf(w.deliveries);
      }
    }
  }

  lemma AcknowledgeKeepsClock(ds: seq<Delivery>, id: nat, p: nat)
    ensures Steady(Acknowledge(ds, id)) ==> Steady(ds)
  {
    AcknowledgeKeeps(ds, id);
    var es := Acknowledge(ds, id);
    if Steady(es) {
      forall i, j | 0 <= i < j < |es| ensures ds[i].createdAt <= ds[j].createdAt {
        assert es[i].createdAt <= es[j].createdAt;
      }
    }
  }

  lemma AckKeepsExact(p: nat, cursor: Option<nat>, w: World, id: nat)
    requires Exact(p, w)
    ensures Exact(p, Next(p, cursor, w, Ack(id)))
  {
    AcknowledgeKeepsClock(w.deliveries, id, p);
    forall x ensures Rank(Acknowledge(w.deliveries, id), p, x) == Rank(w.deliveries, p, x) {
      AcknowledgeKeepsRank(w.deliveries, id, p, x);
    }
  }

  lemma FetchKeepsExact(p: nat, cursor: Option<nat>, w: World)
    requires WellEmitted(p, w) && Tracked(p, w) && Exact(p, w)
    ensures Exact(p, Next(p, cursor, w, FetchLive))
  {
    if w.current.Some? && Steady(w.deliveries) {
      var v := Next(p, cursor, w, FetchLive);
      var n := w.current.value;
      assert n == Note(n.id, p) && Announced(p, w, n.id);
      ListedIffEarly(w.deliveries, p, n.id);
      assert v.deliveries == w.deliveries && v.due == w.due && v.seen <= w.seen + {n.id};
      forall id | Handled(p, w, id) && id != n.id ensures Handled(p, v, id) {}
    }
  }

  lemma HeartbeatKeepsExact(p: nat, cursor: Option<nat>, w: World)
    requires Tracked(p, w) && Exact(p, w)
    ensures Exact(p, Next(p, cursor, w, Heartbeat))
  {
    var v := Next(p, cursor, w, Heartbeat);
    if w.taken.Some? {
      var n := w.taken.value;
      assert n == Note(n.id, p);
      forall id | Handled(p, w, id) ensures Handled(p, v, id) {}
    }
  }

  lemma StepKeepsExact(p: nat, cursor: Option<nat>, w: World, step: Step)
    requires WellEmitted(p, w) && Tracked(p, w) && Exact(p, w)
    ensures Exact(p, Next(p, cursor, w, step))
  {
    match step
    case Create(id, target, now) => CreateKeepsExact(p, cursor, w, id, target, now);
    case Ack(id) => AckKeepsExact(p, cursor, w, id);
    case EmitReplayed =>
      if w.phase.Replaying? && w.pending != [] {
        assert w.pending[0].id in IdsOf(w.pending);
      }
    case FetchLive => FetchKeepsExact(p, cursor, w);
    case Arrive => MoveNotes(p, cursor, w, step);
    case TakeLive => MoveNotes(p, cursor, w, step);
    case HandOver => MoveNotes(p, cursor, w, step);
    case Heartbeat => HeartbeatKeepsExact(p, cursor, w);
    case _ =>
  }

  lemma {:induction false} AlwaysExact(p: nat, cursor: Option<nat>, steps: seq<Step>)
    ensures Exact(p, Run(p, cursor, steps))
  {
    if steps != [] {
      var before := steps[..|steps| - 1];
      EmittedOnceToOwner(p, cursor, before);
      AlwaysTracked(p, cursor, before);
      AlwaysExact(p, cursor, before);
      StepKeepsExact(p, cursor, Run(p, cursor, before), steps[|steps| - 1]);
    }
  }

  /**
   In general the live half looks only at the 50 oldest deliveries of the principal: a drained
   stream has emitted a delivery exactly when the replay listed it or it was created since the
   subscription with fewer than 50 of the principal's deliveries before it and no heartbeat
   dropped it.
   */
  lemma EmittedExactly(p: nat, cursor: Option<nat>, steps: seq<Step>, id: nat)
    requires var w := Run(p, cursor, steps); Drained(w) && Steady(w.deliveries)
    ensures var w := Run(p, cursor, steps);
            id in w.seen <==>
              id in w.replayed || (id in w.due && Rank(w.deliveries, p, id) < 50 && id !in w.dropped)
  {
    EmittedOnceToOwner(p, cursor, steps);
    AlwaysTracked(p, cursor, steps);
    AlwaysOnce(p, cursor, steps);
    AlwaysExact(p, cursor, steps);
    var w := Run(p, cursor, steps);
    assert w.pending == [];
  }
}
