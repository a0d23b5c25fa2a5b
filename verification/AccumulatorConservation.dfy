/**
 Where buffered accumulator entries go while inline and timed flushes of any number of
 processes interleave and crash: nothing is lost, taken twice or confirmed without having been
 executed; but what a failed or crashed flush had claimed stays claimed for good.
 */
module AccumulatorConservation {
  import opened Wrappers
  import opened MemoryBackend
  import opened DispatchProtocol
  import opened Sorting

  /** The batch a process has claimed and not yet confirmed. */
  function Held(p: Proc): seq<Entry> {
    if p.Running? && (p.phase.Flushing? || p.phase.Confirming?) then p.phase.entries
    else if p.FlushClaimed? || p.FlushExecuted? then p.entries
    else []
  }

  predicate HeldExecuted(p: Proc) {
    p.FlushExecuted? || (p.Running? && p.phase.Confirming?)
  }

  /** Every entry ever buffered is unclaimed, claimed or confirmed, and only one of these. */
  ghost predicate Partitioned(w: World) {
    && DistinctIds(w.store.accumulator)
    && w.store.claimed <= Ids(w.store.accumulator)
    && Ids(w.store.accumulator) !! w.confirmed
    && w.buffered == Ids(w.store.accumulator) + w.confirmed
  }

  ghost predicate HoldsWell(w: World, p: Proc) {
    && Ids(Held(p)) <= w.store.claimed
    && |Held(p)| <= CLAIM_LIMIT && DistinctIds(Held(p))
    && (HeldExecuted(p) ==> Ids(Held(p)) <= w.executed)
  }

  ghost predicate Conserved(w: World) {
    && Partitioned(w)
    && w.confirmed <= w.executed
    && (forall k :: 0 <= k < |w.procs| ==> HoldsWell(w, w.procs[k]))
    && (forall j, k :: 0 <= j < k < |w.procs| ==> Ids(Held(w.procs[j])) !! Ids(Held(w.procs[k])))
  }

  /** How a call may treat the accumulator, given what its process holds before and after. */
  ghost predicate FairCall(w: World, p: Proc, r: Proc, e: Effect) {
    match e
    case Insert(_, entry) => entry.id !in w.buffered && Held(p) == Held(r) == []
    case ClaimEntries(entries) =>
      && Held(p) == [] && Held(r) == entries && !HeldExecuted(r)
      && exists a :: entries == Claimable(w.store, a, CLAIM_LIMIT)
    case ExecuteEntries(entries) => Held(p) == Held(r) == entries
    case ConfirmEntries(entries) => Held(p) == entries && HeldExecuted(p) && Held(r) == []
    case _ => Held(r) == [] || (Held(r) == Held(p) && (HeldExecuted(r) ==> HeldExecuted(p)))
  }

  lemma ActionIsFair(w: World, p: Proc, entryId: nat, createdAt: int, ok: bool)
    requires Working(p)
    ensures var (r, e) := RunAction(w.store, w.buffered, p, entryId, createdAt, ok);
            FairCall(w, p, r, e)
  {
  }

  lemma CallIsFair(setup: Setup, w: World, k: nat, entryId: nat, createdAt: int, ok: bool)
    requires k < |w.procs|
    ensures var (r, e) := Progress(setup, w, k, entryId, createdAt, ok);
            FairCall(w, w.procs[k], r, e)
  {
    if Working(w.procs[k]) {
      ActionIsFair(w, w.procs[k], entryId, createdAt, ok);
    }
  }

  lemma EffectKeepsPartition(w: World, p: Proc, r: Proc, e: Effect)
    requires Partitioned(w) && w.confirmed <= w.executed && HoldsWell(w, p) && FairCall(w, p, r, e)
    ensures Partitioned(Apply(w, e)) && Apply(w, e).confirmed <= Apply(w, e).executed
    ensures HoldsWell(Apply(w, e), r)
    ensures w.store.claimed - Ids(Held(p)) <= Apply(w, e).store.claimed && w.executed <= Apply(w, e).executed
    ensures Ids(Held(r)) <= Ids(Held(p)) + (Ids(w.store.accumulator) - w.store.claimed)
  {
    match e
    case Insert(_, entry) =>
      assert entry.id !in Ids(w.store.accumulator);
      PutFresh(w.store.accumulator, entry);
      InsertKeepsDistinct(w.store.accumulator, entry);
    case ClaimEntries(entries) =>
      var a :| entries == Claimable(w.store, a, CLAIM_LIMIT);
      ClaimTakesOldest(w.store, a, CLAIM_LIMIT);
    case ConfirmEntries(entries) => RemoveHeld(w.store.accumulator, Ids(entries));
    case _ =>
  }

  lemma InsertKeepsDistinct(entries: seq<Entry>, e: Entry)
    requires DistinctIds(entries) && e.id !in Ids(entries)
    ensures DistinctIds(entries + [e]) && Ids(entries + [e]) == Ids(entries) + {e.id}
  {
    var longer := entries + [e];
    assert forall x :: x in longer <==> x in entries || x == e;
    forall i | 0 <= i < |entries| ensures entries[i].id != e.id { assert entries[i].id in Ids(entries); }
  }

  lemma RemoveHeld(entries: seq<Entry>, ids: set<nat>)
    requires DistinctIds(entries)
    ensures DistinctIds(Without(entries, ids)) && Ids(Without(entries, ids)) == Ids(entries) - ids
  {
    WithoutMembers(entries, ids);
  }

  /** A call changes the shared data as if its process had stayed, and of the processes only its own. */
  lemma MovedAlike(w: World, k: nat, r: Proc, e: Effect)
    requires k < |w.procs|
    ensures var v, t := Apply(w.(procs := w.procs[k := r]), e), Apply(w, e);
      && v.store == t.store && v.executed == t.executed && v.confirmed == t.confirmed && v.buffered == t.buffered
      && |v.procs| >= |w.procs| && v.procs[k] == r
      && (forall j :: 0 <= j < |w.procs| && j != k ==> v.procs[j] == w.procs[j])
      && (forall j :: |w.procs| <= j < |v.procs| ==> v.procs[j].FlushDue?)
  {
  }

  lemma AdvanceKeepsConserved(w: World, k: nat, r: Proc, e: Effect)
    requires Conserved(w) && k < |w.procs| && FairCall(w, w.procs[k], r, e)
    ensures Conserved(Apply(w.(procs := w.procs[k := r]), e))
  {
    var v := Apply(w.(procs := w.procs[k := r]), e);
    EffectKeepsPartition(w, w.procs[k], r, e);
    MovedAlike(w, k, r, e);
    forall j | 0 <= j < |v.procs| ensures HoldsWell(v, v.procs[j]) {
      if j < |w.procs| && j != k {
        OthersHold(w, v, j, k);
      }
    }
    forall i, j | 0 <= i < j < |v.procs| ensures Ids(Held(v.procs[i])) !! Ids(Held(v.procs[j])) {
      if j < |w.procs| {
        assert HoldsWell(w, w.procs[i]) && HoldsWell(w, w.procs[j]);
      }
    }
  }

  lemma OthersHold(w: World, v: World, j: nat, k: nat)
    requires Conserved(w) && j < |w.procs| && k < |w.procs| && j != k
    requires w.store.claimed - Ids(Held(w.procs[k])) <= v.store.claimed && w.executed <= v.executed
    ensures HoldsWell(v, w.procs[j])
  {
    assert HoldsWell(w, w.procs[j]);
    assert Ids(Held(w.procs[j])) !! Ids(Held(w.procs[k]));
  }

  lemma CrashKeepsConserved(setup: Setup, w: World, k: nat)
    requires Conserved(w)
    ensures Conserved(Next(setup, w, Crash(k)))
  {
    var v := Next(setup, w, Crash(k));
    assert forall j | 0 <= j < |v.procs| :: v.procs[j] == w.procs[j] || Held(v.procs[j]) == [];
    assert forall p :: HoldsWell(w, p) ==> HoldsWell(v, p);
  }

  lemma StepKeepsConserved(setup: Setup, w: World, step: Step)
    requires Conserved(w)
    ensures Conserved(Next(setup, w, step))
  {
    match step
    case Append(ev) =>
      var v := Next(setup, w, step);
      assert forall p :: HoldsWell(w, p) ==> HoldsWell(v, p);
    case Advance(k, entryId, createdAt, ok) =>
      if k < |w.procs| {
        var (r, e) := Progress(setup, w, k, entryId, createdAt, ok);
        CallIsFair(setup, w, k, entryId, createdAt, ok);
        AdvanceKeepsConserved(w, k, r, e);
      }
    case Crash(k) => CrashKeepsConserved(setup, w, k);
  }

  /**
   In every run: each buffered entry is in exactly one of unclaimed, claimed and confirmed; the
   batches in flight are disjoint, duplicate-free and at most 100 long; and whatever has been
   confirmed was executed without an exception.
   */
  lemma {:induction false} EntriesConserved(setup: Setup, steps: seq<Step>)
    ensures Conserved(Run(setup, steps))
    ensures forall k :: 0 <= k < |Run(setup, steps).procs| ==> |Held(Run(setup, steps).procs[k])| <= 100
  {
    if steps != [] {
      EntriesConserved(setup, steps[..|steps| - 1]);
      StepKeepsConserved(setup, Run(setup, steps[..|steps| - 1]), steps[|steps| - 1]);
    }
  }

  // ---- a failed flush strands its batch ---------------------------------------------------

  ghost predicate Stranded(w: World, id: nat) {
    && id in w.store.claimed && id !in w.executed
    && forall k :: 0 <= k < |w.procs| ==> id !in Ids(Held(w.procs[k]))
  }

  lemma CallKeepsStranded(w: World, k: nat, r: Proc, e: Effect, id: nat)
    requires Conserved(w) && Stranded(w, id) && k < |w.procs| && FairCall(w, w.procs[k], r, e)
    ensures Stranded(Apply(w.(procs := w.procs[k := r]), e), id)
  {
    assert HoldsWell(w, w.procs[k]);
    EffectKeepsPartition(w, w.procs[k], r, e);
    MovedAlike(w, k, r, e);
    assert id !in Ids(Held(w.procs[k])) && id !in Ids(Held(r));
  }

  lemma StrandedStays(setup: Setup, w: World, step: Step, id: nat)
    requires Conserved(w) && Stranded(w, id)
    ensures Stranded(Next(setup, w, step), id)
  {
    match step
    case Append(ev) =>
    case Advance(k, entryId, createdAt, ok) =>
      if k < |w.procs| {
        var (r, e) := Progress(setup, w, k, entryId, createdAt, ok);
        CallIsFair(setup, w, k, entryId, createdAt, ok);
        CallKeepsStranded(w, k, r, e, id);
      }
    case Crash(k) =>
  }

  /**
   Once a flush has failed or crashed before its execution succeeded, the entries it had
   claimed are never executed or confirmed, whatever happens afterwards.
   */
  lemma {:induction false} FailedFlushIsNeverRetried(setup: Setup, w: World, steps: seq<Step>, id: nat)
    requires Conserved(w) && Stranded(w, id)
    ensures Conserved(RunFrom(setup, w, steps)) && Stranded(RunFrom(setup, w, steps), id)
  {
    if steps != [] {
      FailedFlushIsNeverRetried(setup, w, steps[..|steps| - 1], id);
      var v := RunFrom(setup, w, steps[..|steps| - 1]);
      StepKeepsConserved(setup, v, steps[|steps| - 1]);
      StrandedStays(setup, v, steps[|steps| - 1], id);
    }
  }

  // ---- exactly what strands an entry ------------------------------------------------------

  /** The process drops what it holds unexecuted: it crashes, or the execution raises. */
  ghost predicate Drops(w: World, step: Step, id: nat) {
    && (step.Crash? || (step.Advance? && !step.ok))
    && step.k < |w.procs| && !HeldExecuted(w.procs[step.k]) && id in Ids(Held(w.procs[step.k]))
  }

  /** What has been executed is claimed or confirmed, and no held batch is executed before its time. */
  ghost predicate ExecutedOnce(w: World) {
    && w.executed <= w.store.claimed + w.confirmed
    && (forall k :: 0 <= k < |w.procs| ==> HoldsFresh(w, w.procs[k]))
  }

  ghost predicate HoldsFresh(w: World, p: Proc) {
    && (!HeldExecuted(p) ==> Ids(Held(p)) !! w.executed)
    && (p.Running? && Held(p) != [] ==> Working(p))
  }

  /** A batch is claimed before any of it is executed. */
  lemma ClaimedIsFresh(w: World, a: nat)
    requires Conserved(w) && w.executed <= w.store.claimed + w.confirmed
    ensures Ids(Claimable(w.store, a, CLAIM_LIMIT)) !! w.executed
  {
    ClaimTakesOldest(w.store, a, CLAIM_LIMIT);
    forall x | x in Claimable(w.store, a, CLAIM_LIMIT) ensures x.id !in w.executed {
      assert x.id in Ids(w.store.accumulator) && x.id !in w.store.claimed;
    }
  }

  lemma CallKeepsFresh(w: World, p: Proc, r: Proc, e: Effect)
    requires Conserved(w) && w.executed <= w.store.claimed + w.confirmed
    requires HoldsWell(w, p) && HoldsFresh(w, p) && FairCall(w, p, r, e)
    requires KeepsHold(p, r, e)
    ensures HoldsFresh(Apply(w, e), r)
    ensures Apply(w, e).executed <= Apply(w, e).store.claimed + Apply(w, e).confirmed
  {
    if e.ClaimEntries? {
      var a :| e.entries == Claimable(w.store, a, CLAIM_LIMIT);
      ClaimedIsFresh(w, a);
    }
  }

  /** A holder goes on working, and what it has executed it does not hold as unexecuted again. */
  ghost predicate KeepsHold(p: Proc, r: Proc, e: Effect) {
    && (r.Running? && Held(r) != [] ==> Working(r))
    && (e.ExecuteEntries? ==> HeldExecuted(r))
    && (HeldExecuted(p) && Held(r) == Held(p) ==> HeldExecuted(r) || Held(p) == [])
  }

  lemma CallKeepsHolding(setup: Setup, w: World, k: nat, entryId: nat, createdAt: int, ok: bool)
    requires k < |w.procs| && HoldsFresh(w, w.procs[k])
    ensures var (r, e) := Progress(setup, w, k, entryId, createdAt, ok); KeepsHold(w.procs[k], r, e)
  {
  }

  lemma OthersStayFresh(w: World, v: World, j: nat, k: nat)
    requires Conserved(w) && ExecutedOnce(w) && j < |w.procs| && k < |w.procs| && j != k
    requires v.executed <= w.executed + Ids(Held(w.procs[k]))
    ensures HoldsFresh(v, w.procs[j])
  {
    assert HoldsFresh(w, w.procs[j]);
    assert Ids(Held(w.procs[j])) !! Ids(Held(w.procs[k]));
  }

  lemma ExecutedIsHeld(w: World, p: Proc, r: Proc, e: Effect)
    requires FairCall(w, p, r, e)
    ensures Apply(w, e).executed <= w.executed + Ids(Held(p))
  {
  }

  lemma AdvanceKeepsExecuted(setup: Setup, w: World, k: nat, entryId: nat, createdAt: int, ok: bool)
    requires Conserved(w) && ExecutedOnce(w) && k < |w.procs|
    ensures ExecutedOnce(Next(setup, w, Advance(k, entryId, createdAt, ok)))
  {
    var v := Next(setup, w, Advance(k, entryId, createdAt, ok));
    var (r, e) := Progress(setup, w, k, entryId, createdAt, ok);
    assert HoldsWell(w, w.procs[k]) && HoldsFresh(w, w.procs[k]);
    CallIsFair(setup, w, k, entryId, createdAt, ok);
    CallKeepsHolding(setup, w, k, entryId, createdAt, ok);
    CallKeepsFresh(w, w.procs[k], r, e);
    ExecutedIsHeld(w, w.procs[k], r, e);
    MovedAlike(w, k, r, e);
    forall j | 0 <= j < |v.procs| ensures HoldsFresh(v, v.procs[j]) {
      if j < |w.procs| && j != k { OthersStayFresh(w, v, j, k); }
    }
  }

  lemma StepKeepsExecuted(setup: Setup, w: World, step: Step)
    requires Conserved(w) && ExecutedOnce(w)
    ensures ExecutedOnce(Next(setup, w, step))
  {
    if step.Advance? && step.k < |w.procs| {
      AdvanceKeepsExecuted(setup, w, step.k, step.entryId, step.createdAt, step.ok);
    } else {
      var v := Next(setup, w, step);
      forall j | 0 <= j < |v.procs| ensures HoldsFresh(v, v.procs[j]) {
        assert HoldsFresh(w, w.procs[j]);
      }
    }
  }

  /** A dropped entry stays claimed, unexecuted and held by nobody. */
  lemma DropStrands(setup: Setup, w: World, step: Step, id: nat)
    requires Conserved(w) && ExecutedOnce(w) && Drops(w, step, id)
    ensures Stranded(Next(setup, w, step), id)
  {
    var v := Next(setup, w, step);
    assert HoldsWell(w, w.procs[step.k]) && HoldsFresh(w, w.procs[step.k]);
    forall j | 0 <= j < |v.procs| ensures id !in Ids(Held(v.procs[j])) {
      if j != step.k { assert Ids(Held(w.procs[j])) !! Ids(Held(w.procs[step.k])); }
    }
  }

  /** A call that does not raise drops nothing that it held unexecuted. */
  lemma CallKeepsHold(setup: Setup, w: World, k: nat, entryId: nat, createdAt: int, ok: bool)
    requires k < |w.procs| && HoldsFresh(w, w.procs[k]) && ok && !HeldExecuted(w.procs[k]) && Held(w.procs[k]) != []
    ensures Held(Progress(setup, w, k, entryId, createdAt, ok).0) == Held(w.procs[k])
  {
  }

  lemma OnlyRaisingStrands(setup: Setup, w: World, k: nat, entryId: nat, createdAt: int, ok: bool, id: nat)
    requires Conserved(w) && ExecutedOnce(w) && k < |w.procs| && !Stranded(w, id)
    requires Stranded(Next(setup, w, Advance(k, entryId, createdAt, ok)), id)
    ensures !ok && !HeldExecuted(w.procs[k]) && id in Ids(Held(w.procs[k]))
  {
    var v := Next(setup, w, Advance(k, entryId, createdAt, ok));
    var (r, e) := Progress(setup, w, k, entryId, createdAt, ok);
    CallIsFair(setup, w, k, entryId, createdAt, ok);
    ApplyGrows(w.(procs := w.procs[k := r]), e);
    assert v.procs[k] == r && id !in Ids(Held(r));
    assert id in w.store.claimed && id !in w.executed;
    var j :| 0 <= j < |w.procs| && id in Ids(Held(w.procs[j]));
    assert HoldsWell(w, w.procs[j]) && HoldsFresh(w, w.procs[j]);
    assert v.procs[j] == w.procs[j] || j == k;
    if ok { CallKeepsHold(setup, w, k, entryId, createdAt, ok); }
  }

  lemma OnlyCrashStrands(setup: Setup, w: World, k: nat, id: nat)
    requires Conserved(w) && !Stranded(w, id) && Stranded(Next(setup, w, Crash(k)), id)
    ensures k < |w.procs| && !HeldExecuted(w.procs[k]) && id in Ids(Held(w.procs[k]))
  {
    var v := Next(setup, w, Crash(k));
    assert v.store == w.store && v.executed == w.executed && |v.procs| == |w.procs|;
    var j :| 0 <= j < |w.procs| && id in Ids(Held(w.procs[j]));
    assert HoldsWell(w, w.procs[j]);
    assert v.procs[j] == w.procs[j] || j == k;
  }

  lemma OnlyDropsStrand(setup: Setup, w: World, step: Step, id: nat)
    requires Conserved(w) && ExecutedOnce(w) && !Stranded(w, id) && Stranded(Next(setup, w, step), id)
    ensures Drops(w, step, id)
  {
    if step.Crash? {
      OnlyCrashStrands(setup, w, step.k, id);
    } else if step.Advance? && step.k < |w.procs| {
      OnlyRaisingStrands(setup, w, step.k, step.entryId, step.createdAt, step.ok, id);
    } else {
      IdleStepStrandsNothing(setup, w, step, id);
    }
  }

  lemma IdleStepStrandsNothing(setup: Setup, w: World, step: Step, id: nat)
    requires step.Append? || step.k >= |w.procs|
    ensures Stranded(Next(setup, w, step), id) <==> Stranded(w, id)
  {
  }

  ghost predicate DropsAt(setup: Setup, steps: seq<Step>, j: nat, id: nat)
    requires j < |steps|
  {
    Drops(Run(setup, steps[..j]), steps[j], id)
  }

  /** In some step the process that held the entry unexecuted crashed or its execution raised. */
  ghost predicate DroppedIn(setup: Setup, steps: seq<Step>, id: nat) {
    exists j :: 0 <= j < |steps| && DropsAt(setup, steps, j, id)
  }

  lemma DropsAtPrefix(setup: Setup, steps: seq<Step>, n: nat, j: nat, id: nat)
    requires j < n <= |steps|
    ensures DropsAt(setup, steps[..n], j, id) <==> DropsAt(setup, steps, j, id)
  {
    assert steps[..n][..j] == steps[..j];
  }

  lemma {:induction false} ExecutedOnceAlways(setup: Setup, steps: seq<Step>)
    ensures ExecutedOnce(Run(setup, steps))
  {
    if steps != [] {
      EntriesConserved(setup, steps[..|steps| - 1]);
      ExecutedOnceAlways(setup, steps[..|steps| - 1]);
      StepKeepsExecuted(setup, Run(setup, steps[..|steps| - 1]), steps[|steps| - 1]);
    }
  }

  lemma {:induction false} DroppedIsStranded(setup: Setup, steps: seq<Step>, j: nat, id: nat)
    requires j < |steps| && DropsAt(setup, steps, j, id)
    ensures Stranded(Run(setup, steps), id)
  {
    var n := |steps| - 1;
    EntriesConserved(setup, steps[..n]);
    if j == n {
      ExecutedOnceAlways(setup, steps[..n]);
      DropStrands(setup, Run(setup, steps[..n]), steps[n], id);
    } else {
      DropsAtPrefix(setup, steps, n, j, id);
      DroppedIsStranded(setup, steps[..n], j, id);
      StrandedStays(setup, Run(setup, steps[..n]), steps[n], id);
    }
  }

  lemma {:induction false} StrandedWasDropped(setup: Setup, steps: seq<Step>, id: nat) returns (j: nat)
    requires Stranded(Run(setup, steps), id)
    ensures j < |steps| && DropsAt(setup, steps, j, id)
  {
    var n := |steps| - 1;
    if Stranded(Run(setup, steps[..n]), id) {
      j := StrandedWasDropped(setup, steps[..n], id);
      DropsAtPrefix(setup, steps, n, j, id);
    } else {
      EntriesConserved(setup, steps[..n]);
      ExecutedOnceAlways(setup, steps[..n]);
      OnlyDropsStrand(setup, Run(setup, steps[..n]), steps[n], id);
      j := n;
    }
  }

  /**
   An entry is stranded (claimed, never executed, held by nobody) exactly when in some earlier
   step the process that had claimed it crashed or its execution raised.
   */
  lemma StrandedExactlyWhenDropped(setup: Setup, steps: seq<Step>, id: nat)
    ensures Stranded(Run(setup, steps), id) <==> DroppedIn(setup, steps, id)
  {
    if Stranded(Run(setup, steps), id) {
      var j := StrandedWasDropped(setup, steps, id);
    } else if DroppedIn(setup, steps, id) {
      var j :| 0 <= j < |steps| && DropsAt(setup, steps, j, id);
      DroppedIsStranded(setup, steps, j, id);
    }
  }

  // ---- such runs exist --------------------------------------------------------------------

  /** One worker and one action, which flushes as soon as an entry is buffered. */
  function Eager(id: nat): Setup {
    Setup([Subscription(Filter(None, None, None), [EagerAction(id)])], _ => {}, ["c"], 1)
  }

  function EagerAction(id: nat): Action {
    Action(id, Some(AccumulatorConfig(1, 0)))
  }

  /** The event is appended and the worker makes `n` calls. */
  function WorkerRun(ev: Event, entryId: nat, n: nat): seq<Step> {
    if n == 0 then [Append(ev)] else WorkerRun(ev, entryId, n - 1) + [Advance(0, entryId, 0, true)]
  }

  /** The world after `n` calls: the entry is inserted by the fourth and claimed by the sixth. */
  function WorkerWorld(id: nat, ev: Event, entryId: nat, n: nat): World {
    var entry := Entry(entryId, id, ev.id, 0);
    var phase :=
      if n == 2 then Checking else if n == 3 then Performing else if n == 4 then Buffered
      else if n == 5 then Claiming else Flushing([entry]);
    var p := if n == 0 then Idle else if n == 1 then HasCursor(None) else Running([ev], 0, [EagerAction(id)], phase);
    var store := EMPTY_STORE.(events := [ev],
      accumulator := if n < 4 then [] else [entry], claimed := if n < 6 then {} else {entryId});
    World(store, [p], if n < 4 then multiset{} else multiset{(ev.id, id)}, multiset{}, multiset{},
      if n < 4 then {} else {entryId}, {}, {})
  }

  lemma EagerActions(id: nat, ev: Event)
    ensures ActionsFor(Eager(id), ev) == [EagerAction(id)]
  {
    assert Eager(id).subscriptions[1..] == [];
    assert ActionsOf(Eager(id), [], ev) == [];
  }

  lemma OneClaimable(s: Store, e: Entry, action: nat)
    requires s.accumulator == [e] && s.claimed == {} && e.actionId == action
    ensures Claimable(s, action, CLAIM_LIMIT) == [e] && PendingCount(s, action) == 1
  {
    assert OfAction([], action, {}) == [] && [e][1..] == [];
    assert OfAction([e], action, {}) == [e];
    assert Ascending([e], (x: Entry) => x.createdAt);
    SortByKeepsSorted([e], (x: Entry) => x.createdAt);
  }

  lemma PollingCall(id: nat, ev: Event, entryId: nat, n: nat)
    requires n < 2
    ensures Next(Eager(id), WorkerWorld(id, ev, entryId, n), Advance(0, entryId, 0, true))
         == WorkerWorld(id, ev, entryId, n + 1)
  {
    EagerActions(id, ev);
  }

  lemma ActingCall(id: nat, ev: Event, entryId: nat, n: nat)
    requires 2 <= n < 4
    ensures Next(Eager(id), WorkerWorld(id, ev, entryId, n), Advance(0, entryId, 0, true))
         == WorkerWorld(id, ev, entryId, n + 1)
  {
  }

  lemma FlushingCall(id: nat, ev: Event, entryId: nat, n: nat)
    requires 4 <= n < 6
    ensures Next(Eager(id), WorkerWorld(id, ev, entryId, n), Advance(0, entryId, 0, true))
         == WorkerWorld(id, ev, entryId, n + 1)
  {
    var entry := Entry(entryId, id, ev.id, 0);
    OneClaimable(WorkerWorld(id, ev, entryId, n).store, entry, id);
    assert Ids([entry]) == {entryId} by { assert entry in [entry]; }
  }

  lemma {:induction false} WorkerReaches(id: nat, ev: Event, entryId: nat, n: nat)
    requires n <= 6
    ensures Run(Eager(id), WorkerRun(ev, entryId, n)) == WorkerWorld(id, ev, entryId, n)
  {
    if n == 0 {
      RunOne(Eager(id), Append(ev));
      assert [] + [ev] == [ev];
    } else {
      WorkerReaches(id, ev, entryId, n - 1);
      RunSnoc(Eager(id), WorkerRun(ev, entryId, n - 1), Advance(0, entryId, 0, true));
      if n <= 2 { PollingCall(id, ev, entryId, n - 1); }
      else if n <= 4 { ActingCall(id, ev, entryId, n - 1); }
      else { FlushingCall(id, ev, entryId, n - 1); }
    }
  }

  /** A crash and a raising execution each strand the entry that the worker has just claimed. */
  lemma RunsThatStrand(id: nat, ev: Event, entryId: nat, step: Step)
    requires step == Crash(0) || step == Advance(0, entryId, 0, false)
    ensures Stranded(Run(Eager(id), WorkerRun(ev, entryId, 6) + [step]), entryId)
  {
    var steps := WorkerRun(ev, entryId, 6);
    WorkerReaches(id, ev, entryId, 6);
    EntriesConserved(Eager(id), steps);
    ExecutedOnceAlways(Eager(id), steps);
    var entry := Entry(entryId, id, ev.id, 0);
    assert Held(Run(Eager(id), steps).procs[0]) == [entry] && entry in [entry];
    DropStrands(Eager(id), Run(Eager(id), steps), step, entryId);
    RunSnoc(Eager(id), steps, step);
  }
}
