/**
 Budget accounting: charges of interleaved tasks, the 80% threshold event, the exhaustion
 policy, and the sending of collected events while other tasks add to the same lists. Costs
 and budgets are reals; `Decimal` rounding is not modelled.
 */
module Budget {
  datatype Policy = BlockNew | CancelAll | TimeoutGrace | Unlimited

  datatype Event = Event(task: nat, budget: real, spent: real)

  datatype Charge = Charge(task: nat, cost: real)

  datatype Ledger = Ledger(
    costs: map<nat, real>, threshold: seq<Event>, exhausted: seq<Event>, blocked: bool, aborts: nat)

  const EMPTY_LEDGER := Ledger(map[], [], [], false, 0)

  function Spent(l: Ledger, t: nat): real {
    if t in l.costs then l.costs[t] else 0.0
  }

  /** One charge; a task without a budget is only accounted. */
  function Accumulate(policy: Policy, budgets: map<nat, real>, l: Ledger, c: Charge): Ledger {
    var spent := Spent(l, c.task) + c.cost;
    var charged := l.(costs := l.costs[c.task := spent]);
    if c.task !in budgets then charged
    else
      var budget := budgets[c.task];
      var event := Event(c.task, budget, spent);
      var crossed :=
        if spent >= budget * 0.8 && spent - c.cost < budget * 0.8 then
          charged.(threshold := charged.threshold + [event])
        else charged;
      if spent < budget then crossed
      else
        var out := crossed.(exhausted := crossed.exhausted + [event]);
        match policy
        case BlockNew => out.(blocked := true)
        case CancelAll => out.(aborts := out.aborts + 1)
        case TimeoutGrace => out.(blocked := true, aborts := out.aborts + 1)
        case Unlimited => out
  }

  class BudgetEnforcement {
    const policy: Policy
    const budgets: map<nat, real>
    var taskCosts: map<nat, real>
    var thresholdEvents: seq<Event>
    var exhaustedEvents: seq<Event>
    var budgetBlocked: bool
    var abortsScheduled: nat

    function Model(): Ledger
      reads this
    {
      Ledger(taskCosts, thresholdEvents, exhaustedEvents, budgetBlocked, abortsScheduled)
    }

    constructor (policy: Policy, budgets: map<nat, real>)
      ensures this.policy == policy && this.budgets == budgets && Model() == EMPTY_LEDGER
    {
      this.policy, this.budgets := policy, budgets;
      taskCosts, thresholdEvents, exhaustedEvents, budgetBlocked, abortsScheduled := map[], [], [], false, 0;
    }

    method AccumulateCost(task: nat, cost: real)
      modifies this
      ensures Model() == Accumulate(policy, budgets, old(Model()), Charge(task, cost))
    {
      taskCosts := taskCosts[task := (if task in taskCosts then taskCosts[task] else 0.0) + cost];
      if task in budgets {
        var spent := taskCosts[task];
        var budget := budgets[task];
        if spent >= budget * 0.8 && spent - cost < budget * 0.8 {
          thresholdEvents := thresholdEvents + [Event(task, budget, spent)];
        }
        if spent >= budget {
          exhaustedEvents := exhaustedEvents + [Event(task, budget, spent)];
          match policy
          case BlockNew => budgetBlocked := true;
          case CancelAll => abortsScheduled := abortsScheduled + 1;
          case TimeoutGrace =>
            budgetBlocked := true;
            abortsScheduled := abortsScheduled + 1;
          case Unlimited =>
        }
      }
    }
  }

  function Run(policy: Policy, budgets: map<nat, real>, charges: seq<Charge>): Ledger {
    if charges == [] then EMPTY_LEDGER
    else Accumulate(policy, budgets, Run(policy, budgets, charges[..|charges| - 1]), charges[|charges| - 1])
  }

  function SumOf(charges: seq<Charge>, t: nat): real {
    if charges == [] then 0.0
    else
      SumOf(charges[..|charges| - 1], t)
      + (if charges[|charges| - 1].task == t then charges[|charges| - 1].cost else 0.0)
  }

  function EventsOf(events: seq<Event>, t: nat): seq<Event> {
    if events == [] then []
    else
      EventsOf(events[..|events| - 1], t)
      + (if events[|events| - 1].task == t then [events[|events| - 1]] else [])
  }

  lemma EventsOfSnoc(events: seq<Event>, e: Event, t: nat)
    ensures EventsOf(events + [e], t) == EventsOf(events, t) + (if e.task == t then [e] else [])
  {
    assert (events + [e])[..|events|] == events;
  }

  /** However charges of tasks interleave, a task has spent the sum of its own. */
  lemma {:induction false} SpentIsSum(policy: Policy, budgets: map<nat, real>, charges: seq<Charge>, t: nat)
    ensures Spent(Run(policy, budgets, charges), t) == SumOf(charges, t)
  {
    if charges != [] {
      SpentIsSum(policy, budgets, charges[..|charges| - 1], t);
    }
  }

  /** A charge adds a threshold event exactly when it takes its task across 80% of the budget. */
  lemma ChargeAddsEvent(policy: Policy, budgets: map<nat, real>, l: Ledger, c: Charge, t: nat)
    requires t in budgets
    ensures |EventsOf(Accumulate(policy, budgets, l, c).threshold, t)|
         == |EventsOf(l.threshold, t)|
          + if c.task == t && Spent(l, t) < budgets[t] * 0.8 <= Spent(l, t) + c.cost then 1 else 0
  {
    if c.task in budgets {
      EventsOfSnoc(l.threshold, Event(c.task, budgets[c.task], Spent(l, c.task) + c.cost), t);
    }
  }

  /** A task has exactly one threshold event once it has spent 80% of its budget, and none before. */
  lemma {:induction false} OneThresholdEvent(policy: Policy, budgets: map<nat, real>, charges: seq<Charge>, t: nat)
    requires forall c :: c in charges ==> c.cost >= 0.0
    requires t in budgets && budgets[t] > 0.0
    ensures |EventsOf(Run(policy, budgets, charges).threshold, t)|
         == if SumOf(charges, t) >= budgets[t] * 0.8 then 1 else 0
  {
    if charges != [] {
      var front, c := charges[..|charges| - 1], charges[|charges| - 1];
      assert c in charges && forall x :: x in front ==> x in charges;
      OneThresholdEvent(policy, budgets, front, t);
      SpentIsSum(policy, budgets, front, t);
      ChargeAddsEvent(policy, budgets, Run(policy, budgets, front), c, t);
    }
  }

  // ---- what the events tell -----------------------------------------------------------------

  /** The charge is one that leaves its task with its budget used up. */
  predicate Exhausts(budgets: map<nat, real>, charges: seq<Charge>, k: nat)
    requires k < |charges|
  {
    charges[k].task in budgets && SumOf(charges[..k + 1], charges[k].task) >= budgets[charges[k].task]
  }

  /** How many of the first `n` charges are. */
  function Exhaustions(budgets: map<nat, real>, charges: seq<Charge>, n: nat): nat
    requires n <= |charges|
  {
    if n == 0 then 0 else Exhaustions(budgets, charges, n - 1) + if Exhausts(budgets, charges, n - 1) then 1 else 0
  }

  lemma {:induction false} ExhaustionsOfPrefix(budgets: map<nat, real>, charges: seq<Charge>, m: nat, n: nat)
    requires n <= m <= |charges|
    ensures Exhaustions(budgets, charges[..m], n) == Exhaustions(budgets, charges, n)
  {
    if n > 0 {
      ExhaustionsOfPrefix(budgets, charges, m, n - 1);
      assert charges[..m][..n] == charges[..n];
    }
  }

  /**
   Every charge that finds its task's budget used up brings one exhaustion event, and under
   CANCEL_ALL and TIMEOUT_GRACE one abort; without such a charge there is none.
   */
  lemma {:induction false} ExhaustionsCount(policy: Policy, budgets: map<nat, real>, charges: seq<Charge>)
    ensures var l := Run(policy, budgets, charges);
      && |l.exhausted| == Exhaustions(budgets, charges, |charges|)
      && l.aborts == match policy
         case BlockNew => 0
         case CancelAll => |l.exhausted|
         case TimeoutGrace => |l.exhausted|
         case Unlimited => 0
  {
    if charges != [] {
      var n := |charges| - 1;
      ExhaustionsCount(policy, budgets, charges[..n]);
      ExhaustionsOfPrefix(budgets, charges, n, n);
      SpentIsSum(policy, budgets, charges[..n], charges[n].task);
      assert charges[..n + 1] == charges;
    }
  }

  /** Every event names its task's budget and what the task had spent at a charge of its own. */
  ghost predicate IsGenuine(budgets: map<nat, real>, charges: seq<Charge>, e: Event, share: real) {
    && e.task in budgets && e.budget == budgets[e.task] && e.spent >= share * e.budget
    && exists k :: 0 <= k < |charges| && IsChargeTo(charges, k, e.task, e.spent)
  }

  predicate IsChargeTo(charges: seq<Charge>, k: nat, t: nat, spent: real)
    requires k < |charges|
  {
    charges[k].task == t && SumOf(charges[..k + 1], t) == spent
  }

  lemma GenuineStays(budgets: map<nat, real>, charges: seq<Charge>, e: Event, share: real)
    requires charges != [] && IsGenuine(budgets, charges[..|charges| - 1], e, share)
    ensures IsGenuine(budgets, charges, e, share)
  {
    var before := charges[..|charges| - 1];
    var k :| 0 <= k < |before| && IsChargeTo(before, k, e.task, e.spent);
    assert before[..k + 1] == charges[..k + 1];
    assert IsChargeTo(charges, k, e.task, e.spent);
  }

  /** What a charge adds to the two lists of events. */
  lemma ChargeAdds(policy: Policy, budgets: map<nat, real>, l: Ledger, c: Charge)
    ensures var m, spent := Accumulate(policy, budgets, l, c), Spent(l, c.task) + c.cost;
      && (m.threshold == l.threshold
          || (c.task in budgets && m.threshold == l.threshold + [Event(c.task, budgets[c.task], spent)]
              && spent >= 0.8 * budgets[c.task]))
      && (m.exhausted == l.exhausted
          || (c.task in budgets && m.exhausted == l.exhausted + [Event(c.task, budgets[c.task], spent)]
              && spent >= 1.0 * budgets[c.task]))
  {
  }

  lemma {:induction false} EventsAreGenuine(policy: Policy, budgets: map<nat, real>, charges: seq<Charge>)
    ensures forall e :: e in Run(policy, budgets, charges).threshold ==> IsGenuine(budgets, charges, e, 0.8)
    ensures forall e :: e in Run(policy, budgets, charges).exhausted ==> IsGenuine(budgets, charges, e, 1.0)
  {
    if charges != [] {
      var n := |charges| - 1;
      var c, l := charges[n], Run(policy, budgets, charges[..n]);
      EventsAreGenuine(policy, budgets, charges[..n]);
      SpentIsSum(policy, budgets, charges[..n], c.task);
      ChargeAdds(policy, budgets, l, c);
      assert charges[..n + 1] == charges;
      assert IsChargeTo(charges, n, c.task, Spent(l, c.task) + c.cost);
      forall e | e in Run(policy, budgets, charges).threshold ensures IsGenuine(budgets, charges, e, 0.8) {
        if e in l.threshold { GenuineStays(budgets, charges, e, 0.8); }
      }
      forall e | e in Run(policy, budgets, charges).exhausted ensures IsGenuine(budgets, charges, e, 1.0) {
        if e in l.exhausted { GenuineStays(budgets, charges, e, 1.0); }
      }
    }
  }

  lemma BlockedStays(policy: Policy, budgets: map<nat, real>, l: Ledger, c: Charge)
    ensures l.blocked ==> Accumulate(policy, budgets, l, c).blocked
  {
  }

  ghost predicate AnyExhausted(budgets: map<nat, real>, charges: seq<Charge>) {
    exists t :: t in budgets && SumOf(charges, t) >= budgets[t]
  }

  /** Under a blocking policy new work is blocked exactly when some task has reached its budget. */
  lemma {:induction false} BlockedIffExhausted(policy: Policy, budgets: map<nat, real>, charges: seq<Charge>)
    requires forall c :: c in charges ==> c.cost >= 0.0
    requires forall t :: t in budgets ==> budgets[t] > 0.0
    ensures Run(policy, budgets, charges).blocked
       <==> (policy.BlockNew? || policy.TimeoutGrace?) && AnyExhausted(budgets, charges)
  {
    if charges != [] {
      var front, c := charges[..|charges| - 1], charges[|charges| - 1];
      assert c in charges && forall x :: x in front ==> x in charges;
      BlockedIffExhausted(policy, budgets, front);
      SpentIsSum(policy, budgets, front, c.task);
      if AnyExhausted(budgets, front) {
        var t :| t in budgets && SumOf(front, t) >= budgets[t];
        assert SumOf(charges, t) >= budgets[t];
      }
      if AnyExhausted(budgets, charges) && !AnyExhausted(budgets, front) {
        var t :| t in budgets && SumOf(charges, t) >= budgets[t];
        assert t == c.task;
      }
      if c.task in budgets && SumOf(charges, c.task) >= budgets[c.task] {
        assert AnyExhausted(budgets, charges);
      }
    } else {
      forall t | t in budgets ensures SumOf(charges, t) < budgets[t] {}
    }
  }
}
