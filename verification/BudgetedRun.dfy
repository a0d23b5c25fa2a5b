/**
 Handler calls and charges of one run together: the charges decide when the budget blocks new
 work, and the handlers that create work look at that decision.
 */
module BudgetedRun {
  import opened Lifecycle
  import opened Locks
  import B = Budget

  datatype Step = Handler(call: Call) | Charged(charge: B.Charge)

  datatype World = World(tasks: Tasks, ledger: B.Ledger)

  /** The flag is set by charges only, so a handler call that sets it is none. */
  ghost function Next(policy: B.Policy, budgets: map<nat, real>, w: World, step: Step): World {
    match step
    case Handler(call) =>
      if call.BlockBudget? || !Fresh(w.tasks, call) then w else w.(tasks := Handle(w.tasks, call).0)
    case Charged(c) =>
      var ledger := B.Accumulate(policy, budgets, w.ledger, c);
      World(if ledger.blocked then Handle(w.tasks, BlockBudget).0 else w.tasks, ledger)
  }

  ghost function RunAll(policy: B.Policy, budgets: map<nat, real>, steps: seq<Step>): World {
    if steps == [] then World(NO_TASKS, B.EMPTY_LEDGER)
    else Next(policy, budgets, RunAll(policy, budgets, steps[..|steps| - 1]), steps[|steps| - 1])
  }

  function ChargesOf(steps: seq<Step>): seq<B.Charge> {
    if steps == [] then []
    else
      ChargesOf(steps[..|steps| - 1])
      + (if steps[|steps| - 1].Charged? then [steps[|steps| - 1].charge] else [])
  }

  lemma HandleKeepsFlag(s: Tasks, call: Call)
    requires !call.BlockBudget?
    ensures Handle(s, call).0.budgetBlocked == s.budgetBlocked
  {
  }

  lemma {:induction false} LedgerOfRun(policy: B.Policy, budgets: map<nat, real>, steps: seq<Step>)
    ensures var w := RunAll(policy, budgets, steps);
      && w.ledger == B.Run(policy, budgets, ChargesOf(steps))
      && w.tasks.budgetBlocked == w.ledger.blocked
  {
    if steps != [] {
      var before, step := steps[..|steps| - 1], steps[|steps| - 1];
      LedgerOfRun(policy, budgets, before);
      var w := RunAll(policy, budgets, before);
      if step.Handler? {
        if !step.call.BlockBudget? { HandleKeepsFlag(w.tasks, step.call); }
        assert ChargesOf(steps) == ChargesOf(before);
      } else {
        assert ChargesOf(steps)[..|ChargesOf(steps)| - 1] == ChargesOf(before);
        B.BlockedStays(policy, budgets, w.ledger, step.charge);
      }
    }
  }

  predicate Blocks(policy: B.Policy) {
    policy.BlockNew? || policy.TimeoutGrace?
  }

  /** In a run, a call to create work is refused exactly for one of three reasons. */
  lemma RefusedExactly(policy: B.Policy, budgets: map<nat, real>, steps: seq<Step>, call: Call)
    requires forall c :: c in ChargesOf(steps) ==> c.cost >= 0.0
    requires forall t :: t in budgets ==> budgets[t] > 0.0
    requires call.CreateTask? || call.CreateWorkflow?
    ensures var s := RunAll(policy, budgets, steps).tasks;
      Handle(s, call).1 == ToolError <==>
        || call.session !in s.active
        || (Blocks(policy) && B.AnyExhausted(budgets, ChargesOf(steps)))
        || (call.CreateTask? && call.writePaths != [] && Conflicts(s.claims, call.writePaths))
  {
    LedgerOfRun(policy, budgets, steps);
    B.BlockedIffExhausted(policy, budgets, ChargesOf(steps));
  }

  /** Once some task's charges have reached its budget, creating work changes nothing any more. */
  lemma NothingCreatedOnceExhausted(policy: B.Policy, budgets: map<nat, real>, steps: seq<Step>, call: Call)
    requires forall c :: c in ChargesOf(steps) ==> c.cost >= 0.0
    requires forall t :: t in budgets ==> budgets[t] > 0.0
    requires call.CreateTask? || call.CreateWorkflow?
    requires Blocks(policy) && B.AnyExhausted(budgets, ChargesOf(steps))
    ensures var s := RunAll(policy, budgets, steps).tasks; Handle(s, call) == (s, ToolError)
  {
    LedgerOfRun(policy, budgets, steps);
    B.BlockedIffExhausted(policy, budgets, ChargesOf(steps));
  }
}
