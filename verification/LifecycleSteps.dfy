/**
 What one call of a lifecycle handler does in any run, in terms of the outcome of its checks:
 which call brings a task to which state, who works on it, what it claims, and its children.
 */
module LifecycleSteps {
  import opened Wrappers
  import opened Locks
  import opened Lifecycle
  import opened LifecycleInvariants

  /** A call of any run, and the tasks before and after it. */
  ghost predicate Step(calls: seq<Call>, call: Call, s: Tasks, v: Tasks) {
    s == RunCalls(calls) && v == RunCalls(calls + [call]) && Fresh(s, call)
  }

  lemma StepHandles(calls: seq<Call>, call: Call, s: Tasks, v: Tasks)
    requires Step(calls, call, s, v)
    ensures v == Handle(s, call).0
  {
    assert (calls + [call])[..|calls|] == calls;
  }

  lemma SessionIsBusy(calls: seq<Call>, session: nat)
    requires session in RunCalls(calls).active
    ensures var s := RunCalls(calls); var t := s.active[session];
      t in s.states && s.states[t] != Created && s.states[t] != Completed
  {
    EveryRunKeepsInv(calls);
    assert UnderWay(RunCalls(calls), RunCalls(calls).active[session]);
  }

  lemma KeysAreKnown(calls: seq<Call>)
    ensures var s := RunCalls(calls); s.children.Keys <= s.states.Keys && s.claims.Keys <= s.states.Keys
  {
    EveryRunKeepsInv(calls);
  }

  predicate Is(s: Tasks, t: nat, state: TaskState) {
    t in s.states && s.states[t] == state
  }

  predicate WorksOn(s: Tasks, session: nat, t: nat) {
    session in s.active && s.active[session] == t
  }

  predicate AllCompleted(s: Tasks, tasks: seq<nat>) {
    forall c :: c in tasks ==> c in s.states && s.states[c] == Completed
  }

  // ---- what each kind of call does ----------------------------------------------------------

  /**
   Ending a task: refused without an active task or with an uncompleted child; if a check fails
   the task is POSTCHECK_FAILED, stays with its session and keeps its claim; otherwise it is
   COMPLETED, its session is free and its claim, only its claim, is gone.
   */
  lemma EndEffect(calls: seq<Call>, call: Call, s: Tasks, v: Tasks)
    requires Step(calls, call, s, v) && call.EndTask?
    ensures call.session !in s.active || !AllCompleted(s, ChildrenOf(s, s.active[call.session])) ==>
      v == s && Handle(s, call).1 == ToolError
    ensures call.session in s.active && AllCompleted(s, ChildrenOf(s, s.active[call.session])) ==>
      var t := s.active[call.session];
      if call.postchecks && call.constraints then
        && v == s.(states := s.states[t := Completed], active := s.active - {call.session}, claims := s.claims - {t})
        && Handle(s, call).1 == Done
      else
        v == s.(states := s.states[t := PostcheckFailed]) && Handle(s, call).1 == ChecksFailed
  {
    StepHandles(calls, call, s, v);
    if call.session in s.active {
      var kids := ChildrenOf(s, s.active[call.session]);
      assert AllCompleted(s, kids) <==> !exists c :: c in kids && !IsCompleted(s, c);
    }
  }

  /** Starting a task: refused unless it is CREATED; its prechecks decide between ACTIVE and failed. */
  lemma StartEffect(calls: seq<Call>, call: Call, s: Tasks, v: Tasks)
    requires Step(calls, call, s, v) && call.StartTask?
    ensures !Is(s, call.task, Created) ==> v == s && Handle(s, call).1 == ToolError
    ensures Is(s, call.task, Created) ==>
      if call.prechecks then
        && v == s.(states := s.states[call.task := Active], active := s.active[call.session := call.task])
        && Handle(s, call).1 == Done
      else
        v == s.(states := s.states[call.task := PrecheckFailed]) && Handle(s, call).1 == ChecksFailed
  {
    StepHandles(calls, call, s, v);
  }

  predicate Busy(s: Tasks, t: nat) {
    Is(s, t, Active) || Is(s, t, Prechecking) || Is(s, t, Postchecking)
  }

  /** An abort cancels exactly what is in progress and releases exactly its claims. */
  lemma AbortEffect(calls: seq<Call>, call: Call, s: Tasks, v: Tasks)
    requires Step(calls, call, s, v) && call.Abort?
    ensures v == s.(states := v.states, claims := v.claims) && v.states.Keys == s.states.Keys
    ensures forall t :: t in s.states ==> v.states[t] == if Busy(s, t) then Cancelled else s.states[t]
    ensures forall t :: t in v.claims <==> t in s.claims && !Busy(s, t)
    ensures forall t :: t in v.claims ==> v.claims[t] == s.claims[t]
  {
    StepHandles(calls, call, s, v);
  }

  predicate IsNewTask(call: Call) {
    call.Register? || call.CreateTask? || call.CreateWorkflow? || call.CreateWaitFor?
  }

  /** The call for a new task is allowed: it needs an active task, and a budget unless it only waits. */
  predicate Allowed(s: Tasks, call: Call)
    requires IsNewTask(call)
  {
    call.Register? || (call.session in s.active && (s.budgetBlocked ==> call.CreateWaitFor?))
  }

  /** No claim of another task has a path in common with these. */
  ghost predicate Free(s: Tasks, paths: seq<string>) {
    forall u, p, c :: u in s.claims && p in paths && c in s.claims[u] ==> !PathsOverlap(p, c)
  }

  /** A new task is CREATED under the active task of the session, if allowed, and may claim paths. */
  lemma CreateEffect(calls: seq<Call>, call: Call, s: Tasks, v: Tasks)
    requires Step(calls, call, s, v) && IsNewTask(call)
    ensures !Allowed(s, call) ==> v == s && Handle(s, call).1 == ToolError
    ensures Allowed(s, call) ==>
      && v.states == s.states[call.id := Created] && v.active == s.active && v.budgetBlocked == s.budgetBlocked
      && v.parents == s.parents[call.id := if call.Register? then None else Some(s.active[call.session])]
    ensures Allowed(s, call) && call.CreateTask? && call.writePaths != [] && Free(s, call.writePaths) ==>
      v.claims == s.claims[call.id := Elements(call.writePaths)] && Handle(s, call).1 == Done
    ensures call.CreateTask? && call.writePaths != [] && !Free(s, call.writePaths) ==>
      v.claims == s.claims && Handle(s, call).1 == ToolError
    ensures !call.CreateTask? || call.writePaths == [] ==>
      v.claims == s.claims && Handle(s, call).1 == if Allowed(s, call) then Done else ToolError
  {
    StepHandles(calls, call, s, v);
    if call.CreateTask? { assert Free(s, call.writePaths) <==> !Conflicts(s.claims, call.writePaths); }
  }

  /** The new task is added at the end of the children of its parent, and no other children change. */
  lemma ChildrenChange(calls: seq<Call>, call: Call, s: Tasks, v: Tasks, t: nat)
    requires Step(calls, call, s, v)
    ensures IsNewTask(call) && !call.Register? && Allowed(s, call) && s.active[call.session] == t ==>
      ChildrenOf(v, t) == ChildrenOf(s, t) + [call.id]
    ensures !(IsNewTask(call) && !call.Register? && Allowed(s, call) && s.active[call.session] == t) ==>
      ChildrenOf(v, t) == ChildrenOf(s, t)
  {
    KeysAreKnown(calls);
    if IsNewTask(call) {
      if !call.Register? && call.session in s.active { SessionIsBusy(calls, call.session); }
      StepHandles(calls, call, s, v);
    } else {
      OthersKeepChildren(calls, call, s, v);
    }
  }

  lemma OthersKeepChildren(calls: seq<Call>, call: Call, s: Tasks, v: Tasks)
    requires Step(calls, call, s, v) && !IsNewTask(call)
    ensures v.children == s.children
  {
    match call
    case StartTask(_, _, _) => StartEffect(calls, call, s, v);
    case EndTask(_, _, _) => EndEffect(calls, call, s, v);
    case Abort => AbortEffect(calls, call, s, v);
    case BlockBudget => BlockEffect(calls, call, s, v);
  }

  lemma BlockEffect(calls: seq<Call>, call: Call, s: Tasks, v: Tasks)
    requires Step(calls, call, s, v)
    ensures v.budgetBlocked <==> s.budgetBlocked || call.BlockBudget?
    ensures call.BlockBudget? ==> v == s.(budgetBlocked := true)
  {
    StepHandles(calls, call, s, v);
  }

  // ---- which call brings a task to which state ----------------------------------------------

  /** What a call does to the states, in the terms above. */
  lemma StatesChange(calls: seq<Call>, call: Call, s: Tasks, v: Tasks)
    requires Step(calls, call, s, v)
    ensures (call.BlockBudget? || (IsNewTask(call) && !Allowed(s, call))) ==> v.states == s.states
    ensures IsNewTask(call) && Allowed(s, call) ==> v.states == s.states[call.id := Created] && call.id !in s.states
    ensures call.StartTask? ==>
      v.states ==
        if Is(s, call.task, Created) then s.states[call.task := if call.prechecks then Active else PrecheckFailed]
        else s.states
    ensures call.EndTask? ==>
      v.states ==
        if call.session in s.active && AllCompleted(s, ChildrenOf(s, s.active[call.session])) then
          s.states[s.active[call.session] := if call.postchecks && call.constraints then Completed else PostcheckFailed]
        else s.states
    ensures call.EndTask? && call.session in s.active ==>
      var t := s.active[call.session]; t in s.states && s.states[t] != Created && s.states[t] != Completed
    ensures call.Abort? ==>
      && v.states.Keys == s.states.Keys
      && forall t :: t in s.states ==> v.states[t] == if Busy(s, t) then Cancelled else s.states[t]
  {
    match call
    case StartTask(_, _, _) => StartEffect(calls, call, s, v);
    case EndTask(session, _, _) =>
      EndEffect(calls, call, s, v);
      if session in s.active { SessionIsBusy(calls, session); }
    case Abort => AbortEffect(calls, call, s, v);
    case BlockBudget => BlockEffect(calls, call, s, v);
    case _ => CreateEffect(calls, call, s, v);
  }

  /** A task becomes completed exactly when its session ends it, all children are completed and all checks pass. */
  lemma BecomesCompleted(calls: seq<Call>, call: Call, s: Tasks, v: Tasks, t: nat)
    requires Step(calls, call, s, v)
    ensures Is(v, t, Completed) && !Is(s, t, Completed) <==>
      && call.EndTask? && WorksOn(s, call.session, t) && AllCompleted(s, ChildrenOf(s, t))
      && call.postchecks && call.constraints
  {
    StatesChange(calls, call, s, v);
  }

  /** It becomes POSTCHECK_FAILED exactly when some check fails instead. */
  lemma BecomesPostcheckFailed(calls: seq<Call>, call: Call, s: Tasks, v: Tasks, t: nat)
    requires Step(calls, call, s, v) && !Is(s, t, PostcheckFailed)
    ensures Is(v, t, PostcheckFailed) <==>
      && call.EndTask? && WorksOn(s, call.session, t) && AllCompleted(s, ChildrenOf(s, t))
      && !(call.postchecks && call.constraints)
  {
    StatesChange(calls, call, s, v);
  }

  /** A task becomes active exactly when it is started as CREATED and its prechecks pass. */
  lemma BecomesActive(calls: seq<Call>, call: Call, s: Tasks, v: Tasks, t: nat)
    requires Step(calls, call, s, v)
    ensures Is(v, t, Active) && !Is(s, t, Active) <==>
      call.StartTask? && call.task == t && Is(s, t, Created) && call.prechecks
  {
    StatesChange(calls, call, s, v);
  }

  lemma BecomesPrecheckFailed(calls: seq<Call>, call: Call, s: Tasks, v: Tasks, t: nat)
    requires Step(calls, call, s, v)
    ensures Is(v, t, PrecheckFailed) && !Is(s, t, PrecheckFailed) <==>
      call.StartTask? && call.task == t && Is(s, t, Created) && !call.prechecks
  {
    StatesChange(calls, call, s, v);
  }

  lemma BecomesCancelled(calls: seq<Call>, call: Call, s: Tasks, v: Tasks, t: nat)
    requires Step(calls, call, s, v)
    ensures Is(v, t, Cancelled) && !Is(s, t, Cancelled) <==> call.Abort? && Busy(s, t)
  {
    StatesChange(calls, call, s, v);
  }

  lemma BecomesCreated(calls: seq<Call>, call: Call, s: Tasks, v: Tasks, t: nat)
    requires Step(calls, call, s, v)
    ensures Is(v, t, Created) && !Is(s, t, Created) <==> IsNewTask(call) && Allowed(s, call) && call.id == t
  {
    StatesChange(calls, call, s, v);
  }

  /** No other state is ever entered by a call, and no task is forgotten. */
  lemma OtherStatesNotEntered(calls: seq<Call>, call: Call, s: Tasks, v: Tasks, t: nat)
    requires Step(calls, call, s, v) && t in s.states
    ensures t in v.states
    ensures v.states[t] in {s.states[t], Active, Completed, PrecheckFailed, PostcheckFailed, Cancelled}
  {
    StatesChange(calls, call, s, v);
  }

  // ---- who works on a task, and what it claims ----------------------------------------------

  /** A session takes a task up by starting it and gives it up by completing it. */
  lemma SessionsChange(calls: seq<Call>, call: Call, s: Tasks, v: Tasks, x: nat, t: nat)
    requires Step(calls, call, s, v)
    ensures WorksOn(v, x, t) <==>
      if call.StartTask? && call.session == x && Is(s, call.task, Created) && call.prechecks then t == call.task
      else
        && WorksOn(s, x, t)
        && !(call.EndTask? && call.session == x && AllCompleted(s, ChildrenOf(s, t)) && call.postchecks && call.constraints)
  {
    match call
    case StartTask(_, _, _) => StartEffect(calls, call, s, v);
    case EndTask(_, _, _) => EndEffect(calls, call, s, v);
    case Abort => AbortEffect(calls, call, s, v);
    case BlockBudget => BlockEffect(calls, call, s, v);
    case _ => CreateEffect(calls, call, s, v);
  }

  /** A claim is made with its task, if its paths are free, and never changes. */
  lemma ClaimIsMade(calls: seq<Call>, call: Call, s: Tasks, v: Tasks, t: nat)
    requires Step(calls, call, s, v)
    ensures t in v.claims && t !in s.claims <==>
      && call.CreateTask? && call.id == t && Allowed(s, call) && call.writePaths != [] && Free(s, call.writePaths)
    ensures t in v.claims ==> v.claims[t] == if t in s.claims then s.claims[t] else Elements(call.writePaths)
  {
    KeysAreKnown(calls);
    match call
    case StartTask(_, _, _) => StartEffect(calls, call, s, v);
    case EndTask(_, _, _) => EndEffect(calls, call, s, v);
    case Abort => AbortEffect(calls, call, s, v);
    case BlockBudget => BlockEffect(calls, call, s, v);
    case _ => CreateEffect(calls, call, s, v);
  }

  /** It is released exactly when its task is completed or cancelled. */
  lemma ClaimIsReleased(calls: seq<Call>, call: Call, s: Tasks, v: Tasks, t: nat)
    requires Step(calls, call, s, v) && t in s.claims
    ensures t !in v.claims <==>
      (Is(v, t, Completed) && !Is(s, t, Completed)) || (Is(v, t, Cancelled) && !Is(s, t, Cancelled))
  {
    KeysAreKnown(calls);
    BecomesCompleted(calls, call, s, v, t);
    BecomesCancelled(calls, call, s, v, t);
    match call
    case StartTask(_, _, _) => StartEffect(calls, call, s, v);
    case EndTask(_, _, _) => EndEffect(calls, call, s, v);
    case Abort => AbortEffect(calls, call, s, v);
    case BlockBudget => BlockEffect(calls, call, s, v);
    case _ => CreateEffect(calls, call, s, v);
  }
}
