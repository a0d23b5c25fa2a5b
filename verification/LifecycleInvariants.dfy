/**
 What every run of the lifecycle handlers keeps: a session works on a task of its own, a
 completed task is settled with everything below it, and claims stay exclusive.
 */
module LifecycleInvariants {
  import opened Wrappers
  import opened Locks
  import opened Lifecycle

  predicate UnderWay(s: Tasks, t: nat) {
    t in s.states && s.states[t] != Created && s.states[t] != Completed
  }

  /** No two sessions share a task, and a session's task is neither untouched nor completed. */
  ghost predicate SessionsOwn(s: Tasks) {
    && (forall x :: x in s.active ==> UnderWay(s, s.active[x]))
    && (forall x, y :: x in s.active && y in s.active && x != y ==> s.active[x] != s.active[y])
  }

  /** Children are registered tasks, and those of a completed task are completed. */
  ghost predicate CompletedBelow(s: Tasks) {
    && s.children.Keys <= s.states.Keys
    && (forall t, c :: t in s.children && c in s.children[t] ==> c in s.states)
    && (forall t, c :: t in s.children && c in s.children[t] && IsCompleted(s, t) ==> IsCompleted(s, c))
  }

  /** Claims are exclusive and belong to tasks that are not completed. */
  ghost predicate ClaimsHeld(s: Tasks) {
    && Exclusive(s.claims)
    && (forall t :: t in s.claims ==> t in s.states && !IsCompleted(s, t))
  }

  ghost predicate Inv(s: Tasks) {
    SessionsOwn(s) && CompletedBelow(s) && ClaimsHeld(s)
  }

  lemma AddedChild(s: Tasks, parent: nat, id: nat, t: nat, c: nat)
    requires CompletedBelow(s) && id !in s.states && parent in s.states && !IsCompleted(s, parent)
    requires t in AddChild(s, parent, id).children && c in AddChild(s, parent, id).children[t]
    ensures var a := AddChild(s, parent, id); c in a.states && (IsCompleted(a, t) ==> IsCompleted(a, c))
  {
    var a := AddChild(s, parent, id);
    if t == parent {
      assert a.children[t] == ChildrenOf(s, parent) + [id];
      assert c == id || c in ChildrenOf(s, parent);
      assert c != id ==> parent in s.children && c in s.children[parent];
      assert !IsCompleted(a, parent);
    } else {
      assert t in s.children && c in s.children[t] && c in s.states && t in s.states;
      assert c != id && t != id && a.states[c] == s.states[c] && a.states[t] == s.states[t];
      assert IsCompleted(s, t) ==> IsCompleted(s, c);
    }
  }

  lemma AddChildKeeps(s: Tasks, parent: nat, id: nat)
    requires Inv(s) && id !in s.states && parent in s.states && !IsCompleted(s, parent)
    ensures var a := AddChild(s, parent, id);
            && SessionsOwn(a) && CompletedBelow(a) && ClaimsHeld(a) && id !in a.children && id !in a.claims
  {
    var a := AddChild(s, parent, id);
    forall t, c | t in a.children && c in a.children[t]
      ensures c in a.states && (IsCompleted(a, t) ==> IsCompleted(a, c))
    {
      AddedChild(s, parent, id, t, c);
    }
  }

  lemma StartKeeps(s: Tasks, session: nat, task: nat, prechecks: bool)
    requires Inv(s)
    ensures Inv(Handle(s, StartTask(session, task, prechecks)).0)
  {
    var v := Handle(s, StartTask(session, task, prechecks)).0;
    assert forall t :: IsCompleted(v, t) <==> IsCompleted(s, t);
  }

  /** A task whose children are all completed may be completed itself. */
  lemma CompletionKeepsBelow(s: Tasks, v: Tasks, task: nat)
    requires CompletedBelow(s) && task in s.states && v.children == s.children
    requires v.states == s.states[task := Completed]
    requires forall c :: c in ChildrenOf(s, task) ==> IsCompleted(s, c)
    ensures CompletedBelow(v)
  {
    forall t, c | t in v.children && c in v.children[t] && IsCompleted(v, t) ensures IsCompleted(v, c) {
      assert c in ChildrenOf(s, t);
      assert t == task || IsCompleted(s, t);
      assert IsCompleted(s, c);
    }
  }

  lemma FailureKeepsBelow(s: Tasks, v: Tasks, task: nat)
    requires CompletedBelow(s) && UnderWay(s, task) && v.children == s.children
    requires v.states == s.states[task := PostcheckFailed]
    ensures CompletedBelow(v)
  {
    assert forall t :: IsCompleted(v, t) <==> IsCompleted(s, t);
  }

  lemma EndKeepsBelow(s: Tasks, session: nat, postchecks: bool, constraints: bool)
    requires Inv(s)
    ensures CompletedBelow(Handle(s, EndTask(session, postchecks, constraints)).0)
  {
    var (v, reply) := Handle(s, EndTask(session, postchecks, constraints));
    if session in s.active {
      var task := s.active[session];
      assert UnderWay(s, task);
      if reply == Done {
        CompletionKeepsBelow(s, v, task);
      } else if reply == ChecksFailed {
        FailureKeepsBelow(s, v, task);
      }
    }
  }

  lemma EndKeepsOwners(s: Tasks, session: nat, postchecks: bool, constraints: bool)
    requires Inv(s)
    ensures var v := Handle(s, EndTask(session, postchecks, constraints)).0; SessionsOwn(v) && ClaimsHeld(v)
  {
    var v := Handle(s, EndTask(session, postchecks, constraints)).0;
    if session in s.active {
      var task := s.active[session];
      assert UnderWay(s, task);
      assert Exclusive(v.claims);
    }
  }

  lemma EndKeeps(s: Tasks, session: nat, postchecks: bool, constraints: bool)
    requires Inv(s)
    ensures Inv(Handle(s, EndTask(session, postchecks, constraints)).0)
  {
    EndKeepsBelow(s, session, postchecks, constraints);
    EndKeepsOwners(s, session, postchecks, constraints);
  }

  lemma SameTasksKeep(s: Tasks, v: Tasks)
    requires SessionsOwn(s) && CompletedBelow(s)
    requires v.states == s.states && v.active == s.active && v.children == s.children
    ensures SessionsOwn(v) && CompletedBelow(v)
  {
    assert forall t :: IsCompleted(v, t) <==> IsCompleted(s, t);
    assert forall t :: UnderWay(v, t) <==> UnderWay(s, t);
  }

  lemma CreateKeeps(s: Tasks, session: nat, id: nat, writePaths: seq<string>)
    requires Inv(s) && id !in s.states
    ensures Inv(Handle(s, CreateTask(session, id, writePaths)).0)
  {
    if session in s.active && !s.budgetBlocked {
      AddChildKeeps(s, s.active[session], id);
      if writePaths != [] && !Conflicts(s.claims, writePaths) {
        var added := AddChild(s, s.active[session], id);
        ClaimKeepsExclusive(s.claims, id, writePaths);
        SameTasksKeep(added, added.(claims := s.claims[id := Elements(writePaths)]));
        assert forall t :: t in s.claims ==> t != id && !IsCompleted(added, t);
      }
    }
  }

  lemma WorkflowKeeps(s: Tasks, session: nat, id: nat)
    requires Inv(s) && id !in s.states
    ensures Inv(Handle(s, CreateWorkflow(session, id)).0)
  {
    if session in s.active && !s.budgetBlocked {
      AddChildKeeps(s, s.active[session], id);
    }
  }

  lemma AbortKeeps(s: Tasks)
    requires Inv(s)
    ensures Inv(Handle(s, Abort).0)
  {
    var v := Handle(s, Abort).0;
    assert forall t :: IsCompleted(v, t) <==> IsCompleted(s, t);
  }

  lemma RegisterKeeps(s: Tasks, id: nat)
    requires Inv(s) && id !in s.states
    ensures Inv(Handle(s, Register(id)).0)
  {
    var v := Handle(s, Register(id)).0;
    assert forall t :: IsCompleted(v, t) <==> IsCompleted(s, t);
  }

  lemma WaitForKeeps(s: Tasks, session: nat, id: nat)
    requires Inv(s) && id !in s.states
    ensures Inv(Handle(s, CreateWaitFor(session, id)).0)
  {
    if session in s.active { AddChildKeeps(s, s.active[session], id); }
  }

  lemma BlockKeeps(s: Tasks)
    requires Inv(s)
    ensures Inv(Handle(s, BlockBudget).0)
  {
    var v := Handle(s, BlockBudget).0;
    assert forall t :: IsCompleted(v, t) <==> IsCompleted(s, t);
  }

  lemma HandleKeepsInv(s: Tasks, call: Call)
    requires Inv(s) && Fresh(s, call)
    ensures Inv(Handle(s, call).0)
  {
    match call
    case Register(id) => RegisterKeeps(s, id);
    case StartTask(session, task, prechecks) => StartKeeps(s, session, task, prechecks);
    case EndTask(session, postchecks, constraints) => EndKeeps(s, session, postchecks, constraints);
    case CreateTask(session, id, writePaths) => CreateKeeps(s, session, id, writePaths);
    case CreateWorkflow(session, id) => WorkflowKeeps(s, session, id);
    case CreateWaitFor(session, id) => WaitForKeeps(s, session, id);
    case BlockBudget => BlockKeeps(s);
    case Abort => AbortKeeps(s);
  }

  /** The invariants hold after every sequence of calls, whatever the checks decide. */
  lemma {:induction false} EveryRunKeepsInv(calls: seq<Call>)
    ensures Inv(RunCalls(calls))
  {
    if calls != [] {
      EveryRunKeepsInv(calls[..|calls| - 1]);
      var s, call := RunCalls(calls[..|calls| - 1]), calls[|calls| - 1];
      if Fresh(s, call) { HandleKeepsInv(s, call); }
    }
  }

  // ---- consequences -----------------------------------------------------------------------

  /** A path that leads from a task to a descendant, one child at a time. */
  ghost predicate Lineage(s: Tasks, path: seq<nat>) {
    forall i, j :: 0 <= i && j == i + 1 && j < |path| ==> path[i] in s.children && path[j] in s.children[path[i]]
  }

  /** In every run all descendants of a completed task are completed. */
  lemma {:induction false} DescendantsCompleted(calls: seq<Call>, path: seq<nat>, k: nat)
    requires Lineage(RunCalls(calls), path) && k < |path| && IsCompleted(RunCalls(calls), path[0])
    ensures IsCompleted(RunCalls(calls), path[k])
  {
    EveryRunKeepsInv(calls);
    if k > 0 {
      DescendantsCompleted(calls, path, k - 1);
      assert path[k - 1] in RunCalls(calls).children && path[k] in RunCalls(calls).children[path[k - 1]];
    }
  }

  lemma StaysCompleted(s: Tasks, call: Call, t: nat)
    requires IsCompleted(s, t) && Fresh(s, call) && forall x :: x in s.active ==> s.active[x] != t
    ensures IsCompleted(Handle(s, call).0, t)
  {
  }

  lemma GainsNoChild(s: Tasks, call: Call, t: nat)
    requires IsCompleted(s, t) && Fresh(s, call) && forall x :: x in s.active ==> s.active[x] != t
    ensures ChildrenOf(Handle(s, call).0, t) == ChildrenOf(s, t)
  {
  }

  /** A completed task stays completed, is nobody's active task and never gains a child. */
  lemma CompletedIsFrozen(calls: seq<Call>, call: Call, t: nat)
    requires IsCompleted(RunCalls(calls), t)
    ensures var s := RunCalls(calls + [call]);
            && IsCompleted(s, t) && ChildrenOf(s, t) == ChildrenOf(RunCalls(calls), t)
            && (forall x :: x in s.active ==> s.active[x] != t) && t !in s.claims
  {
    var s := RunCalls(calls);
    assert (calls + [call])[..|calls|] == calls;
    EveryRunKeepsInv(calls);
    if Fresh(s, call) {
      SettledInside(s, t);
      HandleKeepsInv(s, call);
      StaysCompleted(s, call, t);
      GainsNoChild(s, call, t);
    }
    SettledInside(RunCalls(calls + [call]), t);
  }

  lemma SettledInside(s: Tasks, t: nat)
    requires Inv(s) && IsCompleted(s, t)
    ensures (forall x :: x in s.active ==> s.active[x] != t) && t !in s.claims
  {
    assert forall x :: x in s.active ==> UnderWay(s, s.active[x]);
  }

  /** Once the budget blocks new work, no create_task or create_workflow call succeeds any more. */
  lemma {:induction false} BlockedForGood(calls: seq<Call>, k: nat, call: Call)
    requires k < |calls| && calls[k].BlockBudget?
    requires call.CreateTask? || call.CreateWorkflow?
    ensures RunCalls(calls).budgetBlocked && Handle(RunCalls(calls), call) == (RunCalls(calls), ToolError)
  {
    if k < |calls| - 1 {
      BlockedForGood(calls[..|calls| - 1], k, call);
    }
  }

  // ---- what a refused create_task leaves behind --------------------------------------------

  /** The call is refused because of its paths, after its task has been registered. */
  ghost predicate RefusedForPaths(s: Tasks, call: Call) {
    && call.CreateTask? && Fresh(s, call) && call.session in s.active && !s.budgetBlocked
    && call.writePaths != [] && Conflicts(s.claims, call.writePaths)
  }

  /** A refused create_task call changes the tasks exactly if it is refused for its paths. */
  lemma RefusedCreateChangesExactly(s: Tasks, call: Call)
    requires call.CreateTask? && Fresh(s, call) && Handle(s, call).1 == ToolError
    ensures Handle(s, call).0 != s <==> RefusedForPaths(s, call)
  {
    if RefusedForPaths(s, call) {
      assert call.id in Handle(s, call).0.states;
    }
  }

  lemma ChildrenOnlyGrow(s: Tasks, call: Call, t: nat)
    requires t in s.states && Fresh(s, call)
    ensures t in Handle(s, call).0.states && ChildrenOf(s, t) <= ChildrenOf(Handle(s, call).0, t)
  {
  }

  /** A child once registered stays one in every continuation. */
  lemma {:induction false} ChildrenKept(calls: seq<Call>, k: nat, t: nat, c: nat)
    requires k <= |calls| && t in RunCalls(calls[..k]).states && c in ChildrenOf(RunCalls(calls[..k]), t)
    ensures t in RunCalls(calls).states && c in ChildrenOf(RunCalls(calls), t)
  {
    if k == |calls| {
      assert calls[..k] == calls;
    } else {
      var before := calls[..|calls| - 1];
      assert before[..k] == calls[..k];
      ChildrenKept(before, k, t, c);
      var s := RunCalls(before);
      if Fresh(s, calls[|calls| - 1]) { ChildrenOnlyGrow(s, calls[|calls| - 1], t); }
    }
  }

  /** The refused call leaves a child of the active task that is CREATED and holds no claim. */
  lemma RefusedLeavesOrphan(calls: seq<Call>, k: nat)
    requires k < |calls| && RefusedForPaths(RunCalls(calls[..k]), calls[k])
    ensures var s, v, id := RunCalls(calls[..k]), RunCalls(calls[..k + 1]), calls[k].id;
      && v.states == s.states[id := Created] && v.claims == s.claims && id !in v.claims
      && id in ChildrenOf(v, s.active[calls[k].session])
  {
    var s, id := RunCalls(calls[..k]), calls[k].id;
    EveryRunKeepsInv(calls[..k]);
    assert calls[..k + 1][..k] == calls[..k];
    var kids := ChildrenOf(RunCalls(calls[..k + 1]), s.active[calls[k].session]);
    assert kids[|kids| - 1] == id;
  }

  /** The child left behind can be started although it holds none of the paths it asked for. */
  lemma OrphanStartsUnclaimed(calls: seq<Call>, k: nat, session: nat)
    requires k < |calls| && RefusedForPaths(RunCalls(calls[..k]), calls[k])
    ensures var (v, reply) := Handle(RunCalls(calls[..k + 1]), StartTask(session, calls[k].id, true));
      reply == Done && v.active[session] == calls[k].id && v.states[calls[k].id] == Active && calls[k].id !in v.claims
  {
    RefusedLeavesOrphan(calls, k);
  }

  /**
   After a refused create_task, whatever calls follow, no session can end the task that asked
   for the child as long as the child has not been completed.
   */
  lemma ConflictBlocksParent(calls: seq<Call>, k: nat, session: nat, postchecks: bool, constraints: bool)
    requires k < |calls| && RefusedForPaths(RunCalls(calls[..k]), calls[k])
    requires session in RunCalls(calls).active
    requires RunCalls(calls).active[session] == RunCalls(calls[..k]).active[calls[k].session]
    requires !IsCompleted(RunCalls(calls), calls[k].id)
    ensures Handle(RunCalls(calls), EndTask(session, postchecks, constraints)) == (RunCalls(calls), ToolError)
  {
    var parent := RunCalls(calls[..k]).active[calls[k].session];
    EveryRunKeepsInv(calls[..k]);
    RefusedLeavesOrphan(calls, k);
    assert UnderWay(RunCalls(calls[..k]), parent);
    ChildrenKept(calls, k + 1, parent, calls[k].id);
  }
}
