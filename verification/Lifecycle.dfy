/**
 The task lifecycle handlers of the scheduler. `Tasks` is the value of the fields they
 update and there is one function for each handler call, with the outcomes of prechecks,
 postchecks and constraints as oracles; the class performs the same updates in place. A call is
 atomic, as a session makes one tool call at a time.
 */
module Lifecycle {
  import opened Wrappers
  import opened Locks

  datatype TaskState =
    | Created | Prechecking | Active | Suspended | Postchecking | Completed
    | PrecheckFailed | PostcheckFailed | Escalated | Cancelled

  datatype Tasks = Tasks(
    states: map<nat, TaskState>,
    active: map<nat, nat>,           // session to active task
    children: map<nat, seq<nat>>,
    parents: map<nat, Option<nat>>,
    claims: Claims,
    budgetBlocked: bool)

  const NO_TASKS := Tasks(map[], map[], map[], map[], map[], false)

  /** A tool error, or the message of a finished call. */
  datatype Reply = ToolError | Done | ChecksFailed

  datatype Call =
    | Register(id: nat)                                     // a top-level task of the workflow
    | StartTask(session: nat, task: nat, prechecks: bool)
    | EndTask(session: nat, postchecks: bool, constraints: bool)
    | CreateTask(session: nat, id: nat, writePaths: seq<string>)
    | CreateWorkflow(session: nat, id: nat)
    | CreateWaitFor(session: nat, id: nat)
    | BlockBudget                                           // the budget policy blocks new work
    | Abort

  function ChildrenOf(s: Tasks, t: nat): seq<nat> {
    if t in s.children then s.children[t] else []
  }

  predicate IsCompleted(s: Tasks, t: nat) {
    t in s.states && s.states[t] == Completed
  }

  function AddChild(s: Tasks, parent: nat, id: nat): Tasks {
    s.(states := s.states[id := Created], parents := s.parents[id := Some(parent)],
       children := s.children[parent := ChildrenOf(s, parent) + [id]])
  }

  predicate InProgress(st: TaskState) {
    st == Active || st == Prechecking || st == Postchecking
  }

  function Busy(states: map<nat, TaskState>, among: set<nat>): set<nat> {
    set t | t in among && t in states && InProgress(states[t])
  }

  function Cancel(states: map<nat, TaskState>, among: set<nat>): map<nat, TaskState> {
    map t | t in states :: if t in Busy(states, among) then Cancelled else states[t]
  }

  /** Creating a task registers it first and claims its paths last: a conflict undoes nothing. */
  ghost function Handle(s: Tasks, call: Call): (Tasks, Reply) {
    match call
    case Register(id) =>
      (s.(states := s.states[id := Created], parents := s.parents[id := None], children := s.children[id := []]), Done)
    case StartTask(session, task, prechecks) =>
      if task !in s.states || s.states[task] != Created then (s, ToolError)
      else if !prechecks then (s.(states := s.states[task := PrecheckFailed]), ChecksFailed)
      else (s.(states := s.states[task := Active], active := s.active[session := task]), Done)
    case EndTask(session, postchecks, constraints) =>
      if session !in s.active then (s, ToolError)
      else
        var task := s.active[session];
        if exists c :: c in ChildrenOf(s, task) && !IsCompleted(s, c) then (s, ToolError)
        else if !postchecks || !constraints then (s.(states := s.states[task := PostcheckFailed]), ChecksFailed)
        else (s.(states := s.states[task := Completed], active := s.active - {session}, claims := s.claims - {task}), Done)
    case CreateTask(session, id, writePaths) =>
      if session !in s.active || s.budgetBlocked then (s, ToolError)
      else
        var added := AddChild(s, s.active[session], id);
        if writePaths == [] then (added, Done)
        else if Conflicts(s.claims, writePaths) then (added, ToolError)
        else (added.(claims := s.claims[id := Elements(writePaths)]), Done)
    case CreateWorkflow(session, id) =>
      if session !in s.active || s.budgetBlocked then (s, ToolError)
      else
        var added := AddChild(s, s.active[session], id);
        (added.(children := added.children[id := []]), Done)
    case CreateWaitFor(session, id) =>
      if session !in s.active then (s, ToolError) else (AddChild(s, s.active[session], id), Done)
    case BlockBudget => (s.(budgetBlocked := true), Done)
    case Abort =>
      (s.(states := Cancel(s.states, s.states.Keys), claims := s.claims - Busy(s.states, s.states.Keys)), Done)
  }

  function NewId(call: Call): Option<nat> {
    if call.Register? || call.CreateTask? || call.CreateWorkflow? || call.CreateWaitFor? then Some(call.id) else None
  }

  /** Ids of new tasks are new: the trace store draws them. */
  predicate Fresh(s: Tasks, call: Call) {
    NewId(call).Some? ==> NewId(call).value !in s.states
  }

  ghost function RunCalls(calls: seq<Call>): Tasks {
    if calls == [] then NO_TASKS
    else
      var s := RunCalls(calls[..|calls| - 1]);
      if Fresh(s, calls[|calls| - 1]) then Handle(s, calls[|calls| - 1]).0 else s
  }

  // ---- the handlers as they update the scheduler's fields ----------------------------------

  class LifecycleHandlers {
    var states: map<nat, TaskState>
    var active: map<nat, nat>
    var children: map<nat, seq<nat>>
    var parents: map<nat, Option<nat>>
    const locks: FileLockRegistry
    var budgetBlocked: bool

    function Model(): Tasks
      reads this, locks
    {
      Tasks(states, active, children, parents, locks.claims, budgetBlocked)
    }

    constructor ()
      ensures Model() == NO_TASKS && fresh(locks)
    {
      states, active, children, parents, budgetBlocked := map[], map[], map[], map[], false;
      locks := new FileLockRegistry();
    }

    method InitTaskState(id: nat)
      modifies this
      ensures Model() == Handle(old(Model()), Register(id)).0
    {
      states := states[id := Created];
      parents := parents[id := None];
      children := children[id := []];
    }

    method CheckActiveTask(session: nat) returns (task: Option<nat>)
      ensures task == (if session in active then Some(active[session]) else None)
    {
      task := if session in active then Some(active[session]) else None;
    }

    method HandleStartTask(session: nat, task: nat, prechecks: bool) returns (reply: Reply)
      modifies this
      ensures (Model(), reply) == Handle(old(Model()), StartTask(session, task, prechecks))
    {
      if task !in states {
        return ToolError;
      }
      if states[task] != Created {
        return ToolError;
      }
      states := states[task := Prechecking];
      if !prechecks {
        states := states[task := PrecheckFailed];
        assert states == old(states)[task := PrecheckFailed];
        return ChecksFailed;
      }
      states := states[task := Active];
      assert states == old(states)[task := Active];
      active := active[session := task];
      return Done;
    }

    method HasIncompleteChild(task: nat) returns (b: bool)
      ensures b <==> exists c :: c in ChildrenOf(Model(), task) && !IsCompleted(Model(), c)
    {
      var kids := if task in children then children[task] else [];
      for k := 0 to |kids|
        invariant forall i :: 0 <= i < k ==> IsCompleted(Model(), kids[i])
      {
        if kids[k] !in states || states[kids[k]] != Completed {
          assert kids[k] in ChildrenOf(Model(), task) && !IsCompleted(Model(), kids[k]);
          return true;
        }
      }
      b := false;
    }

    method HandleEndTask(session: nat, postchecks: bool, constraints: bool) returns (reply: Reply)
      modifies this, locks
      ensures (Model(), reply) == Handle(old(Model()), EndTask(session, postchecks, constraints))
    {
      var current := CheckActiveTask(session);
      if current.None? {
        return ToolError;
      }
      var task := current.value;
      var incomplete := HasIncompleteChild(task);
      if incomplete {
        return ToolError;
      }
      states := states[task := Postchecking];
      if postchecks {
        if !constraints {
          states := states[task := PostcheckFailed];
          assert states == old(states)[task := PostcheckFailed];
          return ChecksFailed;
        }
        CompleteTask(task);
        assert states == old(states)[task := Completed];
        active := active - {session};
        return Done;
      }
      states := states[task := PostcheckFailed];
      assert states == old(states)[task := PostcheckFailed];
      return ChecksFailed;
    }

    method CompleteTask(task: nat)
      modifies this`states, locks
      ensures states == old(states)[task := Completed] && locks.claims == old(locks.claims) - {task}
    {
      states := states[task := Completed];
      locks.Release(task);
    }

    method AppendChild(parent: nat, id: nat)
      modifies this
      ensures Model() == AddChild(old(Model()), parent, id)
    {
      states := states[id := Created];
      parents := parents[id := Some(parent)];
      if parent !in children {
        children := children[parent := []];
      }
      children := children[parent := children[parent] + [id]];
    }

    method HandleCreateTask(session: nat, id: nat, writePaths: seq<string>) returns (reply: Reply)
      modifies this, locks
      ensures (Model(), reply) == Handle(old(Model()), CreateTask(session, id, writePaths))
    {
      var parent := CheckActiveTask(session);
      if parent.None? || budgetBlocked {
        return ToolError;
      }
      AppendChild(parent.value, id);
      if writePaths != [] {
        var ok := locks.Claim(id, writePaths);
        if !ok {
          return ToolError;
        }
      }
      return Done;
    }

    method HandleCreateWorkflow(session: nat, id: nat) returns (reply: Reply)
      modifies this
      ensures (Model(), reply) == Handle(old(Model()), CreateWorkflow(session, id))
    {
      var parent := CheckActiveTask(session);
      if parent.None? || budgetBlocked {
        return ToolError;
      }
      AppendChild(parent.value, id);
      children := children[id := []];
      return Done;
    }

    method HandleCreateWaitFor(session: nat, id: nat) returns (reply: Reply)
      modifies this
      ensures (Model(), reply) == Handle(old(Model()), CreateWaitFor(session, id))
    {
      var parent := CheckActiveTask(session);
      if parent.None? {
        return ToolError;
      }
      AppendChild(parent.value, id);
      return Done;
    }

    method AbortRun()
      modifies this, locks
      ensures Model() == Handle(old(Model()), Abort).0
    {
      var snapshot := states;
      ghost var before := locks.claims;
      var done: set<nat> := {};
      assert Busy(snapshot, done) == {};
      while snapshot.Keys - done != {}
        invariant done <= snapshot.Keys
        invariant states == Cancel(snapshot, done) && locks.claims == before - Busy(snapshot, done)
        invariant active == old(active) && children == old(children) && parents == old(parents)
        invariant budgetBlocked == old(budgetBlocked)
        decreases snapshot.Keys - done
      {
        var t :| t in snapshot.Keys - done;
        CancelNext(snapshot, done, t);
        if InProgress(snapshot[t]) {
          states := states[t := Cancelled];
          locks.Release(t);
          assert before - Busy(snapshot, done) - {t} == before - (Busy(snapshot, done) + {t});
        }
        done := done + {t};
      }
      assert done == snapshot.Keys;
    }
  }

  lemma CancelNext(states: map<nat, TaskState>, done: set<nat>, t: nat)
    requires t in states && t !in done
    ensures Busy(states, done + {t}) == Busy(states, done) + (if InProgress(states[t]) then {t} else {})
    ensures Cancel(states, done)[t] == states[t]
    ensures InProgress(states[t]) ==> Cancel(states, done + {t}) == Cancel(states, done)[t := Cancelled]
    ensures !InProgress(states[t]) ==> Cancel(states, done + {t}) == Cancel(states, done)
  {
  }
}
