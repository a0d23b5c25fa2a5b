/**
 Validation of a workflow before it is executed: every task of the tree, the dependency graph of
 the top-level tasks, and name collisions between task outputs and workflow variables. The
 methods append to one list of errors as they go; the order of errors from sets is arbitrary.
 */
module Validator {
  import opened Wrappers
  import opened Graph

  datatype TaskSpec = TaskSpec(
    name: string,
    agent: Option<string>, taskPrompt: Option<string>, callable: Option<string>,
    subtasks: Subtasks, waitFor: Option<string>, decisionPoint: Option<bool>,
    variables: seq<string>, dependsOn: Option<seq<string>>, timeout: Option<int>, contextRefinement: Option<bool>,
    retry: int, retryResume: Option<bool>, retryInjectFailure: Option<bool>,
    forEach: Option<string>, forEachAbortOnFailure: Option<bool>, maxConcurrency: Option<int>)

  datatype Subtasks = Absent | Present(list: seq<TaskSpec>)

  datatype EscalationPolicy = Halt | AbortAll | ContinueIndependent

  datatype WorkflowConfig = WorkflowConfig(
    tasks: seq<TaskSpec>, dependencies: map<string, seq<string>>, policy: EscalationPolicy)

  datatype Mode = Agent | Callable | Composite | WaitFor | DecisionPoint

  datatype Fault =
    | NoMode | MultipleModes
    | MissingPrompt | MissingAgent | MissingTimeout | MissingRefinement
    | MissingRetryResume | MissingInjectFailure | MissingAbortFlag | MissingConcurrency
    | RefinementHeadless | DecisionHeadless

  datatype Error =
    | TaskError(name: string, fault: Fault)
    | DuplicateName(name: string)
    | UnknownSource(name: string)
    | UnknownTarget(name: string)
    | DependencyCycle(cycle: seq<string>)
    | Collision(variable: string)

  // ---- one task -------------------------------------------------------------------------

  function With(modes: set<Mode>, m: Mode, given: bool): (r: set<Mode>)
    ensures forall x :: x in r <==> x in modes || (given && x == m)
    ensures m !in modes ==> |r| == |modes| + One(given)
  {
    if given then modes + {m} else modes
  }

  function Modes(t: TaskSpec): set<Mode> {
    var agent := With({}, Agent, t.agent.Some? || t.taskPrompt.Some?);
    var callable := With(agent, Callable, t.callable.Some?);
    var composite := With(callable, Composite, t.subtasks.Present?);
    With(With(composite, WaitFor, t.waitFor.Some?), DecisionPoint, t.decisionPoint.Some?)
  }

  function One(b: bool): nat {
    if b then 1 else 0
  }

  /** The number of execution modes that the fields set. */
  function ModesSet(t: TaskSpec): nat {
    One(t.agent.Some? || t.taskPrompt.Some?) + One(t.callable.Some?)
    + One(t.subtasks.Present?) + One(t.waitFor.Some?) + One(t.decisionPoint.Some?)
  }

  lemma CountModes(t: TaskSpec)
    ensures |Modes(t)| == ModesSet(t) && (Modes(t) == {} <==> ModesSet(t) == 0)
  {
    SizeOfNothing(Modes(t));
  }

  lemma SizeOfNothing(modes: set<Mode>)
    ensures modes == {} <==> |modes| == 0
  {
  }

  predicate HasAgentMode(t: TaskSpec) {
    t.agent.Some? && t.taskPrompt.Some?
  }

  predicate HasFault(t: TaskSpec, headless: bool, f: Fault) {
    match f
    case NoMode => Modes(t) == {}
    case MultipleModes => |Modes(t)| > 1
    case MissingPrompt => t.agent.Some? && t.taskPrompt.None?
    case MissingAgent => t.taskPrompt.Some? && t.agent.None?
    case MissingTimeout => HasAgentMode(t) && t.timeout.None?
    case MissingRefinement => HasAgentMode(t) && t.contextRefinement.None?
    case MissingRetryResume => t.retry > 0 && t.retryResume.None?
    case MissingInjectFailure => t.retry > 0 && t.retryInjectFailure.None?
    case MissingAbortFlag => t.forEach.Some? && t.forEachAbortOnFailure.None?
    case MissingConcurrency => t.forEach.Some? && t.maxConcurrency.None?
    case RefinementHeadless => headless && t.contextRefinement == Some(true)
    case DecisionHeadless => headless && t.decisionPoint == Some(true)
  }

  /** An error of the task itself or of one below it. */
  predicate Faulty(t: TaskSpec, headless: bool, e: Error)
    decreases t
  {
    || (e.TaskError? && e.name == t.name && HasFault(t, headless, e.fault))
    || (t.subtasks.Present? && FaultyList(t.subtasks.list, headless, e))
  }

  /** An error of one of the siblings, or a name that an earlier sibling has. */
  predicate FaultyList(ts: seq<TaskSpec>, headless: bool, e: Error)
    decreases ts
  {
    || (exists i :: 0 <= i < |ts| && Faulty(ts[i], headless, e))
    || (e.DuplicateName? && Repeated(ts, e.name))
  }

  predicate Repeated(ts: seq<TaskSpec>, name: string) {
    exists i, j :: 0 <= i < j < |ts| && ts[i].name == name && ts[j].name == name
  }

  predicate UniqueNames(ts: seq<TaskSpec>) {
    forall i, j :: 0 <= i < j < |ts| ==> ts[i].name != ts[j].name
  }

  predicate WellFormedFields(t: TaskSpec, headless: bool) {
    && ModesSet(t) == 1
    && (t.agent.Some? <==> t.taskPrompt.Some?)
    && (t.agent.Some? ==> t.timeout.Some? && t.contextRefinement.Some?)
    && (t.retry > 0 ==> t.retryResume.Some? && t.retryInjectFailure.Some?)
    && (t.forEach.Some? ==> t.forEachAbortOnFailure.Some? && t.maxConcurrency.Some?)
    && (headless ==> t.contextRefinement != Some(true) && t.decisionPoint != Some(true))
  }

  predicate WellFormedTask(t: TaskSpec, headless: bool)
    decreases t
  {
    && WellFormedFields(t, headless)
    && (t.subtasks.Present? ==> WellFormedList(t.subtasks.list, headless))
  }

  predicate WellFormedList(ts: seq<TaskSpec>, headless: bool)
    decreases ts
  {
    UniqueNames(ts) && forall i :: 0 <= i < |ts| ==> WellFormedTask(ts[i], headless)
  }

  // ---- the faults field by field ------------------------------------------------------------

  /** Which fields call for which fault. */
  predicate CallsFor(t: TaskSpec, headless: bool, f: Fault) {
    || (f == NoMode && ModesSet(t) == 0)
    || (f == MultipleModes && ModesSet(t) >= 2)
    || (f == MissingPrompt && t.agent != None && t.taskPrompt == None)
    || (f == MissingAgent && t.agent == None && t.taskPrompt != None)
    || (f == MissingTimeout && t.agent != None && t.taskPrompt != None && t.timeout == None)
    || (f == MissingRefinement && t.agent != None && t.taskPrompt != None && t.contextRefinement == None)
    || (f == MissingRetryResume && t.retry >= 1 && t.retryResume == None)
    || (f == MissingInjectFailure && t.retry >= 1 && t.retryInjectFailure == None)
    || (f == MissingAbortFlag && t.forEach != None && t.forEachAbortOnFailure == None)
    || (f == MissingConcurrency && t.forEach != None && t.maxConcurrency == None)
    || (f == RefinementHeadless && headless && t.contextRefinement == Some(true))
    || (f == DecisionHeadless && headless && t.decisionPoint == Some(true))
  }

  lemma FaultsByField(t: TaskSpec, headless: bool, f: Fault)
    ensures HasFault(t, headless, f) <==> CallsFor(t, headless, f)
  {
    if f == NoMode || f == MultipleModes { ModeFaults(t, headless, f); }
  }

  lemma ModeFaults(t: TaskSpec, headless: bool, f: Fault)
    requires f == NoMode || f == MultipleModes
    ensures HasFault(t, headless, f) <==> CallsFor(t, headless, f)
  {
    CountModes(t);
  }

  /** The task is one of these or below one of these. */
  predicate InTree(ts: seq<TaskSpec>, t: TaskSpec)
    decreases ts
  {
    exists i :: 0 <= i < |ts| && (t == ts[i] || (ts[i].subtasks.Present? && InTree(ts[i].subtasks.list, t)))
  }

  lemma {:induction false} FaultyTaskIsInTree(t: TaskSpec, headless: bool, n: string, f: Fault) returns (u: TaskSpec)
    requires Faulty(t, headless, TaskError(n, f))
    ensures u == t || (t.subtasks.Present? && InTree(t.subtasks.list, u))
    ensures u.name == n && CallsFor(u, headless, f)
    decreases t
  {
    FaultsByField(t, headless, f);
    if t.name == n && HasFault(t, headless, f) {
      u := t;
    } else {
      u := FaultyIsInTree(t.subtasks.list, headless, n, f);
    }
  }

  lemma {:induction false} FaultyIsInTree(ts: seq<TaskSpec>, headless: bool, n: string, f: Fault) returns (u: TaskSpec)
    requires FaultyList(ts, headless, TaskError(n, f))
    ensures InTree(ts, u) && u.name == n && CallsFor(u, headless, f)
    decreases ts
  {
    var i :| 0 <= i < |ts| && Faulty(ts[i], headless, TaskError(n, f));
    u := FaultyTaskIsInTree(ts[i], headless, n, f);
  }

  lemma {:induction false} InTreeIsFaulty(ts: seq<TaskSpec>, headless: bool, t: TaskSpec, f: Fault)
    requires InTree(ts, t) && CallsFor(t, headless, f)
    ensures FaultyList(ts, headless, TaskError(t.name, f))
    decreases ts
  {
    FaultsByField(t, headless, f);
    var i :| 0 <= i < |ts| && (t == ts[i] || (ts[i].subtasks.Present? && InTree(ts[i].subtasks.list, t)));
    if t != ts[i] { InTreeIsFaulty(ts[i].subtasks.list, headless, t, f); }
    assert Faulty(ts[i], headless, TaskError(t.name, f));
  }

  /** The errors of a tree are exactly those that the fields of a task in it call for. */
  lemma ErrorsByField(ts: seq<TaskSpec>, headless: bool, n: string, f: Fault)
    ensures FaultyList(ts, headless, TaskError(n, f)) <==>
      exists t :: InTree(ts, t) && t.name == n && CallsFor(t, headless, f)
  {
    if FaultyList(ts, headless, TaskError(n, f)) {
      var u := FaultyIsInTree(ts, headless, n, f);
    }
    forall t | InTree(ts, t) && t.name == n && CallsFor(t, headless, f)
      ensures FaultyList(ts, headless, TaskError(n, f))
    {
      InTreeIsFaulty(ts, headless, t, f);
    }
  }

  class Validation {
    const headless: bool
    var errors: seq<Error>

    constructor (headless: bool)
      ensures this.headless == headless && errors == []
    {
      this.headless, errors := headless, [];
    }

    method CountExecutionModes(task: TaskSpec) returns (count: nat)
      ensures count == |Modes(task)|
    {
      count := 0;
      if task.agent.Some? || task.taskPrompt.Some? { count := count + 1; }
      if task.callable.Some? { count := count + 1; }
      assert count == One(task.agent.Some? || task.taskPrompt.Some?) + One(task.callable.Some?);
      if task.subtasks.Present? { count := count + 1; }
      if task.waitFor.Some? { count := count + 1; }
      if task.decisionPoint.Some? { count := count + 1; }
      CountModes(task);
    }

    /** Appends the fault of `task` if the condition holds. */
    method Check(task: TaskSpec, wrong: bool, fault: Fault)
      modifies this`errors
      ensures errors == old(errors) + if wrong then [TaskError(task.name, fault)] else []
    {
      if wrong {
        errors := errors + [TaskError(task.name, fault)];
      }
    }

    method ValidateAgentFields(task: TaskSpec)
      modifies this`errors
      ensures AddsFaults(task, {MissingPrompt, MissingAgent, MissingTimeout, MissingRefinement}, old(errors))
    {
      Check(task, task.agent.Some? && task.taskPrompt.None?, MissingPrompt);
      Check(task, task.taskPrompt.Some? && task.agent.None?, MissingAgent);
      ValidateAgentMode(task);
    }

    method ValidateAgentMode(task: TaskSpec)
      modifies this`errors
      ensures AddsFaults(task, {MissingTimeout, MissingRefinement}, old(errors))
    {
      if HasAgentMode(task) {
        Check(task, task.timeout.None?, MissingTimeout);
        Check(task, task.contextRefinement.None?, MissingRefinement);
      }
    }

    method ValidateConditionalFields(task: TaskSpec)
      modifies this`errors
      ensures AddsFaults(task,
        {MissingRetryResume, MissingInjectFailure, MissingAbortFlag, MissingConcurrency}, old(errors))
    {
      ValidateRetryFields(task);
      ValidateForEachFields(task);
    }

    method ValidateRetryFields(task: TaskSpec)
      modifies this`errors
      ensures AddsFaults(task, {MissingRetryResume, MissingInjectFailure}, old(errors))
    {
      if task.retry > 0 {
        Check(task, task.retryResume.None?, MissingRetryResume);
        Check(task, task.retryInjectFailure.None?, MissingInjectFailure);
      }
    }

    method ValidateForEachFields(task: TaskSpec)
      modifies this`errors
      ensures AddsFaults(task, {MissingAbortFlag, MissingConcurrency}, old(errors))
    {
      if task.forEach.Some? {
        Check(task, task.forEachAbortOnFailure.None?, MissingAbortFlag);
        Check(task, task.maxConcurrency.None?, MissingConcurrency);
      }
    }

    method ValidateModes(task: TaskSpec)
      modifies this`errors
      ensures AddsFaults(task, {NoMode, MultipleModes}, old(errors))
    {
      var modeCount := CountExecutionModes(task);
      Check(task, modeCount == 0, NoMode);
      Check(task, modeCount > 1, MultipleModes);
    }

    method ValidateHeadless(task: TaskSpec)
      modifies this`errors
      ensures AddsFaults(task, {RefinementHeadless, DecisionHeadless}, old(errors))
    {
      if headless {
        Check(task, task.contextRefinement == Some(true), RefinementHeadless);
        Check(task, task.decisionPoint == Some(true), DecisionHeadless);
      }
    }

    /** Exactly those of the given faults that `task` has were appended. */
    ghost predicate AddsFaults(task: TaskSpec, faults: set<Fault>, before: seq<Error>)
      reads this
    {
      && before <= errors
      && forall e :: e in errors <==>
           || e in before
           || (e.TaskError? && e.name == task.name && e.fault in faults && HasFault(task, headless, e.fault))
    }

    method ValidateTask(task: TaskSpec, seenNames: set<string>) returns (seen: set<string>)
      modifies this`errors
      ensures seen == seenNames + {task.name} && old(errors) <= errors
      ensures forall e :: e in errors <==>
        e in old(errors) || Faulty(task, headless, e) || (e == DuplicateName(task.name) && task.name in seenNames)
      decreases task
    {
      ValidateModes(task);
      ValidateAgentFields(task);
      ValidateConditionalFields(task);
      ValidateHeadless(task);
      if task.name in seenNames {
        errors := errors + [DuplicateName(task.name)];
      }
      seen := seenNames + {task.name};
      if task.subtasks.Present? {
        ValidateTasks(task.subtasks.list);
      }
    }

    /** The siblings of one level, which share a set of seen names. */
    method ValidateTasks(tasks: seq<TaskSpec>)
      modifies this`errors
      ensures old(errors) <= errors
      ensures forall e :: e in errors <==> e in old(errors) || FaultyList(tasks, headless, e)
      decreases tasks
    {
      var names := {};
      for i := 0 to |tasks|
        invariant forall n :: n in names <==> exists j :: 0 <= j < i && tasks[j].name == n
        invariant old(errors) <= errors
        invariant forall e :: e in errors <==> e in old(errors) || FaultyList(tasks[..i], headless, e)
      {
        names := ValidateTask(tasks[i], names);
        OneMoreTask(tasks, headless, i);
      }
      assert tasks[..|tasks|] == tasks;
    }

    method ValidateDependencies(config: WorkflowConfig) returns (sorted: SortOutcome<string>)
      modifies this`errors
      ensures old(errors) <= errors
      ensures forall e :: e in errors <==>
        || e in old(errors) || DependencyFault(config, e)
        || (sorted.CycleFound? && e == DependencyCycle(sorted.cycle))
      ensures SortedAs(GraphOf(config), sorted)
    {
      var rest := config.dependencies.Keys;
      while rest != {}
        invariant rest <= config.dependencies.Keys && old(errors) <= errors
        invariant forall e :: e in errors <==>
          || e in old(errors)
          || exists source | source in config.dependencies.Keys - rest :: SourceFault(config, source, e)
        decreases rest
      {
        var source :| source in rest;
        CheckSource(config, source);
        rest := rest - {source};
      }
      var graph := BuildGraph(Names(config.tasks), config.dependencies);
      assert graph == GraphOf(config);
      sorted := TopologicalSort(graph);
      if sorted.CycleFound? {
        errors := errors + [DependencyCycle(sorted.cycle)];
      }
    }

    /** One entry of the dependency table: an unknown source, and its unknown targets. */
    method CheckSource(config: WorkflowConfig, source: string)
      requires source in config.dependencies
      modifies this`errors
      ensures old(errors) <= errors
      ensures forall e :: e in errors <==> e in old(errors) || SourceFault(config, source, e)
    {
      var taskNames := Elements(Names(config.tasks));
      var deps := config.dependencies[source];
      if source !in taskNames {
        errors := errors + [UnknownSource(source)];
      }
      for i := 0 to |deps|
        invariant old(errors) <= errors
        invariant forall e :: e in errors <==>
          || e in old(errors) || (e == UnknownSource(source) && source !in taskNames)
          || (e.UnknownTarget? && e.name in deps[..i] && e.name !in taskNames)
      {
        assert deps[..i + 1] == deps[..i] + [deps[i]];
        if deps[i] !in taskNames {
          errors := errors + [UnknownTarget(deps[i])];
        }
      }
      assert deps[..|deps|] == deps;
    }

    method ValidateVariableCollisions(config: WorkflowConfig)
      modifies this`errors
      ensures old(errors) <= errors
      ensures forall e :: e in errors <==> e in old(errors) || (e.Collision? && Collides(config, e.variable))
    {
      var outputs: set<string> := {};
      var variables: set<string> := {};
      var tasks := config.tasks;
      for i := 0 to |tasks|
        invariant forall v :: v in outputs <==> exists j | 0 <= j < i :: v in OutputsOf(tasks[j].name)
        invariant forall v :: v in variables <==> exists j | 0 <= j < i :: v in tasks[j].variables
      {
        outputs := outputs + OutputsOf(tasks[i].name);
        variables := variables + Elements(tasks[i].variables);
      }
      var rest := outputs * variables;
      ghost var collisions := rest;
      while rest != {}
        invariant rest <= collisions && old(errors) <= errors
        invariant forall e :: e in errors <==> e in old(errors) || (e.Collision? && e.variable in collisions - rest)
        decreases rest
      {
        var v :| v in rest;
        rest := rest - {v};
        errors := errors + [Collision(v)];
      }
    }
  }

  lemma OneMoreTask(ts: seq<TaskSpec>, headless: bool, i: nat)
    requires i < |ts|
    ensures forall e :: FaultyList(ts[..i + 1], headless, e) <==>
      || FaultyList(ts[..i], headless, e) || Faulty(ts[i], headless, e)
      || (e == DuplicateName(ts[i].name) && exists j :: 0 <= j < i && ts[j].name == ts[i].name)
  {
    var before, after := ts[..i], ts[..i + 1];
    assert after == before + [ts[i]];
    forall e | FaultyList(before, headless, e) ensures FaultyList(after, headless, e) {
      if k :| 0 <= k < i && Faulty(before[k], headless, e) {
        assert Faulty(after[k], headless, e);
      }
    }
    forall e | Faulty(ts[i], headless, e) ensures FaultyList(after, headless, e) {
      assert Faulty(after[i], headless, e);
    }
    forall j | 0 <= j < i && ts[j].name == ts[i].name ensures Repeated(after, ts[i].name) {
      assert after[j].name == after[i].name;
    }
  }

  // ---- the whole configuration ----------------------------------------------------------

  datatype Suffix = Output | Text | ResultMeta

  function Spell(s: Suffix): string {
    match s
    case Output => "_output"
    case Text => "_text"
    case ResultMeta => "_result"
  }

  /** The variable under which an output of a task is published. */
  function Key(name: string, s: Suffix): string {
    name + Spell(s)
  }

  function OutputsOf(name: string): set<string> {
    {Key(name, Output), Key(name, Text), Key(name, ResultMeta)}
  }

  /** Different tasks and different suffixes never share a variable. */
  lemma KeysAreDistinct(name: string, s: Suffix, other: string, t: Suffix)
    ensures Key(name, s) == Key(other, t) <==> name == other && s == t
  {
    var a, b := Key(name, s), Key(other, t);
    assert a[|a| - 2] == Spell(s)[|Spell(s)| - 2];
    assert b[|b| - 2] == Spell(t)[|Spell(t)| - 2];
    assert a[..|name|] == name && b[..|other|] == other;
  }

  function Names(tasks: seq<TaskSpec>): (names: seq<string>)
    ensures |names| == |tasks| && forall i :: 0 <= i < |tasks| ==> names[i] == tasks[i].name
  {
    seq(|tasks|, i requires 0 <= i < |tasks| => tasks[i].name)
  }

  /** The graph over the top-level tasks: only `config.dependencies` counts. */
  function GraphOf(config: WorkflowConfig): Dag<string> {
    map n | n in Elements(Names(config.tasks)) + config.dependencies.Keys ::
      if n in config.dependencies then Elements(config.dependencies[n]) else {}
  }

  predicate SourceFault(config: WorkflowConfig, source: string, e: Error)
    requires source in config.dependencies
  {
    || (e == UnknownSource(source) && source !in Names(config.tasks))
    || (e.UnknownTarget? && e.name in config.dependencies[source] && e.name !in Names(config.tasks))
  }

  predicate DependencyFault(config: WorkflowConfig, e: Error) {
    exists source | source in config.dependencies :: SourceFault(config, source, e)
  }

  /** Which entries of the dependency table are errors: a source, or a target, that no task is named. */
  lemma DependencyErrorsByName(config: WorkflowConfig, n: string)
    ensures DependencyFault(config, UnknownSource(n)) <==>
      n in config.dependencies && forall t :: t in config.tasks ==> t.name != n
    ensures DependencyFault(config, UnknownTarget(n)) <==>
      (exists s :: s in config.dependencies && n in config.dependencies[s]) && forall t :: t in config.tasks ==> t.name != n
  {
    assert n in Names(config.tasks) <==> exists t :: t in config.tasks && t.name == n by {
      forall i | 0 <= i < |config.tasks| ensures Names(config.tasks)[i] == config.tasks[i].name {}
      if t :| t in config.tasks && t.name == n {
        var i :| 0 <= i < |config.tasks| && config.tasks[i] == t;
        assert Names(config.tasks)[i] == n;
      }
    }
    if n in config.dependencies && n !in Names(config.tasks) {
      assert SourceFault(config, n, UnknownSource(n));
    }
    if s :| s in config.dependencies && n in config.dependencies[s] && n !in Names(config.tasks) {
      assert SourceFault(config, s, UnknownTarget(n));
    }
  }

  ghost predicate SortedAs(g: Dag<string>, r: SortOutcome<string>) {
    && (r.Sorted? <==> Closed(g) && Acyclic(g))
    && (r.CycleFound? ==> Closed(g) && IsCycle(g, r.cycle))
    && (r.UnknownDependency? ==> Unknown(g, r.dep))
  }

  predicate Collides(config: WorkflowConfig, v: string) {
    && (exists i | 0 <= i < |config.tasks| :: v in OutputsOf(config.tasks[i].name))
    && (exists i | 0 <= i < |config.tasks| :: v in config.tasks[i].variables)
  }

  /** A collision is a variable that some task takes and that is named after an output of some task. */
  lemma CollidesByName(config: WorkflowConfig, v: string)
    ensures Collides(config, v) <==>
      && (exists t :: t in config.tasks && v in t.variables)
      && (exists t :: t in config.tasks && v in {t.name + "_output", t.name + "_text", t.name + "_result"})
  {
    forall t | t in config.tasks ensures exists i :: 0 <= i < |config.tasks| && config.tasks[i] == t {}
  }

  predicate KnownDependencies(config: WorkflowConfig) {
    forall n | n in config.dependencies ::
      n in Names(config.tasks) && forall d | d in config.dependencies[n] :: d in Names(config.tasks)
  }

  ghost predicate WellFormed(config: WorkflowConfig, headless: bool) {
    && WellFormedList(config.tasks, headless)
    && KnownDependencies(config)
    && Acyclic(GraphOf(config))
    && forall v :: !Collides(config, v)
  }

  /** A fault of the task, if its fields are not well formed. */
  function SomeFault(t: TaskSpec, headless: bool): Fault {
    if ModesSet(t) == 0 then NoMode
    else if ModesSet(t) > 1 then MultipleModes
    else if t.agent.Some? && t.taskPrompt.None? then MissingPrompt
    else if t.taskPrompt.Some? && t.agent.None? then MissingAgent
    else if HasAgentMode(t) && t.timeout.None? then MissingTimeout
    else if HasAgentMode(t) && t.contextRefinement.None? then MissingRefinement
    else if t.retry > 0 && t.retryResume.None? then MissingRetryResume
    else if t.retry > 0 && t.retryInjectFailure.None? then MissingInjectFailure
    else if t.forEach.Some? && t.forEachAbortOnFailure.None? then MissingAbortFlag
    else if t.forEach.Some? && t.maxConcurrency.None? then MissingConcurrency
    else if headless && t.contextRefinement == Some(true) then RefinementHeadless
    else DecisionHeadless
  }

  lemma WellFormedHasNoFault(t: TaskSpec, headless: bool, f: Fault)
    requires WellFormedFields(t, headless)
    ensures !HasFault(t, headless, f)
  {
    FaultsByField(t, headless, f);
  }

  lemma IllFormedHasFault(t: TaskSpec, headless: bool)
    requires !WellFormedFields(t, headless)
    ensures HasFault(t, headless, SomeFault(t, headless))
  {
    FaultsByField(t, headless, SomeFault(t, headless));
  }

  ghost predicate Faultless(t: TaskSpec, headless: bool) {
    forall e :: !Faulty(t, headless, e)
  }

  ghost predicate FaultlessAll(ts: seq<TaskSpec>, headless: bool) {
    forall e :: !FaultyList(ts, headless, e)
  }

  lemma {:induction false} FaultlessTask(t: TaskSpec, headless: bool)
    ensures Faultless(t, headless) <==> WellFormedTask(t, headless)
    decreases t
  {
    if t.subtasks.Present? { FaultlessList(t.subtasks.list, headless); }
    if WellFormedTask(t, headless) {
      forall e ensures !Faulty(t, headless, e) {
        if t.subtasks.Present? { assert !FaultyList(t.subtasks.list, headless, e); }
        if e.TaskError? { WellFormedHasNoFault(t, headless, e.fault); }
      }
    } else if !WellFormedFields(t, headless) {
      IllFormedHasFault(t, headless);
      assert Faulty(t, headless, TaskError(t.name, SomeFault(t, headless)));
    } else {
      var e :| FaultyList(t.subtasks.list, headless, e);
      assert Faulty(t, headless, e);
    }
  }

  lemma {:induction false} FaultlessList(ts: seq<TaskSpec>, headless: bool)
    ensures FaultlessAll(ts, headless) <==> WellFormedList(ts, headless)
    decreases ts
  {
    forall i | 0 <= i < |ts| ensures Faultless(ts[i], headless) <==> WellFormedTask(ts[i], headless) {
      FaultlessTask(ts[i], headless);
    }
    if !UniqueNames(ts) {
      var i, j :| 0 <= i < j < |ts| && ts[i].name == ts[j].name;
      assert FaultyList(ts, headless, DuplicateName(ts[i].name));
    } else if i :| 0 <= i < |ts| && !WellFormedTask(ts[i], headless) {
      assert !Faultless(ts[i], headless);
      var e :| Faulty(ts[i], headless, e);
      assert FaultyList(ts, headless, e);
    } else {
      assert WellFormedList(ts, headless);
      forall e ensures !FaultyList(ts, headless, e) {
        forall i | 0 <= i < |ts| ensures !Faulty(ts[i], headless, e) {
          assert Faultless(ts[i], headless);
        }
      }
    }
  }

  lemma FaultlessDependencies(config: WorkflowConfig)
    ensures (forall e :: !DependencyFault(config, e)) <==> KnownDependencies(config)
  {
    var names := Names(config.tasks);
    forall n | n in config.dependencies && n !in names ensures DependencyFault(config, UnknownSource(n)) {
      assert SourceFault(config, n, UnknownSource(n));
    }
    forall n, d | n in config.dependencies && d in config.dependencies[n] && d !in names
      ensures DependencyFault(config, UnknownTarget(d))
    {
      assert SourceFault(config, n, UnknownTarget(d));
    }
  }

  /** An error list that holds the faults of every kind is empty exactly for a well-formed config. */
  lemma NoErrors(config: WorkflowConfig, headless: bool, sorted: SortOutcome<string>, errors: seq<Error>)
    requires SortedAs(GraphOf(config), sorted) && !sorted.UnknownDependency?
    requires forall e :: e in errors <==>
      || FaultyList(config.tasks, headless, e) || DependencyFault(config, e)
      || (sorted.CycleFound? && e == DependencyCycle(sorted.cycle))
      || (e.Collision? && Collides(config, e.variable))
    ensures errors == [] <==> WellFormed(config, headless)
  {
    FaultlessList(config.tasks, headless);
    FaultlessDependencies(config);
    assert |errors| > 0 ==> errors[0] in errors;
    if WellFormed(config, headless) {
      forall e ensures e !in errors {}
    } else if !WellFormedList(config.tasks, headless) {
      var e :| FaultyList(config.tasks, headless, e);
      assert e in errors;
    } else if !KnownDependencies(config) {
      var e :| DependencyFault(config, e);
      assert e in errors;
    } else if !Acyclic(GraphOf(config)) {
      assert DependencyCycle(sorted.cycle) in errors;
    } else {
      var v :| Collides(config, v);
      assert Collision(v) in errors;
    }
  }

  lemma {:induction false} FaultKindOfTask(t: TaskSpec, headless: bool, e: Error)
    requires Faulty(t, headless, e)
    ensures e.TaskError? || e.DuplicateName?
    decreases t
  {
    if !e.TaskError? { FaultKindOfList(t.subtasks.list, headless, e); }
  }

  lemma {:induction false} FaultKindOfList(ts: seq<TaskSpec>, headless: bool, e: Error)
    requires FaultyList(ts, headless, e)
    ensures e.TaskError? || e.DuplicateName?
    decreases ts
  {
    if i :| 0 <= i < |ts| && Faulty(ts[i], headless, e) { FaultKindOfTask(ts[i], headless, e); }
  }

  /** The errors that do not depend on which cycle the sort finds. */
  predicate IsError(config: WorkflowConfig, headless: bool, e: Error) {
    || FaultyList(config.tasks, headless, e)
    || DependencyFault(config, e)
    || (e.Collision? && Collides(config, e.variable))
  }

  /**
   `None` is the KeyError of the sort, which escapes exactly when some dependency is neither a
   task nor a dependency source: the unknown target is then not reported as an error.
   */
  method ValidateTaskTree(config: WorkflowConfig, headless: bool) returns (r: Option<seq<Error>>)
    ensures r.None? <==> exists d :: Unknown(GraphOf(config), d)
    ensures r.Some? ==> (r.value == [] <==> WellFormed(config, headless))
    ensures r.Some? ==> forall e: Error :: !e.DependencyCycle? ==> (e in r.value <==> IsError(config, headless, e))
    ensures r.Some? ==> forall n, f :: TaskError(n, f) in r.value <==>
      exists t :: InTree(config.tasks, t) && t.name == n && CallsFor(t, headless, f)
    ensures r.Some? ==> forall e :: e in r.value && e.DependencyCycle? ==> IsCycle(GraphOf(config), e.cycle)
    ensures r.Some? && !Acyclic(GraphOf(config)) ==> exists c :: DependencyCycle(c) in r.value
  {
    var validation := new Validation(headless);
    validation.ValidateTasks(config.tasks);
    var sorted := validation.ValidateDependencies(config);
    if sorted.UnknownDependency? {
      return None;
    }
    validation.ValidateVariableCollisions(config);
    NoErrors(config, headless, sorted, validation.errors);
    assert sorted.CycleFound? ==> DependencyCycle(sorted.cycle) in validation.errors;
    forall e: Error | e.DependencyCycle? ensures !FaultyList(config.tasks, headless, e) {
      if FaultyList(config.tasks, headless, e) { FaultKindOfList(config.tasks, headless, e); }
    }
    forall n, f ensures FaultyList(config.tasks, headless, TaskError(n, f)) <==>
      exists t :: InTree(config.tasks, t) && t.name == n && CallsFor(t, headless, f)
    {
      ErrorsByField(config.tasks, headless, n, f);
    }
    r := Some(validation.errors);
  }

  /** The KeyError does escape: one task that depends on a name no task has. */
  lemma KeyErrorEscapes(t: TaskSpec, target: string)
    requires target != t.name
    ensures var config := WorkflowConfig([t], map[t.name := [target]], Halt);
            Unknown(GraphOf(config), target) && DependencyFault(config, UnknownTarget(target))
  {
    var config := WorkflowConfig([t], map[t.name := [target]], Halt);
    assert t.name in GraphOf(config) && target in GraphOf(config)[t.name];
    assert SourceFault(config, t.name, UnknownTarget(target));
  }
}
