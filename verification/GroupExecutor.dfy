/**
 The execution of a validated workflow in groups. Tasks of one group run concurrently, so a run
 is any sequence of steps in which tasks of the open group start and finish in any order; what
 a task returns, and whether it ends escalated, is an oracle. Pausing and cancelling from
 outside, and the health checks of services, are not modelled.
 */
module GroupExecutor {
  import opened Wrappers
  import opened Graph
  import opened Validator

  datatype TaskResult = TaskResult(
    output: Option<string>, structured: Option<map<string, string>>, checks: seq<bool>, retries: int)

  datatype Value =
    | Structured(fields: map<string, string>)
    | Plain(text: Option<string>)
    | Meta(passed: bool, retries: int)

  type Variables = map<string, Value>

  /** What a task publishes under each suffix; an empty structured output counts as none. */
  function ValueOf(r: TaskResult, s: Suffix): Value {
    match s
    case Output =>
      if r.structured.Some? && r.structured.value != map[] then Structured(r.structured.value) else Plain(r.output)
    case Text => Plain(r.output)
    case ResultMeta => Meta(forall i | 0 <= i < |r.checks| :: r.checks[i], r.retries)
  }

  datatype Status = Going | Halted | Aborted

  datatype World = World(
    k: nat, open: bool, status: Status,
    given: map<string, Variables>,     // the snapshot of the variables each task was created with
    starts: seq<string>, results: map<string, TaskResult>, escalated: set<string>,
    variables: Variables)

  datatype Step =
    | OpenGroup
    | StartTask(name: string)
    | FinishTask(name: string, result: TaskResult, escalates: bool)
    | CloseGroup

  const INIT := World(0, false, Going, map[], [], map[], {}, map[])

  /** The variables after the results of a group have been written, task by task. */
  function Publish(vars: Variables, group: seq<string>, results: map<string, TaskResult>): Variables
    requires Elements(group) <= results.Keys
  {
    if group == [] then vars
    else
      var n := group[|group| - 1];
      assert n in Elements(group);
      Publish(vars, group[..|group| - 1], results)
        [Key(n, Output) := ValueOf(results[n], Output)]
        [Key(n, Text) := ValueOf(results[n], Text)]
        [Key(n, ResultMeta) := ValueOf(results[n], ResultMeta)]
  }

  method PublishResults(vars: Variables, group: seq<string>, results: map<string, TaskResult>)
    returns (after: Variables)
    requires Elements(group) <= results.Keys
    ensures after == Publish(vars, group, results)
  {
    after := vars;
    for i := 0 to |group|
      invariant Elements(group[..i]) <= results.Keys && after == Publish(vars, group[..i], results)
    {
      var name := group[i];
      assert name in Elements(group);
      assert group[..i + 1][..i] == group[..i] && Elements(group[..i + 1]) <= Elements(group);
      var result := results[name];
      after := after[Key(name, Output) := ValueOf(result, Output)];
      after := after[Key(name, Text) := ValueOf(result, Text)];
      after := after[Key(name, ResultMeta) := ValueOf(result, ResultMeta)];
    }
    assert group[..|group|] == group;
  }

  function StatusAfter(policy: EscalationPolicy, escalated: bool): Status {
    if !escalated || policy == ContinueIndependent then Going
    else if policy == Halt then Halted
    else Aborted
  }

  function Next(policy: EscalationPolicy, groups: seq<seq<string>>, w: World, step: Step): World {
    match step
    case OpenGroup =>
      if w.open || w.k >= |groups| || w.status != Going then w
      else w.(open := true, given := w.given + map n | n in Elements(groups[w.k]) :: w.variables)
    case StartTask(n) =>
      if !w.open || w.k >= |groups| || n !in groups[w.k] || n in w.starts then w
      else w.(starts := w.starts + [n])
    case FinishTask(n, result, escalates) =>
      if n !in w.starts || n in w.results then w
      else
        w.(results := w.results[n := result],
           escalated := if escalates then w.escalated + {n} else w.escalated)
    case CloseGroup =>
      if !w.open || w.k >= |groups| || !(Elements(groups[w.k]) <= w.results.Keys) then w
      else
        w.(open := false, k := w.k + 1, variables := Publish(w.variables, groups[w.k], w.results),
           status := StatusAfter(policy, Elements(groups[w.k]) * w.escalated != {}))
  }

  function Run(policy: EscalationPolicy, groups: seq<seq<string>>, steps: seq<Step>): World {
    if steps == [] then INIT
    else Next(policy, groups, Run(policy, groups, steps[..|steps| - 1]), steps[|steps| - 1])
  }

  // ---- the plan -------------------------------------------------------------------------

  function Layers(groups: seq<seq<string>>): (layers: seq<set<string>>)
    ensures |layers| == |groups| && forall k :: 0 <= k < |groups| ==> layers[k] == Elements(groups[k])
  {
    seq(|groups|, k requires 0 <= k < |groups| => Elements(groups[k]))
  }

  /** The groups that the executor runs: the tasks by longest dependency chain, each once. */
  ghost predicate IsPlan(config: WorkflowConfig, groups: seq<seq<string>>) {
    && Closed(GraphOf(config))
    && Layered(GraphOf(config), Elements(Names(config.tasks)), Layers(groups))
    && GraphOf(config).Keys == Elements(Names(config.tasks))
    && forall k :: 0 <= k < |groups| ==> NoDup(groups[k])
  }

  lemma WellFormedGraph(config: WorkflowConfig, headless: bool)
    requires WellFormed(config, headless)
    ensures Closed(GraphOf(config)) && GraphOf(config).Keys == Elements(Names(config.tasks))
  {
  }

  /**
   After validation returned no errors neither the sort nor the layering can fail, and every
   name in the groups is a registered task.
   */
  method Prepare(config: WorkflowConfig, headless: bool) returns (groups: seq<seq<string>>)
    requires WellFormed(config, headless)
    ensures IsPlan(config, groups)
  {
    var graph := BuildGraph(Names(config.tasks), config.dependencies);
    assert graph == GraphOf(config);
    WellFormedGraph(config, headless);
    var sorted := TopologicalSort(graph);
    var layers := FindParallelGroups(graph, sorted.order);
    groups := ListGroups(layers.value);
    assert Layers(groups) == layers.value;
  }

  /** Each layer as a list; the order within a group is arbitrary. */
  method ListGroups(layers: seq<set<string>>) returns (groups: seq<seq<string>>)
    ensures |groups| == |layers|
    ensures forall k :: 0 <= k < |groups| ==> NoDup(groups[k]) && Elements(groups[k]) == layers[k]
  {
    groups := [];
    for k := 0 to |layers|
      invariant |groups| == k
      invariant forall j :: 0 <= j < k ==> NoDup(groups[j]) && Elements(groups[j]) == layers[j]
    {
      var group := SetToSeq(layers[k]);
      groups := groups + [group];
    }
  }

  // ---- what every run keeps -------------------------------------------------------------

  /** The groups that have been opened so far. */
  function Opened(w: World): nat {
    if w.open then w.k + 1 else w.k
  }

  ghost predicate InFirst(groups: seq<seq<string>>, m: int, n: string) {
    exists j :: 0 <= j < m && j < |groups| && n in groups[j]
  }

  /** `vars` holds the three outputs of every task of the first `m` groups. */
  ghost predicate SeesAll(groups: seq<seq<string>>, m: int, vars: Variables, results: map<string, TaskResult>) {
    forall n {:trigger Sees(vars, results, n)} :: InFirst(groups, m, n) ==> Sees(vars, results, n)
  }

  ghost predicate Sees(vars: Variables, results: map<string, TaskResult>, n: string) {
    n in results && forall s :: HasValue(vars, n, s, ValueOf(results[n], s))
  }

  ghost predicate StartsInv(groups: seq<seq<string>>, w: World) {
    && Opened(w) <= |groups| && NoDup(w.starts)
    && (forall n :: n in w.starts ==> InFirst(groups, Opened(w), n))
    && (forall n :: n in w.results ==> n in w.starts)
    && (forall n :: n in w.escalated ==> n in w.results)
    && (forall n :: InFirst(groups, w.k, n) ==> n in w.results)
  }

  ghost predicate VariablesInv(groups: seq<seq<string>>, w: World) {
    && SeesAll(groups, w.k, w.variables, w.results)
    && (forall j, n :: 0 <= j < Opened(w) && j < |groups| && n in groups[j] ==> GivenInv(groups, w, j, n))
  }

  ghost predicate GivenInv(groups: seq<seq<string>>, w: World, j: nat, n: string) {
    n in w.given && SeesAll(groups, j, w.given[n], w.results)
  }

  /** Some task of a group that is over has ended escalated. */
  ghost predicate HasEscalated(groups: seq<seq<string>>, w: World) {
    exists n :: n in w.escalated && InFirst(groups, w.k, n)
  }

  /** HALT and ABORT_ALL, and only they, stop the run right after a group with an escalated task. */
  ghost predicate StatusInv(policy: EscalationPolicy, groups: seq<seq<string>>, w: World) {
    && (w.open ==> w.status == Going)
    && (w.status == Halted <==> policy == Halt && HasEscalated(groups, w))
    && (w.status == Aborted <==> policy == AbortAll && HasEscalated(groups, w))
    && (policy != ContinueIndependent ==>
          forall n :: n in w.escalated && InFirst(groups, w.k, n) ==> !InFirst(groups, w.k - 1, n))
  }

  predicate HasValue(vars: Variables, n: string, s: Suffix, v: Value) {
    Key(n, s) in vars && vars[Key(n, s)] == v
  }

  lemma {:induction false} PublishedValues(vars: Variables, group: seq<string>, results: map<string, TaskResult>,
                                           n: string, s: Suffix)
    requires Elements(group) <= results.Keys
    ensures n in group ==> HasValue(Publish(vars, group, results), n, s, ValueOf(results[n], s))
    ensures n !in group ==> forall v :: HasValue(vars, n, s, v) ==> HasValue(Publish(vars, group, results), n, s, v)
  {
    if group != [] {
      var last := group[|group| - 1];
      assert last in Elements(group);
      PublishedValues(vars, group[..|group| - 1], results, n, s);
      KeysAreDistinct(n, s, last, Output);
      KeysAreDistinct(n, s, last, Text);
      KeysAreDistinct(n, s, last, ResultMeta);
      KeysAreDistinct(last, Output, last, Text);
      KeysAreDistinct(last, Output, last, ResultMeta);
      KeysAreDistinct(last, Text, last, ResultMeta);
    }
  }

  lemma ResultsOnlyGrow(groups: seq<seq<string>>, m: int, vars: Variables,
                        results: map<string, TaskResult>, more: map<string, TaskResult>)
    requires SeesAll(groups, m, vars, results)
    requires forall n :: n in results ==> n in more && more[n] == results[n]
    ensures SeesAll(groups, m, vars, more)
  {
    forall n | InFirst(groups, m, n) ensures Sees(vars, more, n) { assert Sees(vars, results, n); }
  }

  lemma PublishGroup(groups: seq<seq<string>>, k: nat, vars: Variables, results: map<string, TaskResult>)
    requires k < |groups| && Elements(groups[k]) <= results.Keys
    requires SeesAll(groups, k, vars, results)
    ensures SeesAll(groups, k + 1, Publish(vars, groups[k], results), results)
  {
    var after := Publish(vars, groups[k], results);
    forall n | InFirst(groups, k + 1, n) ensures Sees(after, results, n) {
      if n in groups[k] {
        assert n in Elements(groups[k]);
      } else {
        assert InFirst(groups, k, n);
        assert Sees(vars, results, n);
      }
      forall s ensures HasValue(after, n, s, ValueOf(results[n], s)) {
        PublishedValues(vars, groups[k], results, n, s);
      }
    }
  }

  lemma StepKeepsStarts(policy: EscalationPolicy, groups: seq<seq<string>>, w: World, step: Step)
    requires StartsInv(groups, w)
    ensures StartsInv(groups, Next(policy, groups, w, step))
  {
    var v := Next(policy, groups, w, step);
    if step.OpenGroup? || step.CloseGroup? {
      forall n | InFirst(groups, Opened(w), n) ensures InFirst(groups, Opened(v), n) {}
      forall n | InFirst(groups, v.k, n) ensures n in v.results {
        if !InFirst(groups, w.k, n) { assert n in Elements(groups[w.k]); }
      }
    }
  }

  lemma StepKeepsVariables(policy: EscalationPolicy, groups: seq<seq<string>>, w: World, step: Step)
    requires StartsInv(groups, w) && VariablesInv(groups, w)
    ensures VariablesInv(groups, Next(policy, groups, w, step))
  {
    var v := Next(policy, groups, w, step);
    if step.CloseGroup? && v != w { PublishGroup(groups, w.k, w.variables, w.results); }
    ResultsOnlyGrow(groups, w.k, w.variables, w.results, v.results);
    forall j, n | 0 <= j < Opened(v) && j < |groups| && n in groups[j] ensures GivenInv(groups, v, j, n) {
      if j < Opened(w) {
        assert GivenInv(groups, w, j, n);
        ResultsOnlyGrow(groups, j, w.given[n], w.results, v.results);
      }
      FewerGroups(groups, j, w.k, w.variables, w.results);
    }
  }

  lemma FewerGroups(groups: seq<seq<string>>, j: int, k: int, vars: Variables, results: map<string, TaskResult>)
    requires SeesAll(groups, k, vars, results)
    ensures j <= k ==> SeesAll(groups, j, vars, results)
  {
    if j <= k {
      forall n | InFirst(groups, j, n) ensures Sees(vars, results, n) { assert InFirst(groups, k, n); }
    }
  }

  /** Closing a group that holds an escalated task is what makes the run have one. */
  lemma CloseFindsEscalated(policy: EscalationPolicy, groups: seq<seq<string>>, w: World)
    requires StartsInv(groups, w) && Next(policy, groups, w, CloseGroup) != w
    ensures var v := Next(policy, groups, w, CloseGroup);
      HasEscalated(groups, v) <==> HasEscalated(groups, w) || Elements(groups[w.k]) * w.escalated != {}
  {
    var v := Next(policy, groups, w, CloseGroup);
    forall n ensures InFirst(groups, v.k, n) <==> InFirst(groups, w.k, n) || n in groups[w.k] {
      if n in groups[w.k] { assert InFirst(groups, v.k, n); }
    }
    if HasEscalated(groups, v) {
      var n :| n in v.escalated && InFirst(groups, v.k, n);
      assert n in groups[w.k] ==> n in Elements(groups[w.k]) * w.escalated;
    }
    if n :| n in Elements(groups[w.k]) * w.escalated { assert InFirst(groups, v.k, n); }
  }

  lemma FinishKeepsStatus(policy: EscalationPolicy, groups: seq<seq<string>>, w: World, step: Step)
    requires StartsInv(groups, w) && StatusInv(policy, groups, w) && step.FinishTask?
    ensures StatusInv(policy, groups, Next(policy, groups, w, step))
  {
    var v := Next(policy, groups, w, step);
    if v != w {
      assert !InFirst(groups, w.k, step.name);
      assert forall n :: n in v.escalated && InFirst(groups, w.k, n) <==> n in w.escalated && InFirst(groups, w.k, n);
    }
  }

  lemma StepKeepsStatus(policy: EscalationPolicy, groups: seq<seq<string>>, w: World, step: Step)
    requires StartsInv(groups, w) && StatusInv(policy, groups, w)
    ensures StatusInv(policy, groups, Next(policy, groups, w, step))
  {
    var v := Next(policy, groups, w, step);
    if step.CloseGroup? && v != w {
      CloseFindsEscalated(policy, groups, w);
      assert policy != ContinueIndependent ==> !HasEscalated(groups, w);
    } else if step.FinishTask? {
      FinishKeepsStatus(policy, groups, w, step);
    }
  }

  lemma {:induction false} EveryRun(policy: EscalationPolicy, groups: seq<seq<string>>, steps: seq<Step>)
    ensures StartsInv(groups, Run(policy, groups, steps))
    ensures VariablesInv(groups, Run(policy, groups, steps))
    ensures StatusInv(policy, groups, Run(policy, groups, steps))
  {
    if steps != [] {
      var before := steps[..|steps| - 1];
      EveryRun(policy, groups, before);
      StepKeepsStarts(policy, groups, Run(policy, groups, before), steps[|steps| - 1]);
      StepKeepsVariables(policy, groups, Run(policy, groups, before), steps[|steps| - 1]);
      StepKeepsStatus(policy, groups, Run(policy, groups, before), steps[|steps| - 1]);
    }
  }

  // ---- the theorems ---------------------------------------------------------------------

  /** The three variables of a task of the group, by name, after its results have been written. */
  lemma PublishedFields(vars: Variables, group: seq<string>, results: map<string, TaskResult>, n: string)
    requires Elements(group) <= results.Keys && n in group
    ensures var after, r := Publish(vars, group, results), results[n];
      && {n + "_output", n + "_text", n + "_result"} <= after.Keys
      && after[n + "_text"] == Plain(r.output)
      && after[n + "_output"] ==
           (if r.structured == None || r.structured == Some(map[]) then Plain(r.output) else Structured(r.structured.value))
      && after[n + "_result"].Meta? && after[n + "_result"].retries == r.retries
      && (after[n + "_result"].passed <==> false !in r.checks)
  {
    PublishedValues(vars, group, results, n, Output);
    PublishedValues(vars, group, results, n, Text);
    PublishedValues(vars, group, results, n, ResultMeta);
    var r := results[n];
    if false in r.checks {
      var i :| 0 <= i < |r.checks| && !r.checks[i];
    }
  }

  /** How a run stands once a task of a group that is over has ended escalated, by policy. */
  lemma StoppedByPolicy(policy: EscalationPolicy, groups: seq<seq<string>>, steps: seq<Step>)
    ensures var w := Run(policy, groups, steps);
            var escalated := exists n, j :: n in w.escalated && 0 <= j < w.k && j < |groups| && n in groups[j];
            w.status == if !escalated then Going else
              match policy
              case Halt => Halted
              case AbortAll => Aborted
              case ContinueIndependent => Going
  {
    EveryRun(policy, groups, steps);
    var w := Run(policy, groups, steps);
    assert HasEscalated(groups, w) <==>
      exists n, j :: n in w.escalated && 0 <= j < w.k && j < |groups| && n in groups[j];
  }

  /** `d` is reached from `n` along one or more dependencies. */
  ghost predicate DependsOn(g: Dag<string>, n: string, d: string) {
    exists w :: |w| >= 2 && Walk(g, w) && w[0] == n && w[|w| - 1] == d
  }

  lemma GroupsAreDisjoint(config: WorkflowConfig, groups: seq<seq<string>>, i: nat, j: nat, n: string)
    requires IsPlan(config, groups) && i < |groups| && j < |groups| && n in groups[i] && n in groups[j]
    ensures i == j
  {
    var g := GraphOf(config);
    assert n in Layers(groups)[i] && n in Layers(groups)[j];
    assert LongestChain(g, n, i) && LongestChain(g, n, j);
  }

  /** Every transitive dependency is in a strictly earlier group. */
  lemma {:induction false} WalkLeadsToEarlierGroup(config: WorkflowConfig, groups: seq<seq<string>>, w: seq<string>, k: nat)
    requires IsPlan(config, groups) && k < |groups| && |w| >= 1 && w[0] in groups[k]
    requires Walk(GraphOf(config), w)
    ensures |w| >= 2 ==> InFirst(groups, k, w[|w| - 1])
    ensures InFirst(groups, k + 1, w[|w| - 1])
  {
    var g, layers := GraphOf(config), Layers(groups);
    if |w| >= 2 {
      var v := w[..|w| - 1];
      var n, d := w[|w| - 2], w[|w| - 1];
      assert Edge(g, n, d);
      WalkLeadsToEarlierGroup(config, groups, v, k);
      var i :| 0 <= i < k + 1 && i < |groups| && n in groups[i];
      assert InSomeGroup(layers, d);
      var j :| 0 <= j < |layers| && d in layers[j];
      assert n in layers[i];
      DependenciesInEarlierGroups(g, Elements(Names(config.tasks)), layers, i, n, j, d);
    }
  }

  /**
   In every interleaving, when a task has started all its transitive dependencies have finished,
   and the snapshot it was given holds the three outputs of each of them. As this holds of
   every prefix of a run, they finished before it started.
   */
  lemma StartsAfterDependencies(config: WorkflowConfig, groups: seq<seq<string>>, steps: seq<Step>,
                                n: string, d: string)
    requires IsPlan(config, groups)
    requires n in Run(config.policy, groups, steps).starts && DependsOn(GraphOf(config), n, d)
    ensures var w := Run(config.policy, groups, steps);
      d in w.results && n in w.given && Sees(w.given[n], w.results, d)
  {
    EveryRun(config.policy, groups, steps);
    var w := Run(config.policy, groups, steps);
    var k :| 0 <= k < Opened(w) && k < |groups| && n in groups[k];
    var walk :| |walk| >= 2 && Walk(GraphOf(config), walk) && walk[0] == n && walk[|walk| - 1] == d;
    WalkLeadsToEarlierGroup(config, groups, walk, k);
    assert GivenInv(groups, w, k, n);
    assert Sees(w.given[n], w.results, d);
  }

  /** Under HALT and ABORT_ALL no task of a group after an escalated one ever starts. */
  lemma NothingAfterEscalation(config: WorkflowConfig, groups: seq<seq<string>>, steps: seq<Step>,
                               n: string, i: nat, m: string, j: nat)
    requires IsPlan(config, groups) && config.policy != ContinueIndependent
    requires i < |groups| && n in groups[i] && n in Run(config.policy, groups, steps).starts
    requires j < |groups| && m in groups[j] && m in Run(config.policy, groups, steps).escalated
    ensures i <= j
  {
    EveryRun(config.policy, groups, steps);
    var w := Run(config.policy, groups, steps);
    var a :| 0 <= a < Opened(w) && a < |groups| && n in groups[a];
    GroupsAreDisjoint(config, groups, i, a, n);
    assert m in w.starts;
    var b :| 0 <= b < Opened(w) && b < |groups| && m in groups[b];
    GroupsAreDisjoint(config, groups, j, b, m);
    if j < w.k {
      assert InFirst(groups, w.k, m);
      assert !InFirst(groups, w.k - 1, m);
    }
  }

  /** All groups are over, or the policy has stopped the run between two groups. */
  predicate IsOver(groups: seq<seq<string>>, w: World) {
    !w.open && (w.k == |groups| || w.status != Going)
  }

  lemma OnlyTasksStart(config: WorkflowConfig, groups: seq<seq<string>>, w: World, n: string)
    requires IsPlan(config, groups) && StartsInv(groups, w) && n in w.starts
    ensures n in Names(config.tasks)
  {
    var k :| 0 <= k < Opened(w) && k < |groups| && n in groups[k];
    assert n in Layers(groups)[k];
  }

  lemma EveryTaskFinished(config: WorkflowConfig, groups: seq<seq<string>>, w: World, n: string)
    requires IsPlan(config, groups) && StartsInv(groups, w) && w.k == |groups|
    requires n in Names(config.tasks)
    ensures n in w.starts && n in w.results
  {
    assert InSomeGroup(Layers(groups), n);
    assert InFirst(groups, w.k, n);
  }

  /** Under CONTINUE_INDEPENDENT a run that is over has started every task exactly once. */
  lemma EveryTaskRunsOnce(config: WorkflowConfig, groups: seq<seq<string>>, steps: seq<Step>)
    requires IsPlan(config, groups) && config.policy == ContinueIndependent
    requires IsOver(groups, Run(config.policy, groups, steps))
    ensures var w := Run(config.policy, groups, steps);
      && NoDup(w.starts)
      && (forall n :: n in w.starts <==> n in Names(config.tasks))
      && (forall n :: n in w.results <==> n in Names(config.tasks))
  {
    EveryRun(config.policy, groups, steps);
    var w := Run(config.policy, groups, steps);
    forall n | n in Names(config.tasks) ensures n in w.starts && n in w.results {
      EveryTaskFinished(config, groups, w, n);
    }
    forall n | n in w.starts ensures n in Names(config.tasks) { OnlyTasksStart(config, groups, w, n); }
  }

  /** No run gets stuck before it is over. */
  lemma SomeStepIsEnabled(config: WorkflowConfig, groups: seq<seq<string>>, steps: seq<Step>) returns (step: Step)
    requires IsPlan(config, groups) && !IsOver(groups, Run(config.policy, groups, steps))
    ensures Next(config.policy, groups, Run(config.policy, groups, steps), step) != Run(config.policy, groups, steps)
  {
    EveryRun(config.policy, groups, steps);
    var w := Run(config.policy, groups, steps);
    if !w.open {
      step := OpenGroup;
    } else if Elements(groups[w.k]) <= w.results.Keys {
      step := CloseGroup;
    } else {
      var n :| n in Elements(groups[w.k]) && n !in w.results;
      if n in w.starts {
        step := FinishTask(n, TaskResult(None, None, [], 0), false);
        assert n in Next(config.policy, groups, w, step).results;
      } else {
        step := StartTask(n);
        assert n in Next(config.policy, groups, w, step).starts;
      }
    }
  }

  // ---- every run ends ---------------------------------------------------------------------

  /** The steps still to come: of each group to open and to close, of each task to start and to end. */
  ghost function Remaining(config: WorkflowConfig, groups: seq<seq<string>>, w: World): int {
    2 * (|groups| - w.k) - (if w.open then 1 else 0)
    + 2 * |Elements(Names(config.tasks))| - |w.starts| - |w.results|
  }

  lemma StepLowersRemaining(config: WorkflowConfig, groups: seq<seq<string>>, w: World, step: Step)
    requires Next(config.policy, groups, w, step) != w
    ensures Remaining(config, groups, Next(config.policy, groups, w, step)) < Remaining(config, groups, w)
  {
  }

  lemma RemainingIsNatural(config: WorkflowConfig, groups: seq<seq<string>>, w: World)
    requires IsPlan(config, groups) && StartsInv(groups, w)
    ensures Remaining(config, groups, w) >= 0
  {
    var names := Elements(Names(config.tasks));
    forall n | n in w.starts ensures n in names { OnlyTasksStart(config, groups, w, n); }
    SizeOfElements(w.starts);
    SubsetSize(Elements(w.starts), names);
    SubsetSize(w.results.Keys, Elements(w.starts));
  }

  lemma SubsetSize(a: set<string>, b: set<string>)
    requires a <= b
    ensures |a| <= |b|
  {
    assert b == a + (b - a);
  }

  /** Each step of the run changes something. */
  predicate Effective(policy: EscalationPolicy, groups: seq<seq<string>>, steps: seq<Step>) {
    steps == [] ||
    (Effective(policy, groups, steps[..|steps| - 1])
     && Run(policy, groups, steps) != Run(policy, groups, steps[..|steps| - 1]))
  }

  lemma {:induction false} StepsAreCounted(config: WorkflowConfig, groups: seq<seq<string>>, steps: seq<Step>)
    requires Effective(config.policy, groups, steps)
    ensures |steps| + Remaining(config, groups, Run(config.policy, groups, steps)) <= Remaining(config, groups, INIT)
  {
    if steps != [] {
      var before := steps[..|steps| - 1];
      StepsAreCounted(config, groups, before);
      StepLowersRemaining(config, groups, Run(config.policy, groups, before), steps[|steps| - 1]);
    }
  }

  /** No run goes on for ever: it has at most two steps for each group and for each task. */
  lemma RunsAreBounded(config: WorkflowConfig, groups: seq<seq<string>>, steps: seq<Step>)
    requires IsPlan(config, groups) && Effective(config.policy, groups, steps)
    ensures |steps| <= 2 * |groups| + 2 * |Elements(Names(config.tasks))|
  {
    EveryRun(config.policy, groups, steps);
    StepsAreCounted(config, groups, steps);
    RemainingIsNatural(config, groups, Run(config.policy, groups, steps));
  }

  /** A run that cannot go on is over. */
  lemma MaximalRunIsOver(config: WorkflowConfig, groups: seq<seq<string>>, steps: seq<Step>)
    requires IsPlan(config, groups)
    requires var w := Run(config.policy, groups, steps);
      forall step :: Next(config.policy, groups, w, step) == w
    ensures IsOver(groups, Run(config.policy, groups, steps))
  {
    if !IsOver(groups, Run(config.policy, groups, steps)) {
      var step := SomeStepIsEnabled(config, groups, steps);
    }
  }
}
