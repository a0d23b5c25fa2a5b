/**
 The order in which a composite task runs its subtasks. It comes from their `depends_on` lists,
 which validation does not look at: it only checks the dependency table of the top level.
 */
module CompositeTask {
  import opened Wrappers
  import opened Graph
  import opened Validator

  datatype Plan =
    | AllAtOnce
    | InGroups(groups: seq<set<string>>)
    | CycleError(cycle: seq<string>)
    | KeyError(name: string)

  predicate HasDependencies(sub: TaskSpec) {
    sub.dependsOn.Some? && sub.dependsOn.value != []
  }

  /** The dependency lists by name; of two subtasks with one name the later counts. */
  function TableOf(subs: seq<TaskSpec>): map<string, seq<string>> {
    if subs == [] then map[]
    else
      var before, last := TableOf(subs[..|subs| - 1]), subs[|subs| - 1];
      if HasDependencies(last) then before[last.name := last.dependsOn.value] else before
  }

  function SubtaskGraph(subs: seq<TaskSpec>): Dag<string> {
    map n | n in Elements(Names(subs)) + TableOf(subs).Keys ::
      if n in TableOf(subs) then Elements(TableOf(subs)[n]) else {}
  }

  lemma {:induction false} TableKeys(subs: seq<TaskSpec>)
    ensures forall n :: n in TableOf(subs) <==>
      exists i :: 0 <= i < |subs| && subs[i].name == n && HasDependencies(subs[i])
  {
    if subs != [] {
      var before := subs[..|subs| - 1];
      TableKeys(before);
      forall i | 0 <= i < |before| ensures before[i] == subs[i] {}
    }
  }

  /** The entry of a name is the list of the last subtask with that name that has one. */
  lemma {:induction false} TableEntry(subs: seq<TaskSpec>, i: nat)
    requires i < |subs| && HasDependencies(subs[i])
    requires forall j :: i < j < |subs| && subs[j].name == subs[i].name ==> !HasDependencies(subs[j])
    ensures subs[i].name in TableOf(subs) && TableOf(subs)[subs[i].name] == subs[i].dependsOn.value
  {
    if i < |subs| - 1 { TableEntry(subs[..|subs| - 1], i); }
  }

  /** Under distinct names a subtask depends on exactly what its own list names. */
  lemma DependsAsListed(subs: seq<TaskSpec>, i: nat, d: string)
    requires i < |subs| && forall j, k :: 0 <= j < k < |subs| ==> subs[j].name != subs[k].name
    ensures subs[i].name in SubtaskGraph(subs)
    ensures d in SubtaskGraph(subs)[subs[i].name] <==>
      subs[i].dependsOn != None && exists k :: 0 <= k < |subs[i].dependsOn.value| && subs[i].dependsOn.value[k] == d
  {
    assert Names(subs)[i] == subs[i].name;
    TableKeys(subs);
    if HasDependencies(subs[i]) { TableEntry(subs, i); }
  }

  /**
   The groups in which the subtasks run. The CycleError or KeyError of the sort escapes from the
   execution exactly when the dependency lists are cyclic or name no sibling.
   */
  method PlanSubtasks(subs: seq<TaskSpec>) returns (plan: Plan)
    ensures plan.AllAtOnce? <==> forall i :: 0 <= i < |subs| ==> !HasDependencies(subs[i])
    ensures !plan.AllAtOnce? ==>
      && (plan.InGroups? <==> Closed(SubtaskGraph(subs)) && Acyclic(SubtaskGraph(subs)))
      && (plan.InGroups? ==> Layered(SubtaskGraph(subs), SubtaskGraph(subs).Keys, plan.groups))
      && (plan.CycleError? ==> IsCycle(SubtaskGraph(subs), plan.cycle))
      && (plan.KeyError? <==> exists d :: Unknown(SubtaskGraph(subs), d))
  {
    var deps, hasDeps := map[], false;
    for i := 0 to |subs|
      invariant deps == TableOf(subs[..i])
      invariant hasDeps <==> exists k :: 0 <= k < i && HasDependencies(subs[k])
    {
      assert subs[..i + 1][..i] == subs[..i];
      if HasDependencies(subs[i]) {
        hasDeps := true;
        deps := deps[subs[i].name := subs[i].dependsOn.value];
      }
    }
    assert subs[..|subs|] == subs;
    if !hasDeps {
      return AllAtOnce;
    }
    var graph := BuildGraph(Names(subs), deps);
    assert graph == SubtaskGraph(subs);
    var sorted := TopologicalSort(graph);
    match sorted {
      case UnknownDependency(d) => plan := KeyError(d);
      case CycleFound(c) => plan := CycleError(c);
      case Sorted(order) =>
        var groups := FindParallelGroups(graph, order);
        plan := InGroups(groups.value);
    }
  }

  function Leaf(name: string, dependsOn: Option<seq<string>>): TaskSpec {
    TaskSpec(name, None, None, Some("f"), Absent, None, None, [], dependsOn, None, None, 0, None, None, None, None, None)
  }

  function Selfish(): TaskSpec {
    Leaf("b", Some(["b"]))
  }

  function Parent(): TaskSpec {
    TaskSpec("a", None, None, None, Present([Selfish()]), None, None, [], None, None, None, 0, None, None, None, None, None)
  }

  lemma ParentIsWellFormed(headless: bool)
    ensures WellFormedList([Parent()], headless)
  {
    assert WellFormedTask(Selfish(), headless);
    assert WellFormedList([Selfish()], headless);
  }

  /** Validation accepts a composite task with a subtask that depends on itself. */
  lemma ValidatedYetCyclic(headless: bool)
    ensures var config := WorkflowConfig([Parent()], map[], ContinueIndependent);
      && WellFormed(config, headless)
      && config.tasks[0].subtasks == Present([Selfish()])
      && !Acyclic(SubtaskGraph([Selfish()]))
  {
    var config := WorkflowConfig([Parent()], map[], ContinueIndependent);
    ParentIsWellFormed(headless);
    var g := GraphOf(config);
    forall w: seq<string> | |w| >= 2 ensures !Walk(g, w) {
      assert !Edge(g, w[0], w[1]);
    }
    var subs := [Selfish()];
    assert subs[..0] == [] && TableOf(subs) == map["b" := ["b"]];
    var h := SubtaskGraph(subs);
    assert Names(subs)[0] == "b" && "b" in h && h["b"] == Elements(["b"]);
    assert "b" in ["b"];
    var w := ["b", "b"];
    assert Edge(h, "b", "b");
    assert Walk(h, w) && w[0] == w[|w| - 1];
  }
}
