/**
 The concurrent iterations of a for_each task: a semaphore bounds how many run at once and a
 shared abort flag stops new ones. Every schedule is a sequence of steps of the iterations; what
 an iteration returns or raises is an oracle.
 */
module ForEach {
  import opened Wrappers

  type Item = int

  /** A result carries the item of the iteration variables it was computed from. */
  datatype TaskResult = TaskResult(item: Item, passed: bool, output: int)

  datatype Iteration = NotStarted | Waiting | InFlight(item: Item) | Finished | Skipped

  datatype Config = Config(items: seq<Item>, maxConcurrency: nat, abortOnFailure: bool)

  datatype World = World(
    iterations: seq<Iteration>, permits: nat, abort: bool,
    results: seq<Option<TaskResult>>, created: seq<nat>)

  datatype Step =
    | Start(i: nat)    // the iteration's task begins and looks at the flag
    | Acquire(i: nat)  // it takes a permit, looks at the flag again and creates its record
    | Finish(i: nat, returned: Option<(bool, int)>, raised: bool)

  function Init(c: Config): World {
    World(seq(|c.items|, _ => NotStarted), c.maxConcurrency, false, seq(|c.items|, _ => None), [])
  }

  function Next(c: Config, w: World, step: Step): World {
    if step.i >= |c.items| || |w.iterations| != |c.items| || |w.results| != |c.items| then w
    else
      var it := w.iterations[step.i];
      match step
      case Start(i) =>
        if it != NotStarted then w
        else w.(iterations := w.iterations[i := if w.abort then Skipped else Waiting])
      case Acquire(i) =>
        if it != Waiting || w.permits == 0 then w
        else if w.abort then w.(iterations := w.iterations[i := Skipped])
        else
          w.(iterations := w.iterations[i := InFlight(c.items[i])], permits := w.permits - 1,
             created := w.created + [i])
      case Finish(i, returned, raised) =>
        if !it.InFlight? then w
        else
          var result :=
            if returned.Some? then Some(TaskResult(it.item, returned.value.0, returned.value.1)) else w.results[i];
          var failed := raised || (returned.Some? && !returned.value.0);
          w.(iterations := w.iterations[i := Finished], permits := w.permits + 1,
             results := w.results[i := result], abort := w.abort || (failed && c.abortOnFailure))
  }

  function Run(c: Config, steps: seq<Step>): World {
    if steps == [] then Init(c) else Next(c, Run(c, steps[..|steps| - 1]), steps[|steps| - 1])
  }

  function CountInFlight(its: seq<Iteration>): nat {
    if its == [] then 0
    else CountInFlight(its[..|its| - 1]) + if its[|its| - 1].InFlight? then 1 else 0
  }

  lemma {:induction false} CountUpdate(its: seq<Iteration>, i: nat, it: Iteration)
    requires i < |its|
    ensures CountInFlight(its[i := it]) + (if its[i].InFlight? then 1 else 0)
         == CountInFlight(its) + (if it.InFlight? then 1 else 0)
  {
    var front := its[..|its| - 1];
    if i < |its| - 1 {
      assert its[i := it][..|its| - 1] == front[i := it];
      CountUpdate(front, i, it);
    } else {
      assert its[i := it][..|its| - 1] == front;
    }
  }

  lemma {:induction false} CountNone(its: seq<Iteration>)
    requires forall i :: 0 <= i < |its| ==> !its[i].InFlight?
    ensures CountInFlight(its) == 0
  {
    if its != [] { CountNone(its[..|its| - 1]); }
  }

  ghost predicate Inv(c: Config, w: World) {
    && |w.iterations| == |w.results| == |c.items|
    && w.permits + CountInFlight(w.iterations) == c.maxConcurrency
    && NoDup(w.created)
    && (forall i :: i in w.created <==>
          0 <= i < |c.items| && (w.iterations[i].InFlight? || w.iterations[i] == Finished))
    && (forall i :: 0 <= i < |c.items| ==> IterationInv(c, w, i))
  }

  ghost predicate IterationInv(c: Config, w: World, i: nat)
    requires i < |w.iterations| && i < |w.results| && i < |c.items|
  {
    && (w.iterations[i].InFlight? ==> w.iterations[i].item == c.items[i])
    && (w.iterations[i] == Skipped ==> w.abort)
    && (w.results[i].Some? ==> w.results[i].value.item == c.items[i] && w.iterations[i] == Finished)
    && (w.abort ==> c.abortOnFailure)
  }

  lemma NextKeepsInv(c: Config, w: World, step: Step)
    requires Inv(c, w)
    ensures Inv(c, Next(c, w, step))
  {
    var v := Next(c, w, step);
    if v != w {
      CountUpdate(w.iterations, step.i, v.iterations[step.i]);
      forall i | 0 <= i < |c.items| ensures IterationInv(c, v, i) {
        assert IterationInv(c, w, i);
      }
    }
  }

  /**
   In every schedule: never more than `maxConcurrency` iterations in flight, each index created
   at most once, and the result at an index computed from the item at that index.
   */
  lemma {:induction false} EverySchedule(c: Config, steps: seq<Step>)
    ensures Inv(c, Run(c, steps))
    ensures CountInFlight(Run(c, steps).iterations) <= c.maxConcurrency
  {
    if steps == [] {
      CountNone(Init(c).iterations);
    } else {
      EverySchedule(c, steps[..|steps| - 1]);
      NextKeepsInv(c, Run(c, steps[..|steps| - 1]), steps[|steps| - 1]);
    }
  }

  /** Once the abort flag is set nothing more is created and the flag stays set. */
  lemma {:induction false} NothingCreatedAfterAbort(c: Config, steps: seq<Step>, k: nat)
    requires k <= |steps| && Run(c, steps[..k]).abort
    ensures Run(c, steps).abort && Run(c, steps).created == Run(c, steps[..k]).created
  {
    if k == |steps| {
      assert steps[..k] == steps;
    } else {
      assert steps[..|steps| - 1][..k] == steps[..k];
      NothingCreatedAfterAbort(c, steps[..|steps| - 1], k);
    }
  }

  /** An iteration in flight ends in this step; it returned `returned` or raised. */
  predicate EndsAt(c: Config, steps: seq<Step>, k: nat)
    requires k < |steps|
  {
    steps[k].Finish? && steps[k].i < |c.items| && steps[k].i < |Run(c, steps[..k]).iterations|
    && Run(c, steps[..k]).iterations[steps[k].i].InFlight?
  }

  /** It raised, or returned a result that did not pass. */
  predicate FailsAt(c: Config, steps: seq<Step>, k: nat)
    requires k < |steps|
  {
    EndsAt(c, steps, k)
    && (steps[k].raised || (steps[k].returned.Some? && steps[k].returned.value.0 == false))
  }

  lemma EndsAtPrefix(c: Config, steps: seq<Step>, n: nat, k: nat)
    requires k < n <= |steps|
    ensures EndsAt(c, steps[..n], k) <==> EndsAt(c, steps, k)
    ensures FailsAt(c, steps[..n], k) <==> FailsAt(c, steps, k)
  {
    assert steps[..n][..k] == steps[..k];
  }

  /** The abort flag is set exactly if an iteration has failed and failures are to abort. */
  lemma {:induction false} AbortedExactly(c: Config, steps: seq<Step>)
    ensures Run(c, steps).abort <==> c.abortOnFailure && exists k :: 0 <= k < |steps| && FailsAt(c, steps, k)
  {
    if steps != [] {
      var last := |steps| - 1;
      AbortedExactly(c, steps[..last]);
      EverySchedule(c, steps[..last]);
      forall k | 0 <= k < last ensures FailsAt(c, steps[..last], k) <==> FailsAt(c, steps, k) {
        EndsAtPrefix(c, steps, last, k);
      }
      var w := Run(c, steps[..last]);
      assert Run(c, steps).abort <==> w.abort || (c.abortOnFailure && FailsAt(c, steps, last));
    }
  }

  /** The iteration at `i` ends in this step and returns this. */
  predicate ReturnsAt(c: Config, steps: seq<Step>, k: nat, i: nat, passed: bool, output: int)
    requires k < |steps|
  {
    EndsAt(c, steps, k) && steps[k].i == i && steps[k].returned == Some((passed, output))
  }

  lemma ResultOfStep(c: Config, w: World, step: Step, i: nat, passed: bool, output: int)
    requires Inv(c, w) && i < |c.items|
    ensures i < |Next(c, w, step).results|
    ensures Next(c, w, step).results[i] == Some(TaskResult(c.items[i], passed, output)) <==>
      || w.results[i] == Some(TaskResult(c.items[i], passed, output))
      || (step.Finish? && step.i == i && w.iterations[i].InFlight? && step.returned == Some((passed, output)))
  {
    assert IterationInv(c, w, i);
  }

  /** A result stands at an index exactly if its iteration returned it, computed from its item. */
  lemma {:induction false} ResultsAreReturned(c: Config, steps: seq<Step>, i: nat, passed: bool, output: int)
    requires i < |c.items|
    ensures i < |Run(c, steps).results|
    ensures Run(c, steps).results[i] == Some(TaskResult(c.items[i], passed, output)) <==>
      exists k :: 0 <= k < |steps| && ReturnsAt(c, steps, k, i, passed, output)
  {
    if steps != [] {
      var last := |steps| - 1;
      var before := steps[..last];
      ResultsAreReturned(c, before, i, passed, output);
      EverySchedule(c, before);
      ResultOfStep(c, Run(c, before), steps[last], i, passed, output);
      assert ReturnsAt(c, steps, last, i, passed, output) <==>
        && steps[last].Finish? && steps[last].i == i && Run(c, before).iterations[i].InFlight?
        && steps[last].returned == Some((passed, output));
      forall k | 0 <= k < last
        ensures ReturnsAt(c, before, k, i, passed, output) <==> ReturnsAt(c, steps, k, i, passed, output)
      {
        EndsAtPrefix(c, steps, last, k);
      }
    }
  }

  ghost predicate AllOver(w: World) {
    forall i :: 0 <= i < |w.iterations| ==> w.iterations[i] == Finished || w.iterations[i] == Skipped
  }

  /** When all iterations are over without an abort, every item has had its iteration. */
  lemma AllCreatedWithoutAbort(c: Config, steps: seq<Step>, i: nat)
    requires AllOver(Run(c, steps)) && !Run(c, steps).abort && i < |c.items|
    ensures i in Run(c, steps).created
  {
    EverySchedule(c, steps);
    assert IterationInv(c, Run(c, steps), i);
  }

  /** No schedule gets stuck: with at least one permit some iteration can always go on. */
  lemma SomeStepIsEnabled(c: Config, steps: seq<Step>) returns (step: Step)
    requires c.maxConcurrency > 0 && !AllOver(Run(c, steps))
    ensures Next(c, Run(c, steps), step) != Run(c, steps)
  {
    EverySchedule(c, steps);
    var w := Run(c, steps);
    var i :| 0 <= i < |w.iterations| && w.iterations[i] != Finished && w.iterations[i] != Skipped;
    if w.permits > 0 || !w.iterations[i].Waiting? {
      step := if w.iterations[i] == NotStarted then Start(i)
        else if w.iterations[i] == Waiting then Acquire(i)
        else Finish(i, None, false);
      assert Next(c, w, step).iterations[i] != w.iterations[i];
    } else {
      var j := SomeInFlight(w.iterations);
      step := Finish(j, None, false);
      assert Next(c, w, step).iterations[j] != w.iterations[j];
    }
  }

  lemma {:induction false} SomeInFlight(its: seq<Iteration>) returns (j: nat)
    requires CountInFlight(its) > 0
    ensures j < |its| && its[j].InFlight?
  {
    if its[|its| - 1].InFlight? { j := |its| - 1; } else { j := SomeInFlight(its[..|its| - 1]); }
  }

  // ---- every schedule ends ----------------------------------------------------------------

  /** The steps an iteration may still make. */
  function StepsLeft(it: Iteration): nat {
    match it
    case NotStarted => 3
    case Waiting => 2
    case InFlight(_) => 1
    case _ => 0
  }

  function Remaining(its: seq<Iteration>): nat {
    if its == [] then 0 else Remaining(its[..|its| - 1]) + StepsLeft(its[|its| - 1])
  }

  lemma {:induction false} RemainingUpdate(its: seq<Iteration>, i: nat, it: Iteration)
    requires i < |its|
    ensures Remaining(its[i := it]) + StepsLeft(its[i]) == Remaining(its) + StepsLeft(it)
  {
    var front := its[..|its| - 1];
    if i < |its| - 1 {
      assert its[i := it][..|its| - 1] == front[i := it];
      RemainingUpdate(front, i, it);
    } else {
      assert its[i := it][..|its| - 1] == front;
    }
  }

  lemma {:induction false} RemainingAtStart(its: seq<Iteration>)
    requires forall i :: 0 <= i < |its| ==> its[i] == NotStarted
    ensures Remaining(its) == 3 * |its|
  {
    if its != [] { RemainingAtStart(its[..|its| - 1]); }
  }

  lemma StepLowersRemaining(c: Config, w: World, step: Step)
    requires Next(c, w, step) != w
    ensures Remaining(Next(c, w, step).iterations) < Remaining(w.iterations)
  {
    RemainingUpdate(w.iterations, step.i, Next(c, w, step).iterations[step.i]);
  }

  /** Each step of the schedule changes something. */
  predicate Effective(c: Config, steps: seq<Step>) {
    steps == [] ||
    (Effective(c, steps[..|steps| - 1]) && Run(c, steps) != Run(c, steps[..|steps| - 1]))
  }

  /** No schedule goes on for ever: an iteration makes at most three steps that change anything. */
  lemma {:induction false} SchedulesAreBounded(c: Config, steps: seq<Step>)
    requires Effective(c, steps)
    ensures |steps| + Remaining(Run(c, steps).iterations) <= 3 * |c.items|
  {
    if steps == [] {
      RemainingAtStart(Init(c).iterations);
    } else {
      SchedulesAreBounded(c, steps[..|steps| - 1]);
      StepLowersRemaining(c, Run(c, steps[..|steps| - 1]), steps[|steps| - 1]);
    }
  }

  /** A schedule that cannot go on has every iteration over. */
  lemma MaximalScheduleIsOver(c: Config, steps: seq<Step>)
    requires c.maxConcurrency > 0 && forall step :: Next(c, Run(c, steps), step) == Run(c, steps)
    ensures AllOver(Run(c, steps))
  {
    if !AllOver(Run(c, steps)) {
      var step := SomeStepIsEnabled(c, steps);
    }
  }
}
