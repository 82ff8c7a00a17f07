/**
  Order independence: when every step may be passed over and every executor's outcome
  depends on the step alone, the final statuses are those of a recursive reading of the
  dependency graph, in whatever dependency-respecting order the steps are listed.
 */
module EngineOrder {
  import opened Wrappers
  import opened Plan
  import opened ExecutionEngine
  import opened EngineSafety

  type Outcomes = PlanStep -> Outcome

  /** The plan as a graph: the steps by their ids. */
  type Graph = map<string, PlanStep>

  /** Every step of the plan can be started, and the registry answers it with its fixed outcome. */
  ghost predicate Fixed(steps: seq<PlanStep>, registry: ExecutorRegistry, outcomes: Outcomes) {
    forall i :: 0 <= i < |steps| ==> FixedStep(steps[i], registry, outcomes)
  }

  ghost predicate FixedStep(step: PlanStep, registry: ExecutorRegistry, outcomes: Outcomes) {
    step.kind in registry && MakesDict(step.inputs) && forall outputs :: registry[step.kind](step, outputs) == outcomes(step)
  }

  ghost predicate AllContinue(steps: seq<PlanStep>) {
    forall i :: 0 <= i < |steps| ==> steps[i].onFailure == CONTINUE
  }

  /** Every dependency that names a step of the plan is listed before the step. */
  ghost predicate Respects(steps: seq<PlanStep>) {
    forall i, j :: 0 <= i < |steps| && 0 <= j < |steps| && DependsOn(steps, i, j) ==> j < i
  }

  /** The step succeeds by an argument of at most `depth` nested dependencies. */
  predicate Succeeds(graph: Graph, outcomes: Outcomes, id: string, depth: nat)
    decreases depth
  {
    && depth > 0 && id in graph
    && outcomes(graph[id]).Returned? && outcomes(graph[id]).status == Succeeded
    && forall k :: 0 <= k < |graph[id].dependsOn| ==> Succeeds(graph, outcomes, graph[id].dependsOn[k], depth - 1)
  }

  /** The status the dependency graph gives a step. */
  function GraphStatus(graph: Graph, outcomes: Outcomes, id: string): StepStatus
    requires id in graph
  {
    if forall k :: 0 <= k < |graph[id].dependsOn| ==> Succeeds(graph, outcomes, graph[id].dependsOn[k], |graph|)
    then
      match outcomes(graph[id])
      case Returned(status, _) => status
      case Raised(_) => Failed
    else Skipped
  }

  ghost predicate GraphOf(graph: Graph, steps: seq<PlanStep>) {
    && |graph| == |steps|
    && (forall i :: 0 <= i < |steps| ==> steps[i].stepId in graph && graph[steps[i].stepId] == steps[i])
    && (forall id :: id in graph ==> exists i :: 0 <= i < |steps| && steps[i].stepId == id)
  }

  lemma {:induction false} SucceedsMore(graph: Graph, outcomes: Outcomes, id: string, depth: nat, more: nat)
    requires Succeeds(graph, outcomes, id, depth) && depth <= more
    ensures Succeeds(graph, outcomes, id, more)
    decreases depth
  {
    forall k | 0 <= k < |graph[id].dependsOn| {
      SucceedsMore(graph, outcomes, graph[id].dependsOn[k], depth - 1, more - 1);
    }
  }

  lemma PoliciesDiffer()
    ensures CONTINUE != REQUEST_REPLAN
  {
    assert CONTINUE[0] == 'c' && REQUEST_REPLAN[0] == 'r';
  }

  /** A passed-over step adds its run and lets the run go on. */
  lemma StepContinues(st: RunState, step: PlanStep, registry: ExecutorRegistry, outcomes: Outcomes)
    requires st.progress.Going? && step.onFailure == CONTINUE && FixedStep(step, registry, outcomes)
    ensures var next := Advance(st, step, registry);
      && next.progress.Going? && |next.stepRuns| == |st.stepRuns| + 1 && next.stepRuns[..|st.stepRuns|] == st.stepRuns
      && var last := next.stepRuns[|st.stepRuns|]; last.executed ==> last.status == StatusOf(outcomes(step))
  {
    PoliciesDiffer();
  }

  ghost predicate FixedStatuses(steps: seq<PlanStep>, runs: seq<StepRun>, outcomes: Outcomes) {
    |runs| == |steps| &&
    forall i :: 0 <= i < |steps| && runs[i].executed ==> runs[i].status == StatusOf(outcomes(steps[i]))
  }

  /** A plan of passed-over steps runs to its end. */
  /** The run goes on after these steps, and each has the fixed status. */
  ghost predicate GoesOn(steps: seq<PlanStep>, initial: StepOutputs, registry: ExecutorRegistry, outcomes: Outcomes) {
    var st := RunSteps(steps, initial, registry);
    st.progress.Going? && FixedStatuses(steps, st.stepRuns, outcomes)
  }

  lemma LastGoesOn(front: seq<PlanStep>, step: PlanStep, initial: StepOutputs, registry: ExecutorRegistry, outcomes: Outcomes)
    requires GoesOn(front, initial, registry, outcomes) && step.onFailure == CONTINUE && FixedStep(step, registry, outcomes)
    ensures GoesOn(front + [step], initial, registry, outcomes)
  {
    assert (front + [step])[..|front|] == front;
    var before, after := RunSteps(front, initial, registry), RunSteps(front + [step], initial, registry);
    StepContinues(before, step, registry, outcomes);
    forall i | 0 <= i < |front|
      ensures after.stepRuns[i] == before.stepRuns[i]
    {
      assert after.stepRuns[..|front|][i] == before.stepRuns[i];
    }
  }

  lemma FixedFront(steps: seq<PlanStep>, registry: ExecutorRegistry, outcomes: Outcomes)
    requires steps != [] && AllContinue(steps) && Fixed(steps, registry, outcomes)
    ensures AllContinue(steps[..|steps| - 1]) && Fixed(steps[..|steps| - 1], registry, outcomes)
    ensures steps[|steps| - 1].onFailure == CONTINUE && FixedStep(steps[|steps| - 1], registry, outcomes)
  {
  }

  lemma {:induction false} NeverStops(steps: seq<PlanStep>, initial: StepOutputs, registry: ExecutorRegistry, outcomes: Outcomes)
    requires AllContinue(steps) && Fixed(steps, registry, outcomes)
    ensures GoesOn(steps, initial, registry, outcomes)
  {
    if steps != [] {
      var front, step := steps[..|steps| - 1], steps[|steps| - 1];
      FixedFront(steps, registry, outcomes);
      NeverStops(front, initial, registry, outcomes);
      LastGoesOn(front, step, initial, registry, outcomes);
      assert front + [step] == steps;
    }
  }

  /** The run of a plan that never stops extends the run of every prefix of it. */
  lemma RunExtends(steps: seq<PlanStep>, initial: StepOutputs, registry: ExecutorRegistry, outcomes: Outcomes)
    requires AllContinue(steps) && Fixed(steps, registry, outcomes) && steps != []
    ensures var before, after := RunSteps(steps[..|steps| - 1], initial, registry), RunSteps(steps, initial, registry);
      && |before.stepRuns| == |steps| - 1 && |after.stepRuns| == |steps|
      && after.stepRuns[..|steps| - 1] == before.stepRuns && before.progress.Going?
      && after == Advance(before, steps[|steps| - 1], registry)
  {
    NeverStops(steps[..|steps| - 1], initial, registry, outcomes);
    StepContinues(RunSteps(steps[..|steps| - 1], initial, registry), steps[|steps| - 1], registry, outcomes);
  }

  /** The last step of a plan is executed exactly when all its dependencies have succeeded. */
  lemma LastExecutedExactly(steps: seq<PlanStep>, initial: StepOutputs, registry: ExecutorRegistry, outcomes: Outcomes)
    requires UniqueIds(steps) && AllContinue(steps) && Fixed(steps, registry, outcomes) && steps != []
    ensures var n, runs := |steps| - 1, RunSteps(steps, initial, registry).stepRuns;
      |runs| == |steps| && (runs[n].executed <==> forall d :: d in steps[n].dependsOn ==> SucceededBefore(runs, n, d))
  {
    var n, step := |steps| - 1, steps[|steps| - 1];
    var before, after := RunSteps(steps[..n], initial, registry), RunSteps(steps, initial, registry);
    RunExtends(steps, initial, registry, outcomes);
    RunInvariant(steps[..n], initial, registry);
    forall d
      ensures SucceededBefore(after.stepRuns, n, d) <==> d in before.stepStatus && before.stepStatus[d] == Succeeded
    {
      SamePrefix(before.stepRuns, after.stepRuns, n, d);
      StatusIsSuccess(steps[..n], before, d);
    }
    LastRunExecuted(before, step, registry);
  }

  lemma StatusIsSuccess(steps: seq<PlanStep>, st: RunState, id: string)
    requires UniqueIds(steps) && PrefixMatches(steps, st.stepRuns) && StatusMatches(st)
    ensures SucceededBefore(st.stepRuns, |st.stepRuns|, id) <==> id in st.stepStatus && st.stepStatus[id] == Succeeded
  {
    if SucceededBefore(st.stepRuns, |st.stepRuns|, id) {
      StatusOfUnique(steps, st, id);
    } else if id in st.stepStatus && st.stepStatus[id] == Succeeded {
      LatestIsThere(st.stepRuns, id);
    }
  }

  lemma LastRunExecuted(before: RunState, step: PlanStep, registry: ExecutorRegistry)
    requires before.progress.Going? && |Advance(before, step, registry).stepRuns| == |before.stepRuns| + 1
    ensures Advance(before, step, registry).stepRuns[|before.stepRuns|].executed <==>
      forall d :: d in step.dependsOn ==> d in before.stepStatus && before.stepStatus[d] == Succeeded
  {
  }

  /** Which steps are executed: exactly those whose dependencies have succeeded before. */
  lemma {:induction false} ExecutedExactly(steps: seq<PlanStep>, initial: StepOutputs, registry: ExecutorRegistry,
                                           outcomes: Outcomes, i: nat)
    requires UniqueIds(steps) && AllContinue(steps) && Fixed(steps, registry, outcomes) && i < |steps|
    ensures var runs := RunSteps(steps, initial, registry).stepRuns;
      && |runs| == |steps|
      && (runs[i].executed <==> forall d :: d in steps[i].dependsOn ==> SucceededBefore(runs, i, d))
  {
    var n := |steps| - 1;
    if i < n {
      var before, after := RunSteps(steps[..n], initial, registry).stepRuns, RunSteps(steps, initial, registry).stepRuns;
      RunExtends(steps, initial, registry, outcomes);
      ExecutedExactly(steps[..n], initial, registry, outcomes, i);
      forall d
        ensures SucceededBefore(before, i, d) <==> SucceededBefore(after, i, d)
      {
        SamePrefix(before, after, i, d);
      }
    } else {
      LastExecutedExactly(steps, initial, registry, outcomes);
    }
  }

  lemma SamePrefix(a: seq<StepRun>, b: seq<StepRun>, n: nat, id: string)
    requires n <= |a| <= |b| && b[..|a|] == a
    ensures SucceededBefore(a, n, id) <==> SucceededBefore(b, n, id)
  {
    assert forall j :: 0 <= j < n ==> a[j] == b[j];
  }

  lemma {:induction false} LatestOfUnique(runs: seq<StepRun>, j: nat)
    requires j < |runs| && forall i, k :: 0 <= i < k < |runs| ==> runs[i].stepId != runs[k].stepId
    ensures LatestStatus(runs, runs[j].stepId) == Some(runs[j].status)
  {
    var n := |runs| - 1;
    if j < n {
      LatestOfUnique(runs[..n], j);
    }
  }

  lemma StatusOfUnique(steps: seq<PlanStep>, st: RunState, id: string)
    requires UniqueIds(steps) && PrefixMatches(steps, st.stepRuns) && StatusMatches(st)
    requires SucceededBefore(st.stepRuns, |st.stepRuns|, id)
    ensures id in st.stepStatus && st.stepStatus[id] == Succeeded
  {
    var j :| 0 <= j < |st.stepRuns| && st.stepRuns[j].stepId == id && st.stepRuns[j].status == Succeeded;
    assert st.stepRuns[j].stepId in st.stepStatus;
    forall i, k | 0 <= i < k < |st.stepRuns|
      ensures st.stepRuns[i].stepId != st.stepRuns[k].stepId
    {
      assert steps[i].stepId != steps[k].stepId;
    }
    LatestOfUnique(st.stepRuns, j);
  }

  /** What a successful run tells of its step. */
  lemma SucceededRun(steps: seq<PlanStep>, initial: StepOutputs, registry: ExecutorRegistry, outcomes: Outcomes, i: nat)
    requires UniqueIds(steps) && AllContinue(steps) && Fixed(steps, registry, outcomes)
    requires i < |steps| && |RunSteps(steps, initial, registry).stepRuns| == |steps|
    requires RunSteps(steps, initial, registry).stepRuns[i].status == Succeeded
    ensures StatusOf(outcomes(steps[i])) == Succeeded
    ensures PrefixMatches(steps, RunSteps(steps, initial, registry).stepRuns)
    ensures forall d :: d in steps[i].dependsOn ==> SucceededBefore(RunSteps(steps, initial, registry).stepRuns, i, d)
  {
    NeverStops(steps, initial, registry, outcomes);
    RunInvariant(steps, initial, registry);
    ExecutedExactly(steps, initial, registry, outcomes, i);
  }

  /** In any order, a step that succeeds in a run succeeds in the graph. */
  lemma {:induction false} RunWithinGraph(steps: seq<PlanStep>, initial: StepOutputs, registry: ExecutorRegistry,
                                          outcomes: Outcomes, graph: Graph, i: nat)
    requires UniqueIds(steps) && AllContinue(steps) && Fixed(steps, registry, outcomes) && GraphOf(graph, steps)
    requires i < |steps| && |RunSteps(steps, initial, registry).stepRuns| == |steps|
    requires RunSteps(steps, initial, registry).stepRuns[i].status == Succeeded
    ensures Succeeds(graph, outcomes, steps[i].stepId, i + 1)
  {
    var runs := RunSteps(steps, initial, registry).stepRuns;
    SucceededRun(steps, initial, registry, outcomes, i);
    forall k | 0 <= k < |steps[i].dependsOn|
      ensures Succeeds(graph, outcomes, steps[i].dependsOn[k], i)
    {
      var d := steps[i].dependsOn[k];
      assert SucceededBefore(runs, i, d);
      var j :| 0 <= j < i && runs[j].stepId == d && runs[j].status == Succeeded;
      RunWithinGraph(steps, initial, registry, outcomes, graph, j);
      SucceedsMore(graph, outcomes, d, j + 1, i);
    }
  }

  /** In a dependency-respecting order, a step that succeeds in the graph succeeds in the run. */
  lemma {:induction false} GraphWithinRun(steps: seq<PlanStep>, initial: StepOutputs, registry: ExecutorRegistry,
                                          outcomes: Outcomes, graph: Graph, i: nat, depth: nat)
    requires UniqueIds(steps) && AllContinue(steps) && Fixed(steps, registry, outcomes) && GraphOf(graph, steps)
    requires Respects(steps) && i < |steps| && Succeeds(graph, outcomes, steps[i].stepId, depth)
    ensures |RunSteps(steps, initial, registry).stepRuns| == |steps|
    ensures RunSteps(steps, initial, registry).stepRuns[i].status == Succeeded
    decreases i, 1
  {
    NeverStops(steps, initial, registry, outcomes);
    ExecutedExactly(steps, initial, registry, outcomes, i);
    forall d | d in steps[i].dependsOn
      ensures SucceededBefore(RunSteps(steps, initial, registry).stepRuns, i, d)
    {
      var k :| 0 <= k < |steps[i].dependsOn| && steps[i].dependsOn[k] == d;
      assert Succeeds(graph, outcomes, d, depth - 1);
      DependencyWithinRun(steps, initial, registry, outcomes, graph, i, d, depth - 1);
    }
  }

  lemma {:induction false} DependencyWithinRun(steps: seq<PlanStep>, initial: StepOutputs, registry: ExecutorRegistry,
                                               outcomes: Outcomes, graph: Graph, i: nat, d: string, depth: nat)
    requires UniqueIds(steps) && AllContinue(steps) && Fixed(steps, registry, outcomes) && GraphOf(graph, steps)
    requires Respects(steps) && i < |steps| && d in steps[i].dependsOn && Succeeds(graph, outcomes, d, depth)
    ensures |RunSteps(steps, initial, registry).stepRuns| == |steps|
    ensures SucceededBefore(RunSteps(steps, initial, registry).stepRuns, i, d)
    decreases i, 0
  {
    var runs := RunSteps(steps, initial, registry).stepRuns;
    RunInvariant(steps, initial, registry);
    var j :| 0 <= j < |steps| && steps[j].stepId == d;
    assert DependsOn(steps, i, j);
    GraphWithinRun(steps, initial, registry, outcomes, graph, j, depth);
    assert runs[j].stepId == d;
  }

  /** The run gives every step the status the graph gives it. */
  lemma RunIsGraphStatus(steps: seq<PlanStep>, initial: StepOutputs, registry: ExecutorRegistry, outcomes: Outcomes,
                         graph: Graph, i: nat)
    requires UniqueIds(steps) && AllContinue(steps) && Fixed(steps, registry, outcomes) && GraphOf(graph, steps)
    requires Respects(steps) && i < |steps|
    ensures var runs := RunSteps(steps, initial, registry).stepRuns;
      |runs| == |steps| && runs[i].status == GraphStatus(graph, outcomes, steps[i].stepId)
  {
    var runs := RunSteps(steps, initial, registry).stepRuns;
    NeverStops(steps, initial, registry, outcomes);
    RunInvariant(steps, initial, registry);
    ExecutedExactly(steps, initial, registry, outcomes, i);
    forall k | 0 <= k < |steps[i].dependsOn|
      ensures Succeeds(graph, outcomes, steps[i].dependsOn[k], |graph|) <==> SucceededBefore(runs, i, steps[i].dependsOn[k])
    {
      DependencyAgrees(steps, initial, registry, outcomes, graph, i, k);
    }
    StatusByDependencies(runs, graph, outcomes, steps[i], i);
  }

  /** A run that agrees with the graph on the dependencies of a step agrees with it on the step. */
  lemma StatusByDependencies(runs: seq<StepRun>, graph: Graph, outcomes: Outcomes, step: PlanStep, i: nat)
    requires i < |runs| && step.stepId in graph && graph[step.stepId] == step
    requires runs[i].executed <==> forall d :: d in step.dependsOn ==> SucceededBefore(runs, i, d)
    requires if runs[i].executed then runs[i].status == StatusOf(outcomes(step)) else runs[i].status == Skipped
    requires forall k :: 0 <= k < |step.dependsOn| ==>
      (Succeeds(graph, outcomes, step.dependsOn[k], |graph|) <==> SucceededBefore(runs, i, step.dependsOn[k]))
    ensures runs[i].status == GraphStatus(graph, outcomes, step.stepId)
  {
  }

  lemma DependencySucceedsInGraph(steps: seq<PlanStep>, initial: StepOutputs, registry: ExecutorRegistry, outcomes: Outcomes,
                                  graph: Graph, i: nat, d: string)
    requires UniqueIds(steps) && AllContinue(steps) && Fixed(steps, registry, outcomes) && GraphOf(graph, steps)
    requires i < |steps| == |RunSteps(steps, initial, registry).stepRuns|
    requires SucceededBefore(RunSteps(steps, initial, registry).stepRuns, i, d)
    ensures Succeeds(graph, outcomes, d, |graph|)
  {
    var runs := RunSteps(steps, initial, registry).stepRuns;
    RunInvariant(steps, initial, registry);
    var j :| 0 <= j < i && runs[j].stepId == d && runs[j].status == Succeeded;
    RunWithinGraph(steps, initial, registry, outcomes, graph, j);
    SucceedsMore(graph, outcomes, d, j + 1, |graph|);
  }

  lemma DependencyAgrees(steps: seq<PlanStep>, initial: StepOutputs, registry: ExecutorRegistry, outcomes: Outcomes,
                         graph: Graph, i: nat, k: nat)
    requires UniqueIds(steps) && AllContinue(steps) && Fixed(steps, registry, outcomes) && GraphOf(graph, steps)
    requires Respects(steps) && i < |steps| && k < |steps[i].dependsOn|
    ensures var runs := RunSteps(steps, initial, registry).stepRuns;
      && |runs| == |steps|
      && (Succeeds(graph, outcomes, steps[i].dependsOn[k], |graph|) <==> SucceededBefore(runs, i, steps[i].dependsOn[k]))
  {
    var d := steps[i].dependsOn[k];
    NeverStops(steps, initial, registry, outcomes);
    if Succeeds(graph, outcomes, d, |graph|) {
      DependencyWithinRun(steps, initial, registry, outcomes, graph, i, d, |graph|);
    }
    if SucceededBefore(RunSteps(steps, initial, registry).stepRuns, i, d) {
      DependencySucceedsInGraph(steps, initial, registry, outcomes, graph, i, d);
    }
  }

  /** The graph of a plan; it is one when ids are unique. */
  function ToGraph(steps: seq<PlanStep>): Graph {
    if steps == [] then map[]
    else ToGraph(steps[..|steps| - 1])[steps[|steps| - 1].stepId := steps[|steps| - 1]]
  }

  lemma GraphAdd(front: seq<PlanStep>, step: PlanStep, graph: Graph)
    requires GraphOf(graph, front) && forall i :: 0 <= i < |front| ==> front[i].stepId != step.stepId
    ensures GraphOf(graph[step.stepId := step], front + [step])
  {
    var steps, next := front + [step], graph[step.stepId := step];
    assert step.stepId !in graph;
    forall id | id in next
      ensures exists i :: 0 <= i < |steps| && steps[i].stepId == id
    {
      if id == step.stepId {
        assert steps[|front|].stepId == id;
      } else {
        var i :| 0 <= i < |front| && front[i].stepId == id;
        assert steps[i].stepId == id;
      }
    }
  }

  lemma {:induction false} ToGraphIsGraph(steps: seq<PlanStep>)
    requires UniqueIds(steps)
    ensures GraphOf(ToGraph(steps), steps)
  {
    if steps != [] {
      var n := |steps| - 1;
      ToGraphIsGraph(steps[..n]);
      GraphAdd(steps[..n], steps[n], ToGraph(steps[..n]));
      assert steps == steps[..n] + [steps[n]];
    }
  }

  lemma SameGraph(a: seq<PlanStep>, b: seq<PlanStep>, graph: Graph)
    requires GraphOf(graph, a) && multiset(a) == multiset(b)
    ensures GraphOf(graph, b)
  {
    assert |a| == |multiset(a)| && |b| == |multiset(b)|;
    forall i | 0 <= i < |b|
      ensures b[i].stepId in graph && graph[b[i].stepId] == b[i]
    {
      assert b[i] in multiset(b);
      assert b[i] in a;
    }
    forall id | id in graph
      ensures exists i :: 0 <= i < |b| && b[i].stepId == id
    {
      var i :| 0 <= i < |a| && a[i].stepId == id;
      assert a[i] in multiset(a);
      assert a[i] in b;
    }
  }

  /** Two dependency-respecting orders of the same steps give every step the same status, that of the graph. */
  lemma {:induction false} OrderIndependence(a: seq<PlanStep>, b: seq<PlanStep>, initial: StepOutputs, registry: ExecutorRegistry,
                          outcomes: Outcomes, i: nat, j: nat)
    requires multiset(a) == multiset(b) && UniqueIds(a) && UniqueIds(b) && Respects(a) && Respects(b)
    requires AllContinue(a) && Fixed(a, registry, outcomes)
    requires i < |a| && j < |b| && a[i] == b[j]
    ensures |RunSteps(a, initial, registry).stepRuns| == |a| && |RunSteps(b, initial, registry).stepRuns| == |b|
    ensures RunSteps(a, initial, registry).stepRuns[i].status == RunSteps(b, initial, registry).stepRuns[j].status
    ensures a[i].stepId in ToGraph(a)
    ensures RunSteps(a, initial, registry).stepRuns[i].status == GraphStatus(ToGraph(a), outcomes, a[i].stepId)
  {
    var graph := ToGraph(a);
    ToGraphIsGraph(a);
    SameGraph(a, b, graph);
    forall k | 0 <= k < |b|
      ensures b[k].onFailure == CONTINUE && FixedStep(b[k], registry, outcomes)
    {
      assert b[k] in multiset(b);
      assert b[k] in a;
    }
    RunIsGraphStatus(a, initial, registry, outcomes, graph, i);
    RunIsGraphStatus(b, initial, registry, outcomes, graph, j);
  }
}
