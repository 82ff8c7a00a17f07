/**
  What can be told from a plan before it is run: which steps some executors would reach,
  when covering the whole plan means success, and when no executors make the run raise.
 */
module EngineCoverage {
  import opened SchemaValidation
  import opened Plan
  import opened ExecutionEngine
  import opened EngineSafety

  // ----- which steps can be reached -----

  /** The ids whose last step would have succeeded if every step that is started succeeded. */
  function Hopeful(steps: seq<PlanStep>): set<string> {
    if steps == [] then {}
    else
      var ids, step := Hopeful(steps[..|steps| - 1]), steps[|steps| - 1];
      if Hoped(step, ids) then ids + {step.stepId} else ids - {step.stepId}
  }

  predicate Hoped(step: PlanStep, ids: set<string>) {
    forall k :: 0 <= k < |step.dependsOn| ==> step.dependsOn[k] in ids
  }

  /** Some executors would start the step at `i`. */
  predicate Reachable(steps: seq<PlanStep>, i: nat)
    requires i < |steps|
  {
    Hoped(steps[i], Hopeful(steps[..i]))
  }

  predicate SucceededIn(st: RunState, id: string) {
    id in st.stepStatus && st.stepStatus[id] == Succeeded
  }

  /** Whatever the executors do, only hopeful ids succeed. */
  lemma {:induction false} SucceededAreHopeful(steps: seq<PlanStep>, initial: StepOutputs, registry: ExecutorRegistry)
    requires RunSteps(steps, initial, registry).progress.Going?
    ensures forall id :: SucceededIn(RunSteps(steps, initial, registry), id) ==> id in Hopeful(steps)
  {
    if steps != [] {
      var n := |steps| - 1;
      var before, after := RunSteps(steps[..n], initial, registry), RunSteps(steps, initial, registry);
      SucceededAreHopeful(steps[..n], initial, registry);
      assert DependenciesSatisfied(steps[n], before.stepStatus) ==> Hoped(steps[n], Hopeful(steps[..n])) by {
        assert forall k :: 0 <= k < |steps[n].dependsOn| && DependenciesSatisfied(steps[n], before.stepStatus) ==>
            SucceededIn(before, steps[n].dependsOn[k]);
      }
      forall id | SucceededIn(after, id)
        ensures id in Hopeful(steps)
      {
        assert id != steps[n].stepId ==> SucceededIn(before, id);
      }
    }
  }

  /** A step whose dependencies have succeeded was hoped for. */
  lemma SatisfiedIsHoped(front: seq<PlanStep>, initial: StepOutputs, registry: ExecutorRegistry, step: PlanStep)
    requires RunSteps(front, initial, registry).progress.Going?
    ensures DependenciesSatisfied(step, RunSteps(front, initial, registry).stepStatus) ==> Hoped(step, Hopeful(front))
  {
    var st := RunSteps(front, initial, registry);
    SucceededAreHopeful(front, initial, registry);
    forall k | 0 <= k < |step.dependsOn| && DependenciesSatisfied(step, st.stepStatus)
      ensures step.dependsOn[k] in Hopeful(front)
    {
      assert SucceededIn(st, step.dependsOn[k]);
    }
  }

  // ----- executors that make the hopes true -----

  /** Succeeds on every step but one. */
  function FailingOn(failing: set<PlanStep>): Executor {
    (step, outputs) => if step in failing then Raised("error") else Returned(Succeeded, Dict([]))
  }

  function Executors(kinds: set<string>, execute: Executor): ExecutorRegistry {
    map kind | kind in kinds :: execute
  }

  /** A step can be started, if it comes to that, and be recorded in any case. */
  predicate Startable(steps: seq<PlanStep>, i: nat, kinds: set<string>)
    requires i < |steps|
  {
    MakesDict(steps[i].inputs) && (Reachable(steps, i) ==> steps[i].kind in kinds)
  }

  predicate AllStartable(steps: seq<PlanStep>, kinds: set<string>) {
    forall i :: 0 <= i < |steps| ==> Startable(steps, i, kinds)
  }

  lemma StartableLast(steps: seq<PlanStep>, kinds: set<string>)
    requires steps != []
    ensures var n := |steps| - 1; AllStartable(steps, kinds) <==> AllStartable(steps[..n], kinds) && Startable(steps, n, kinds)
  {
    var n := |steps| - 1;
    forall i | 0 <= i < n
      ensures Startable(steps[..n], i, kinds) <==> Startable(steps, i, kinds)
    {
      assert steps[..n][..i] == steps[..i];
    }
  }

  /** The hopes about a run so far have come true. */
  ghost predicate Fulfilled(steps: seq<PlanStep>, st: RunState) {
    && st.progress.Going? && |st.stepRuns| == |steps|
    && forall id :: SucceededIn(st, id) <==> id in Hopeful(steps)
  }

  lemma NextFulfilled(front: seq<PlanStep>, st: RunState, step: PlanStep, kinds: set<string>, failing: set<PlanStep>)
    requires Fulfilled(front, st) && step !in failing
    ensures var next := Advance(st, step, Executors(kinds, FailingOn(failing)));
      if Startable(front + [step], |front|, kinds) then Fulfilled(front + [step], next) else IsRaised(next.progress)
  {
    assert (front + [step])[..|front|] == front;
    assert DependenciesSatisfied(step, st.stepStatus) <==> Hoped(step, Hopeful(front)) by {
      assert forall k :: 0 <= k < |step.dependsOn| ==> (SucceededIn(st, step.dependsOn[k]) <==> step.dependsOn[k] in Hopeful(front));
    }
    var next := Advance(st, step, Executors(kinds, FailingOn(failing)));
    if Startable(front + [step], |front|, kinds) {
      forall id
        ensures SucceededIn(next, id) <==> id in Hopeful(front + [step])
      {
        assert id != step.stepId ==> (SucceededIn(next, id) <==> SucceededIn(st, id));
      }
    }
  }

  /** Executors that do not fail on these steps start all that can be reached; only a step that cannot be started makes them raise. */
  lemma {:induction false} HopefulRun(steps: seq<PlanStep>, initial: StepOutputs, kinds: set<string>, failing: set<PlanStep>)
    requires forall i :: 0 <= i < |steps| ==> steps[i] !in failing
    ensures var st := RunSteps(steps, initial, Executors(kinds, FailingOn(failing)));
      if AllStartable(steps, kinds) then Fulfilled(steps, st) else IsRaised(st.progress)
  {
    if steps != [] {
      var n := |steps| - 1;
      HopefulRun(steps[..n], initial, kinds, failing);
      StartableLast(steps, kinds);
      assert steps == steps[..n] + [steps[n]];
      var before := RunSteps(steps[..n], initial, Executors(kinds, FailingOn(failing)));
      if AllStartable(steps[..n], kinds) {
        NextFulfilled(steps[..n], before, steps[n], kinds, failing);
      }
    }
  }

  // ----- when a run raises -----

  lemma NextNotRaised(steps: seq<PlanStep>, initial: StepOutputs, registry: ExecutorRegistry)
    requires steps != [] && RunSteps(steps[..|steps| - 1], initial, registry).progress.Going?
    requires Startable(steps, |steps| - 1, registry.Keys)
    ensures !IsRaised(RunSteps(steps, initial, registry).progress)
  {
    var n := |steps| - 1;
    SatisfiedIsHoped(steps[..n], initial, registry, steps[n]);
  }

  lemma {:induction false} StartableNeverRaises(steps: seq<PlanStep>, initial: StepOutputs, registry: ExecutorRegistry)
    requires AllStartable(steps, registry.Keys)
    ensures !IsRaised(RunSteps(steps, initial, registry).progress)
  {
    if steps != [] {
      StartableLast(steps, registry.Keys);
      StartableNeverRaises(steps[..|steps| - 1], initial, registry);
      if RunSteps(steps[..|steps| - 1], initial, registry).progress.Going? {
        NextNotRaised(steps, initial, registry);
      }
    }
  }

  ghost predicate EndsFor(steps: seq<PlanStep>, initial: StepOutputs, kinds: set<string>, execute: Executor) {
    ResultOf(RunSteps(steps, initial, Executors(kinds, execute))).Finished?
  }

  /**
    No executors make the run of a plan raise exactly when the inputs of every step can be
    copied into a dictionary, the copies can be reported, and every step that can be reached
    has an executor.
   */
  lemma NeverRaisesExactly(steps: seq<PlanStep>, initial: StepOutputs, kinds: set<string>)
    ensures (forall execute: Executor :: EndsFor(steps, initial, kinds, execute)) <==>
      AllStartable(steps, kinds) && AllReportable(steps)
  {
    HopefulRun(steps, initial, kinds, {});
    FinishedExactly(steps, initial, Executors(kinds, FailingOn({})));
    if AllStartable(steps, kinds) && AllReportable(steps) {
      forall execute: Executor
        ensures EndsFor(steps, initial, kinds, execute)
      {
        assert Executors(kinds, execute).Keys == kinds;
        StartableNeverRaises(steps, initial, Executors(kinds, execute));
        FinishedExactly(steps, initial, Executors(kinds, execute));
      }
    } else {
      assert !EndsFor(steps, initial, kinds, FailingOn({}));
    }
  }

  // ----- when covering the plan means success -----

  /** The run has ended with a result that covers the whole plan. */
  predicate Covers(steps: seq<PlanStep>, r: RunResult) {
    r.Finished? && |r.stepRuns| == |steps|
  }

  /** If the run covers the whole plan, it has succeeded. */
  ghost predicate CoverageSucceeds(steps: seq<PlanStep>, initial: StepOutputs, registry: ExecutorRegistry) {
    var r := ResultOf(RunSteps(steps, initial, registry));
    Covers(steps, r) ==> Succeeds(r)
  }

  /** If the last step may be passed over, a run succeeds exactly when it covers the plan. */
  lemma PassedOverLast(steps: seq<PlanStep>, initial: StepOutputs, registry: ExecutorRegistry)
    requires steps == [] || steps[|steps| - 1].onFailure == CONTINUE
    ensures var st := RunSteps(steps, initial, registry);
      && (st.progress.Going? <==> |st.stepRuns| == |steps|)
      && (Succeeds(ResultOf(st)) <==> Covers(steps, ResultOf(st)))
  {
    RunInvariant(steps, initial, registry);
  }

  lemma UnreachableLast(steps: seq<PlanStep>, initial: StepOutputs, registry: ExecutorRegistry)
    requires steps != [] && !Reachable(steps, |steps| - 1)
    ensures CoverageSucceeds(steps, initial, registry)
  {
    var n := |steps| - 1;
    var before := RunSteps(steps[..n], initial, registry);
    FinishedExactly(steps[..n], initial, registry);
    if before.progress.Going? {
      SatisfiedIsHoped(steps[..n], initial, registry, steps[n]);
      SkippedNeverStops(before, steps[n], registry);
    }
    NotStoppedAtEnd(steps, initial, registry);
  }

  lemma SkippedNeverStops(st: RunState, step: PlanStep, registry: ExecutorRegistry)
    requires st.progress.Going? && !DependenciesSatisfied(step, st.stepStatus)
    ensures !Advance(st, step, registry).progress.Stopped?
  {
  }

  lemma NotStoppedAtEnd(steps: seq<PlanStep>, initial: StepOutputs, registry: ExecutorRegistry)
    requires var st := RunSteps(steps, initial, registry); st.progress.Stopped? ==> |st.stepRuns| < |steps|
    ensures CoverageSucceeds(steps, initial, registry)
  {
  }

  lemma StoppedAtEnd(steps: seq<PlanStep>, initial: StepOutputs, registry: ExecutorRegistry)
    requires var st := RunSteps(steps, initial, registry); st.progress.Stopped? && |st.stepRuns| == |steps|
    requires AllReportable(steps)
    ensures !CoverageSucceeds(steps, initial, registry)
  {
    FinishedExactly(steps, initial, registry);
    SucceedsExactly(steps, initial, registry);
  }

  lemma BadInputsNeverCovered(steps: seq<PlanStep>, initial: StepOutputs, registry: ExecutorRegistry)
    requires !AllReportable(steps)
    ensures CoverageSucceeds(steps, initial, registry)
  {
    FinishedExactly(steps, initial, registry);
  }

  function KindsOf(steps: seq<PlanStep>): (kinds: set<string>) {
    set i | 0 <= i < |steps| :: steps[i].kind
  }

  /** Executors that succeed everywhere but on the last step. */
  function LastFails(steps: seq<PlanStep>): ExecutorRegistry
    requires steps != []
  {
    Executors(KindsOf(steps), FailingOn({steps[|steps| - 1]}))
  }

  lemma FailedStops(st: RunState, step: PlanStep, registry: ExecutorRegistry)
    requires st.progress.Going? && DependenciesSatisfied(step, st.stepStatus) && MakesDict(step.inputs)
    requires step.kind in registry && StatusOf(registry[step.kind](step, st.outputs)) == Failed && step.onFailure != CONTINUE
    ensures var next := Advance(st, step, registry); next.progress.Stopped? && |next.stepRuns| == |st.stepRuns| + 1
  {
  }

  lemma FailingLast(steps: seq<PlanStep>, initial: StepOutputs)
    requires steps != [] && UniqueIds(steps) && AllReportable(steps)
    requires Reachable(steps, |steps| - 1) && steps[|steps| - 1].onFailure != CONTINUE
    ensures !CoverageSucceeds(steps, initial, LastFails(steps))
  {
    var n, kinds := |steps| - 1, KindsOf(steps);
    var front, last := steps[..n], steps[n];
    forall i | 0 <= i < n
      ensures front[i] !in {last} && Startable(front, i, kinds)
    {
      assert steps[i].stepId != last.stepId;
      assert steps[i].kind in kinds && Reportable(steps[i].inputs);
    }
    HopefulRun(front, initial, kinds, {last});
    var before := RunSteps(front, initial, LastFails(steps));
    assert forall k :: 0 <= k < |last.dependsOn| ==> SucceededIn(before, last.dependsOn[k]);
    assert DependenciesSatisfied(last, before.stepStatus) && last.kind in kinds && Reportable(last.inputs);
    FailedStops(before, last, LastFails(steps));
    StoppedAtEnd(steps, initial, LastFails(steps));
  }

  /**
    For a plan with unique ids, covering the plan means success for all executors exactly
    when its last step may be passed over or cannot be reached, or some inputs make the run raise.
   */
  lemma CoverageIsSuccess(steps: seq<PlanStep>, initial: StepOutputs)
    requires UniqueIds(steps)
    ensures (forall registry: ExecutorRegistry :: CoverageSucceeds(steps, initial, registry)) <==>
      steps == [] || steps[|steps| - 1].onFailure == CONTINUE || !Reachable(steps, |steps| - 1) || !AllReportable(steps)
  {
    if steps == [] || steps[|steps| - 1].onFailure == CONTINUE {
      forall registry: ExecutorRegistry
        ensures CoverageSucceeds(steps, initial, registry)
      {
        PassedOverLast(steps, initial, registry);
      }
    } else if !Reachable(steps, |steps| - 1) {
      forall registry: ExecutorRegistry
        ensures CoverageSucceeds(steps, initial, registry)
      {
        UnreachableLast(steps, initial, registry);
      }
    } else if !AllReportable(steps) {
      forall registry: ExecutorRegistry
        ensures CoverageSucceeds(steps, initial, registry)
      {
        BadInputsNeverCovered(steps, initial, registry);
      }
    } else {
      FailingLast(steps, initial);
    }
  }
}
