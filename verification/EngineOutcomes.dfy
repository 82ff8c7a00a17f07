/**
  What the records of a run say about the executors: every executed step is recorded with
  what its executor did, and every recorded status, output and start has its reason.
 */
module EngineOutcomes {
  import opened Wrappers
  import opened SchemaValidation
  import opened Plan
  import opened ExecutionEngine
  import opened EngineSafety

  /** The record of an executed step says what its executor returned, or that it raised; a failure that asks for a new plan waits for it. */
  ghost predicate Tells(step: PlanStep, run: StepRun, outcome: Outcome) {
    match outcome
    case Returned(status, outputs) =>
      && run.outputs == outputs
      && run.status == if status != Succeeded && step.onFailure == REQUEST_REPLAN then WaitingReplan else status
    case Raised(_) =>
      && run.outputs == Dict([])
      && run.status == if step.onFailure == REQUEST_REPLAN then WaitingReplan else Failed
  }

  /** The record of a step that came after the steps in front of it. */
  ghost predicate TellsAt(steps: seq<PlanStep>, runs: seq<StepRun>, i: nat, initial: StepOutputs, registry: ExecutorRegistry)
    requires i < |runs| <= |steps|
  {
    var before, step, run := RunSteps(steps[..i], initial, registry), steps[i], runs[i];
    && before.progress.Going? && before.stepRuns == runs[..i]
    && (run.executed <==> forall d :: d in step.dependsOn ==> d in before.stepStatus && before.stepStatus[d] == Succeeded)
    && (run.executed ==> step.kind in registry && Tells(step, run, registry[step.kind](step, before.outputs)))
    && (!run.executed ==> run.status == Skipped && run.outputs == Dict([]))
  }

  ghost predicate AllTell(steps: seq<PlanStep>, initial: StepOutputs, registry: ExecutorRegistry) {
    var runs := RunSteps(steps, initial, registry).stepRuns;
    |runs| <= |steps| && forall i :: 0 <= i < |runs| ==> TellsAt(steps, runs, i, initial, registry)
  }

  lemma TellsLast(st: RunState, step: PlanStep, registry: ExecutorRegistry)
    requires st.progress.Going? && !IsRaised(Advance(st, step, registry).progress)
    ensures var next := Advance(st, step, registry);
      && |next.stepRuns| == |st.stepRuns| + 1 && next.stepRuns[..|st.stepRuns|] == st.stepRuns
      && var run := next.stepRuns[|st.stepRuns|];
         && (run.executed <==> forall d :: d in step.dependsOn ==> d in st.stepStatus && st.stepStatus[d] == Succeeded)
         && (run.executed ==> step.kind in registry && Tells(step, run, registry[step.kind](step, st.outputs)))
         && (!run.executed ==> run.status == Skipped && run.outputs == Dict([]))
  {
    assert DependenciesSatisfied(step, st.stepStatus) <==>
      forall d :: d in step.dependsOn ==> d in st.stepStatus && st.stepStatus[d] == Succeeded;
  }

  lemma TellsFront(steps: seq<PlanStep>, runs: seq<StepRun>, more: seq<StepRun>, i: nat, initial: StepOutputs, registry: ExecutorRegistry)
    requires steps != [] && i < |runs| <= |steps| - 1 && TellsAt(steps[..|steps| - 1], runs, i, initial, registry)
    requires |runs| <= |more| <= |steps| && more[..|runs|] == runs
    ensures TellsAt(steps, more, i, initial, registry)
  {
    assert steps[..|steps| - 1][..i] == steps[..i] && more[..i] == runs[..i] && more[i] == more[..|runs|][i];
  }

  lemma NewRecordTells(front: seq<PlanStep>, step: PlanStep, initial: StepOutputs, registry: ExecutorRegistry)
    requires var before := RunSteps(front, initial, registry); before.progress.Going? && |before.stepRuns| == |front|
    requires !IsRaised(Advance(RunSteps(front, initial, registry), step, registry).progress)
    ensures var after := Advance(RunSteps(front, initial, registry), step, registry);
      |after.stepRuns| == |front| + 1 && TellsAt(front + [step], after.stepRuns, |front|, initial, registry)
  {
    assert (front + [step])[..|front|] == front;
    TellsLast(RunSteps(front, initial, registry), step, registry);
  }

  lemma LastTells(front: seq<PlanStep>, step: PlanStep, initial: StepOutputs, registry: ExecutorRegistry)
    requires AllTell(front, initial, registry)
    requires RunSteps(front, initial, registry).progress.Going? ==> |RunSteps(front, initial, registry).stepRuns| == |front|
    ensures AllTell(front + [step], initial, registry)
  {
    var before, after := RunSteps(front, initial, registry), RunSteps(front + [step], initial, registry);
    assert (front + [step])[..|front|] == front;
    if before.progress.Going? {
      assert after == Advance(before, step, registry);
      AdvanceExtends(before, step, registry);
      if !IsRaised(after.progress) {
        NewRecordTells(front, step, initial, registry);
      }
    }
    OldTell(front, step, before.stepRuns, after.stepRuns, initial, registry);
  }

  lemma AdvanceExtends(st: RunState, step: PlanStep, registry: ExecutorRegistry)
    requires st.progress.Going?
    ensures var next := Advance(st, step, registry);
      && |next.stepRuns| == |st.stepRuns| + (if IsRaised(next.progress) then 0 else 1)
      && next.stepRuns[..|st.stepRuns|] == st.stepRuns
  {
  }

  lemma OldTell(front: seq<PlanStep>, step: PlanStep, runs: seq<StepRun>, more: seq<StepRun>, initial: StepOutputs, registry: ExecutorRegistry)
    requires |runs| <= |front| && |runs| <= |more| <= |front| + 1 && more[..|runs|] == runs
    requires forall i :: 0 <= i < |runs| ==> TellsAt(front, runs, i, initial, registry)
    ensures forall i :: 0 <= i < |runs| ==> TellsAt(front + [step], more, i, initial, registry)
  {
    assert (front + [step])[..|front|] == front;
    forall i | 0 <= i < |runs|
      ensures TellsAt(front + [step], more, i, initial, registry)
    {
      TellsFront(front + [step], runs, more, i, initial, registry);
    }
  }

  /** Every record of a run tells what the executors did, in the order of the plan. */
  lemma {:induction false} RunsTellOutcomes(steps: seq<PlanStep>, initial: StepOutputs, registry: ExecutorRegistry)
    ensures AllTell(steps, initial, registry)
  {
    if steps != [] {
      var front, step := steps[..|steps| - 1], steps[|steps| - 1];
      RunsTellOutcomes(front, initial, registry);
      RunInvariant(front, initial, registry);
      LastTells(front, step, initial, registry);
      assert front + [step] == steps;
    }
  }

  // ----- what the result tells -----

  ghost predicate AskedOnlyWaiting(st: RunState) {
    st.replanFor.Some? ==> st.progress == Stopped(RunWaitingReplan)
  }

  lemma {:induction false} NoneAskedBefore(steps: seq<PlanStep>, initial: StepOutputs, registry: ExecutorRegistry)
    ensures AskedOnlyWaiting(RunSteps(steps, initial, registry))
  {
    if steps != [] {
      var front, step := steps[..|steps| - 1], steps[|steps| - 1];
      NoneAskedBefore(front, initial, registry);
      if RunSteps(front, initial, registry).progress.Going? {
        NextAsks(RunSteps(front, initial, registry), step, registry);
      }
    }
  }

  lemma NextAsks(st: RunState, step: PlanStep, registry: ExecutorRegistry)
    requires st.progress.Going? && AskedOnlyWaiting(st)
    ensures AskedOnlyWaiting(Advance(st, step, registry))
  {
  }

  /** The result names the records, the status, the step a new plan is asked for, and if it is an exception what caused it. */
  ghost predicate ResultTells(steps: seq<PlanStep>, st: RunState, r: RunResult) {
    var n := |st.stepRuns|;
    match r
    case Finished(status, runs, replanFor) =>
      && runs == st.stepRuns
      && (status == RunSucceeded <==> st.progress.Going?)
      && (status == RunWaitingReplan <==> replanFor.Some?)
      && (status == RunWaitingReplan ==> 0 < n <= |steps| && replanFor == Some(steps[n - 1].stepId) && runs[n - 1].status == WaitingReplan)
      && (status == RunFailed ==>
            0 < n <= |steps| && runs[n - 1].executed && runs[n - 1].status != Succeeded &&
            steps[n - 1].onFailure !in {"continue", "request_replan"})
    case RaisedUnsupported(kind) => n < |steps| && steps[n].kind == kind
    case RaisedBadInputs(stepId) => n < |steps| && steps[n].stepId == stepId && !MakesDict(steps[n].inputs)
    case RaisedUnsortable => n <= |steps| && exists i :: 0 <= i < n && !Reportable(steps[i].inputs)
  }

  lemma ResultIs(steps: seq<PlanStep>, initial: StepOutputs, registry: ExecutorRegistry)
    ensures ResultTells(steps, RunSteps(steps, initial, registry), ResultOf(RunSteps(steps, initial, registry)))
  {
    RunInvariant(steps, initial, registry);
    FinishedExactly(steps, initial, registry);
    NoneAskedBefore(steps, initial, registry);
    ResultFromShape(steps, RunSteps(steps, initial, registry), registry);
  }

  lemma ResultFromShape(steps: seq<PlanStep>, st: RunState, registry: ExecutorRegistry)
    requires RunShape(steps, st, registry) && AskedOnlyWaiting(st)
    requires ResultOf(st).Finished? <==> !IsRaised(st.progress) && forall i :: 0 <= i < |st.stepRuns| ==> Reportable(steps[i].inputs)
    ensures ResultTells(steps, st, ResultOf(st))
  {
  }

  /** With unique ids: what later steps find under the id of a step is what its executor returned, if it returned success. */
  lemma OutputsAreReturned(steps: seq<PlanStep>, initial: StepOutputs, registry: ExecutorRegistry, i: nat)
    requires UniqueIds(steps) && i < |RunSteps(steps, initial, registry).stepRuns| <= |steps|
    requires RunSteps(steps, initial, registry).stepRuns[i].executed && steps[i].kind in registry
    ensures var outcome := registry[steps[i].kind](steps[i], RunSteps(steps[..i], initial, registry).outputs);
      var outputs := RunSteps(steps, initial, registry).outputs;
      if outcome.Returned? && outcome.status == Succeeded then
        steps[i].stepId in outputs && outputs[steps[i].stepId] == outcome.outputs
      else steps[i].stepId !in initial ==> steps[i].stepId !in outputs
  {
    var st := RunSteps(steps, initial, registry);
    RunsTellOutcomes(steps, initial, registry);
    RunInvariant(steps, initial, registry);
    OutputsAreExact(steps, initial, registry);
    assert TellsAt(steps, st.stepRuns, i, initial, registry);
    OwnRecordDecides(steps, st, initial, i);
  }

  lemma OwnRecordDecides(steps: seq<PlanStep>, st: RunState, initial: StepOutputs, i: nat)
    requires UniqueIds(steps) && PrefixMatches(steps, st.stepRuns) && OutputsMatch(st.stepRuns, initial, st.outputs)
    requires i < |st.stepRuns| && st.stepRuns[i].executed
    ensures var id := steps[i].stepId;
      if st.stepRuns[i].status == Succeeded then id in st.outputs && st.outputs[id] == st.stepRuns[i].outputs
      else id !in initial ==> id !in st.outputs
  {
    forall j | 0 <= j < |st.stepRuns| && st.stepRuns[j].stepId == steps[i].stepId
      ensures j == i
    {
      assert steps[j].stepId == steps[i].stepId;
    }
  }
}
