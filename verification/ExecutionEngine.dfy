/** The serial interpreter of plans. */
module ExecutionEngine {
  import opened Wrappers
  import opened SchemaValidation
  import opened Plan

  datatype StepStatus = Succeeded | Failed | Skipped | Cancelled | WaitingReplan | OtherStatus

  datatype RunStatus = RunSucceeded | RunFailed | RunWaitingReplan

  type StepOutputs = map<string, Value>

  /** What calling an executor does. */
  datatype Outcome = Returned(status: StepStatus, outputs: Value) | Raised(error: string)

  /** An executor sees the step and the outputs of the steps so far. */
  type Executor = (PlanStep, StepOutputs) -> Outcome

  type ExecutorRegistry = map<string, Executor>

  /** `inputKeys` are the keys of the copied inputs; `executed` tells a step that was started from one skipped for its dependencies. */
  datatype StepRun = StepRun(stepId: string, kind: string, inputKeys: seq<Value>, status: StepStatus, outputs: Value, executed: bool)

  /** The last two raise out of the run: no executor for a kind, inputs that cannot be copied into a dictionary. */
  datatype Progress = Going | Stopped(status: RunStatus) | UnsupportedStepKind(kind: string) | BadInputs(stepId: string)

  datatype RunState = RunState(
    stepRuns: seq<StepRun>,
    stepStatus: map<string, StepStatus>,
    outputs: StepOutputs,
    replanFor: Option<string>,
    progress: Progress)

  function StatusOf(outcome: Outcome): StepStatus {
    match outcome
    case Returned(status, _) => status
    case Raised(_) => Failed
  }

  function OutputsOf(outcome: Outcome): Value {
    match outcome
    case Returned(_, outputs) => outputs
    case Raised(_) => Dict([])
  }

  predicate DependenciesSatisfied(step: PlanStep, stepStatus: map<string, StepStatus>) {
    forall i :: 0 <= i < |step.dependsOn| ==>
      step.dependsOn[i] in stepStatus && stepStatus[step.dependsOn[i]] == Succeeded
  }

  /** The effect of one step on a run that is still going. */
  function Advance(st: RunState, step: PlanStep, registry: ExecutorRegistry): RunState {
    if !DependenciesSatisfied(step, st.stepStatus) then
      if !MakesDict(step.inputs) then st.(progress := BadInputs(step.stepId))
      else
        st.(stepRuns := st.stepRuns + [StepRun(step.stepId, step.kind, CopiedKeys(step.inputs), Skipped, Dict([]), false)],
            stepStatus := st.stepStatus[step.stepId := Skipped])
    else if step.kind !in registry then
      st.(progress := UnsupportedStepKind(step.kind))
    else if !MakesDict(step.inputs) then
      st.(progress := BadInputs(step.stepId))
    else
      var outcome := registry[step.kind](step, st.outputs);
      Conclude(st, step, StatusOf(outcome), OutputsOf(outcome))
  }

  /** The effect of an executed step that ended with `status`. */
  function Conclude(st: RunState, step: PlanStep, status: StepStatus, outputs: Value): RunState
    requires MakesDict(step.inputs)
  {
    var waiting := status != Succeeded && step.onFailure == REQUEST_REPLAN;
    var final := if waiting then WaitingReplan else status;
    var next := st.(
      stepRuns := st.stepRuns + [StepRun(step.stepId, step.kind, CopiedKeys(step.inputs), final, outputs, true)],
      stepStatus := st.stepStatus[step.stepId := final]);
    if status == Succeeded then next.(outputs := st.outputs[step.stepId := outputs])
    else if step.onFailure == CONTINUE then next
    else if waiting then next.(replanFor := Some(step.stepId), progress := Stopped(RunWaitingReplan))
    else next.(progress := Stopped(RunFailed))
  }

  /** The run after the given steps; a stopped run ignores the steps that remain. */
  function RunSteps(steps: seq<PlanStep>, initial: StepOutputs, registry: ExecutorRegistry): RunState {
    if steps == [] then RunState([], map[], initial, None, Going)
    else
      var st := RunSteps(steps[..|steps| - 1], initial, registry);
      if st.progress.Going? then Advance(st, steps[|steps| - 1], registry) else st
  }

  class ExecutionContext {
    var stepOutputs: StepOutputs

    constructor (outputs: StepOutputs)
      ensures stepOutputs == outputs
    {
      stepOutputs := outputs;
    }
  }

  datatype RunResult =
    | Finished(status: RunStatus, stepRuns: seq<StepRun>, replanFor: Option<string>)
    | RaisedUnsupported(kind: string)
    | RaisedBadInputs(stepId: string)
    | RaisedUnsortable

  /** The report of a run is written as JSON with sorted keys, with or without somewhere to keep it. */
  predicate CanReport(runs: seq<StepRun>) {
    forall i :: 0 <= i < |runs| ==> Sortable(runs[i].inputKeys)
  }

  function Reported(status: RunStatus, runs: seq<StepRun>, replanFor: Option<string>): RunResult {
    if CanReport(runs) then Finished(status, runs, replanFor) else RaisedUnsortable
  }

  /** What the caller gets to see of a run. */
  function ResultOf(st: RunState): RunResult {
    match st.progress
    case Going => Reported(RunSucceeded, st.stepRuns, None)
    case Stopped(status) => Reported(status, st.stepRuns, st.replanFor)
    case UnsupportedStepKind(kind) => RaisedUnsupported(kind)
    case BadInputs(stepId) => RaisedBadInputs(stepId)
  }

  class Engine {
    const registry: ExecutorRegistry

    constructor (registry: ExecutorRegistry)
      ensures this.registry == registry
    {
      this.registry := registry;
    }

    /**
      Interprets the steps in order.  An unsupported kind, or inputs that are no mapping, raise
      out of the whole run, and so does the report at its end on inputs with keys of two kinds.
     */
    method Run(steps: seq<PlanStep>, context: ExecutionContext) returns (r: RunResult)
      modifies context
      ensures var st := RunSteps(steps, old(context.stepOutputs), registry);
        && context.stepOutputs == st.outputs
        && r == ResultOf(st)
    {
      var stepRuns: seq<StepRun>, stepStatus: map<string, StepStatus> := [], map[];
      ghost var initial := context.stepOutputs;
      for i := 0 to |steps|
        invariant RunSteps(steps[..i], initial, registry) == RunState(stepRuns, stepStatus, context.stepOutputs, None, Going)
      {
        ghost var st := RunSteps(steps[..i], initial, registry);
        assert steps[..i + 1][..i] == steps[..i];
        var step := steps[i];
        if !DependenciesSatisfied(step, stepStatus) {
          if !MakesDict(step.inputs) {
            StoppedStays(steps, i + 1, initial, registry);
            return RaisedBadInputs(step.stepId);
          }
          stepRuns := stepRuns + [StepRun(step.stepId, step.kind, CopiedKeys(step.inputs), Skipped, Dict([]), false)];
          stepStatus := stepStatus[step.stepId := Skipped];
          continue;
        }
        if step.kind !in registry {
          StoppedStays(steps, i + 1, initial, registry);
          return RaisedUnsupported(step.kind);
        }
        if !MakesDict(step.inputs) {
          StoppedStays(steps, i + 1, initial, registry);
          return RaisedBadInputs(step.stepId);
        }
        var outcome := registry[step.kind](step, context.stepOutputs);
        var status, outputs := StatusOf(outcome), OutputsOf(outcome);
        var stepRun := StepRun(step.stepId, step.kind, CopiedKeys(step.inputs), status, outputs, true);
        if status == Succeeded {
          stepRuns, stepStatus := stepRuns + [stepRun], stepStatus[step.stepId := status];
          context.stepOutputs := context.stepOutputs[step.stepId := outputs];
          continue;
        }
        if step.onFailure == CONTINUE {
          stepRuns, stepStatus := stepRuns + [stepRun], stepStatus[step.stepId := status];
          continue;
        }
        StoppedStays(steps, i + 1, initial, registry);
        if step.onFailure == REQUEST_REPLAN {
          stepRun := stepRun.(status := WaitingReplan);
          r := FinishRecording(RunWaitingReplan, stepRuns + [stepRun], Some(step.stepId));
          return;
        }
        r := FinishRecording(RunFailed, stepRuns + [stepRun], None);
        return;
      }
      assert steps[..|steps|] == steps;
      r := FinishRecording(RunSucceeded, stepRuns, None);
    }

    /** Writes the report of the run, which is where every run ends that has not raised before. */
    method FinishRecording(status: RunStatus, runs: seq<StepRun>, replanFor: Option<string>) returns (r: RunResult)
      ensures r == Reported(status, runs, replanFor)
    {
      if exists i :: 0 <= i < |runs| && !Sortable(runs[i].inputKeys) {
        return RaisedUnsortable;
      }
      r := Finished(status, runs, replanFor);
    }
  }

  lemma {:induction false} StoppedStays(steps: seq<PlanStep>, n: nat, initial: StepOutputs, registry: ExecutorRegistry)
    requires n <= |steps| && !RunSteps(steps[..n], initial, registry).progress.Going?
    ensures RunSteps(steps, initial, registry) == RunSteps(steps[..n], initial, registry)
  {
    if n == |steps| {
      assert steps[..n] == steps;
    } else {
      var front := steps[..|steps| - 1];
      assert front[..n] == steps[..n];
      StoppedStays(front, n, initial, registry);
    }
  }
}
