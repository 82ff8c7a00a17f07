/** What every run of the engine keeps, whatever plan it is given. */
module EngineSafety {
  import opened Wrappers
  import opened Plan
  import opened ExecutionEngine

  /** The step ended a run: it was executed, did not succeed and must not be passed over. */
  predicate Halts(step: PlanStep, run: StepRun) {
    run.executed && run.status != Succeeded && step.onFailure != CONTINUE
  }

  predicate SucceededBefore(runs: seq<StepRun>, n: nat, id: string)
    requires n <= |runs|
  {
    exists j :: 0 <= j < n && runs[j].stepId == id && runs[j].status == Succeeded
  }

  /** Every dependency of an executed step has succeeded strictly earlier. */
  ghost predicate DependencySafe(steps: seq<PlanStep>, runs: seq<StepRun>) {
    |runs| <= |steps| &&
    forall i, d :: 0 <= i < |runs| && runs[i].executed && d in steps[i].dependsOn ==> SucceededBefore(runs, i, d)
  }

  ghost predicate PrefixMatches(steps: seq<PlanStep>, runs: seq<StepRun>) {
    && |runs| <= |steps|
    && (forall i :: 0 <= i < |runs| ==> runs[i].stepId == steps[i].stepId && runs[i].kind == steps[i].kind)
    && (forall i :: 0 <= i < |runs| && !runs[i].executed ==> runs[i].status == Skipped)
  }

  /** The run was left by an exception. */
  predicate IsRaised(p: Progress) {
    p.UnsupportedStepKind? || p.BadInputs?
  }

  /** The step's inputs were copied, and the run holds the keys of the copy. */
  predicate Copied(step: PlanStep, run: StepRun) {
    MakesDict(step.inputs) && run.inputKeys == CopiedKeys(step.inputs)
  }

  /** The shape of a run: which steps it covers and why it is where it is. */
  ghost predicate RunShape(steps: seq<PlanStep>, st: RunState, registry: ExecutorRegistry) {
    var n := |st.stepRuns|;
    && PrefixMatches(steps, st.stepRuns)
    && (forall i :: 0 <= i < n - 1 ==> !Halts(steps[i], st.stepRuns[i]))
    && (forall i :: 0 <= i < n ==> Copied(steps[i], st.stepRuns[i]))
    && match st.progress
       case Going => n == |steps| && (n > 0 ==> !Halts(steps[n - 1], st.stepRuns[n - 1]))
       case Stopped(status) =>
         && n > 0 && Halts(steps[n - 1], st.stepRuns[n - 1])
         && status == (if steps[n - 1].onFailure == REQUEST_REPLAN then RunWaitingReplan else RunFailed)
         && (steps[n - 1].onFailure == REQUEST_REPLAN ==>
               st.replanFor == Some(steps[n - 1].stepId) && st.stepRuns[n - 1].status == WaitingReplan)
       case UnsupportedStepKind(kind) =>
         && n < |steps| && (n > 0 ==> !Halts(steps[n - 1], st.stepRuns[n - 1]))
         && steps[n].kind == kind && kind !in registry
         && DependenciesSatisfied(steps[n], st.stepStatus)
       case BadInputs(stepId) =>
         && n < |steps| && (n > 0 ==> !Halts(steps[n - 1], st.stepRuns[n - 1]))
         && steps[n].stepId == stepId && !MakesDict(steps[n].inputs)
  }

  /** The status table holds, for every id, the status of its latest run. */
  ghost predicate StatusMatches(st: RunState) {
    && (forall id :: id in st.stepStatus ==> LatestStatus(st.stepRuns, id) == Some(st.stepStatus[id]))
    && (forall i :: 0 <= i < |st.stepRuns| ==> st.stepRuns[i].stepId in st.stepStatus)
  }

  function LatestStatus(runs: seq<StepRun>, id: string): Option<StepStatus> {
    if runs == [] then None
    else if runs[|runs| - 1].stepId == id then Some(runs[|runs| - 1].status)
    else LatestStatus(runs[..|runs| - 1], id)
  }

  lemma {:induction false} LatestIsThere(runs: seq<StepRun>, id: string)
    requires LatestStatus(runs, id) == Some(Succeeded)
    ensures SucceededBefore(runs, |runs|, id)
  {
    var n := |runs| - 1;
    if runs[n].stepId != id {
      LatestIsThere(runs[..n], id);
      var j :| 0 <= j < n && runs[..n][j].stepId == id && runs[..n][j].status == Succeeded;
      assert runs[j].stepId == id && runs[j].status == Succeeded;
    }
  }

  lemma StatusAfter(st: RunState, run: StepRun, next: RunState)
    requires StatusMatches(st)
    requires next.stepRuns == st.stepRuns + [run] && next.stepStatus == st.stepStatus[run.stepId := run.status]
    ensures StatusMatches(next)
  {
    assert next.stepRuns[..|st.stepRuns|] == st.stepRuns;
  }

  lemma SafeAfter(steps: seq<PlanStep>, st: RunState, step: PlanStep, run: StepRun)
    requires DependencySafe(steps, st.stepRuns) && StatusMatches(st) && |st.stepRuns| == |steps|
    requires run.executed ==> DependenciesSatisfied(step, st.stepStatus)
    ensures DependencySafe(steps + [step], st.stepRuns + [run])
  {
    var n, runs := |steps|, st.stepRuns + [run];
    forall i, d | 0 <= i < |runs| && runs[i].executed && d in (steps + [step])[i].dependsOn
      ensures SucceededBefore(runs, i, d)
    {
      if i < n {
        assert SucceededBefore(st.stepRuns, i, d);
        var j :| 0 <= j < i && st.stepRuns[j].stepId == d && st.stepRuns[j].status == Succeeded;
        assert runs[j] == st.stepRuns[j];
      } else {
        var k :| 0 <= k < |step.dependsOn| && step.dependsOn[k] == d;
        LatestIsThere(st.stepRuns, d);
        var j :| 0 <= j < n && st.stepRuns[j].stepId == d && st.stepRuns[j].status == Succeeded;
        assert runs[j] == st.stepRuns[j];
      }
    }
  }

  /** The run a step leaves behind, if it leaves one. */
  lemma AdvanceRecords(st: RunState, step: PlanStep, registry: ExecutorRegistry) returns (run: StepRun)
    requires st.progress.Going?
    requires !IsRaised(Advance(st, step, registry).progress)
    ensures Recorded(st, step, Advance(st, step, registry), run)
  {
    run := Advance(st, step, registry).stepRuns[|st.stepRuns|];
  }

  /** What a step that does not raise leaves: one more record, its status, its outputs and how the run goes on. */
  ghost predicate Recorded(st: RunState, step: PlanStep, next: RunState, run: StepRun) {
    && next.stepRuns == st.stepRuns + [run] && next.stepStatus == st.stepStatus[run.stepId := run.status]
    && run.stepId == step.stepId && run.kind == step.kind && Copied(step, run)
    && (run.executed <==> DependenciesSatisfied(step, st.stepStatus)) && (!run.executed ==> run.status == Skipped)
    && next.outputs == (if run.executed && run.status == Succeeded
                        then st.outputs[step.stepId := run.outputs] else st.outputs)
    && (next.progress.Going? <==> !Halts(step, run))
    && (next.progress.Stopped? ==> next.progress == Stopped(if step.onFailure == REQUEST_REPLAN then RunWaitingReplan else RunFailed))
    && (next.progress.Stopped? && step.onFailure == REQUEST_REPLAN ==> next.replanFor == Some(step.stepId) && run.status == WaitingReplan)
    && !IsRaised(next.progress)
  }

  lemma SafeLonger(front: seq<PlanStep>, step: PlanStep, runs: seq<StepRun>)
    requires DependencySafe(front, runs)
    ensures DependencySafe(front + [step], runs)
  {
    forall i, d | 0 <= i < |runs| && runs[i].executed && d in (front + [step])[i].dependsOn
      ensures SucceededBefore(runs, i, d)
    {
      assert (front + [step])[i] == front[i];
    }
  }

  /** Shape, status table and dependency safety together hold after every prefix of any plan. */
  lemma {:induction false} RunInvariant(steps: seq<PlanStep>, initial: StepOutputs, registry: ExecutorRegistry)
    ensures var st := RunSteps(steps, initial, registry);
      RunShape(steps, st, registry) && StatusMatches(st) && DependencySafe(steps, st.stepRuns)
  {
    if steps != [] {
      var n := |steps| - 1;
      var before := RunSteps(steps[..n], initial, registry);
      RunInvariant(steps[..n], initial, registry);
      assert steps == steps[..n] + [steps[n]];
      if before.progress.Going? {
        StepInvariant(steps[..n], steps[n], before, registry);
      } else {
        StoppedInvariant(steps[..n], steps[n], before, registry);
      }
    }
  }

  lemma RecordShape(front: seq<PlanStep>, step: PlanStep, st: RunState, next: RunState, run: StepRun, registry: ExecutorRegistry)
    requires st.progress.Going? && RunShape(front, st, registry) && Recorded(st, step, next, run)
    ensures RunShape(front + [step], next, registry)
  {
  }

  lemma RaisedShape(front: seq<PlanStep>, step: PlanStep, st: RunState, registry: ExecutorRegistry)
    requires st.progress.Going? && RunShape(front, st, registry) && IsRaised(Advance(st, step, registry).progress)
    ensures RunShape(front + [step], Advance(st, step, registry), registry)
  {
  }

  lemma RaisedKeeps(front: seq<PlanStep>, step: PlanStep, st: RunState, registry: ExecutorRegistry)
    requires st.progress.Going? && RunShape(front, st, registry) && StatusMatches(st) && DependencySafe(front, st.stepRuns)
    requires IsRaised(Advance(st, step, registry).progress)
    ensures var next := Advance(st, step, registry);
      RunShape(front + [step], next, registry) && StatusMatches(next) && DependencySafe(front + [step], next.stepRuns)
  {
    RaisedShape(front, step, st, registry);
    SafeLonger(front, step, st.stepRuns);
    assert Advance(st, step, registry).(progress := st.progress) == st;
  }

  lemma RecordKeeps(front: seq<PlanStep>, step: PlanStep, st: RunState, next: RunState, run: StepRun, registry: ExecutorRegistry)
    requires st.progress.Going? && RunShape(front, st, registry) && StatusMatches(st) && DependencySafe(front, st.stepRuns)
    requires Recorded(st, step, next, run)
    ensures RunShape(front + [step], next, registry) && StatusMatches(next) && DependencySafe(front + [step], next.stepRuns)
  {
    RecordShape(front, step, st, next, run, registry);
    StatusAfter(st, run, next);
    SafeAfter(front, st, step, run);
  }

  lemma StoppedInvariant(front: seq<PlanStep>, step: PlanStep, st: RunState, registry: ExecutorRegistry)
    requires !st.progress.Going? && RunShape(front, st, registry) && DependencySafe(front, st.stepRuns)
    ensures RunShape(front + [step], st, registry) && DependencySafe(front + [step], st.stepRuns)
  {
    SafeLonger(front, step, st.stepRuns);
    assert forall i :: 0 <= i < |front| ==> (front + [step])[i] == front[i];
  }

  lemma {:induction false} StepInvariant(front: seq<PlanStep>, step: PlanStep, st: RunState, registry: ExecutorRegistry)
    requires st.progress.Going? && RunShape(front, st, registry) && StatusMatches(st) && DependencySafe(front, st.stepRuns)
    ensures var next := Advance(st, step, registry);
      RunShape(front + [step], next, registry) && StatusMatches(next) && DependencySafe(front + [step], next.stepRuns)
  {
    var next := Advance(st, step, registry);
    if IsRaised(next.progress) {
      RaisedKeeps(front, step, st, registry);
    } else {
      var run := AdvanceRecords(st, step, registry);
      RecordKeeps(front, step, st, next, run, registry);
    }
  }

  // ----- prefix and outcome -----

  /** The run has ended with a result exactly when it was not left by an exception and the inputs it copied can be reported. */
  lemma FinishedExactly(steps: seq<PlanStep>, initial: StepOutputs, registry: ExecutorRegistry)
    ensures var st := RunSteps(steps, initial, registry);
      && |st.stepRuns| <= |steps|
      && (ResultOf(st).Finished? <==>
            !IsRaised(st.progress) && forall i :: 0 <= i < |st.stepRuns| ==> Reportable(steps[i].inputs))
  {
    RunInvariant(steps, initial, registry);
    var runs := RunSteps(steps, initial, registry).stepRuns;
    forall i | 0 <= i < |runs|
      ensures Sortable(runs[i].inputKeys) <==> Reportable(steps[i].inputs)
    {
      assert Copied(steps[i], runs[i]);
    }
  }

  predicate Succeeds(r: RunResult) {
    r.Finished? && r.status == RunSucceeded
  }

  predicate NoneHalts(steps: seq<PlanStep>, runs: seq<StepRun>)
    requires |runs| <= |steps|
  {
    forall i :: 0 <= i < |runs| ==> !Halts(steps[i], runs[i])
  }

  /**
    The step runs match a prefix of the plan, and the run succeeds exactly when they cover the
    plan, none of them halts, and the inputs of all steps can be reported.
   */
  lemma {:induction false} SuccessIsExact(steps: seq<PlanStep>, initial: StepOutputs, registry: ExecutorRegistry)
    ensures var st := RunSteps(steps, initial, registry);
      && PrefixMatches(steps, st.stepRuns)
      && (st.progress.Going? <==> |st.stepRuns| == |steps| && NoneHalts(steps, st.stepRuns))
      && (Succeeds(ResultOf(st)) <==> st.progress.Going? && AllReportable(steps))
  {
    GoesToTheEnd(steps, initial, registry);
    SucceedsExactly(steps, initial, registry);
  }

  lemma GoesToTheEnd(steps: seq<PlanStep>, initial: StepOutputs, registry: ExecutorRegistry)
    ensures var st := RunSteps(steps, initial, registry);
      && PrefixMatches(steps, st.stepRuns)
      && (st.progress.Going? <==> |st.stepRuns| == |steps| && NoneHalts(steps, st.stepRuns))
  {
    RunInvariant(steps, initial, registry);
  }

  lemma SucceedsExactly(steps: seq<PlanStep>, initial: StepOutputs, registry: ExecutorRegistry)
    ensures var st := RunSteps(steps, initial, registry);
      Succeeds(ResultOf(st)) <==> st.progress.Going? && AllReportable(steps)
  {
    FinishedExactly(steps, initial, registry);
    EndOf(steps, initial, registry);
  }

  lemma EndOf(steps: seq<PlanStep>, initial: StepOutputs, registry: ExecutorRegistry)
    ensures var st := RunSteps(steps, initial, registry);
      && (st.progress.Going? ==> |st.stepRuns| == |steps|)
      && (st.progress.Stopped? ==> st.progress.status != RunSucceeded)
  {
    RunInvariant(steps, initial, registry);
  }

  /** A stopped run ends at the one halting step; all earlier steps succeeded, were skipped or may be passed over. */
  lemma StopsAtFirstHalt(steps: seq<PlanStep>, initial: StepOutputs, registry: ExecutorRegistry)
    requires RunSteps(steps, initial, registry).progress.Stopped?
    ensures var st := RunSteps(steps, initial, registry);
      var n := |st.stepRuns|;
      && 0 < n <= |steps| && Halts(steps[n - 1], st.stepRuns[n - 1])
      && (forall i :: 0 <= i < n - 1 ==> !Halts(steps[i], st.stepRuns[i]))
      && (st.progress.status == RunWaitingReplan <==> steps[n - 1].onFailure == REQUEST_REPLAN)
  {
    RunInvariant(steps, initial, registry);
  }

  /** Covering the whole plan is not success: a failing last step leaves no step over. */
  lemma WholePlanMayFail(step: PlanStep)
    requires step.dependsOn == [] && step.onFailure == "abort" && Reportable(step.inputs)
    ensures var registry: ExecutorRegistry := map[step.kind := (s, o) => Raised("error")];
      var st := RunSteps([step], map[], registry);
      |st.stepRuns| == |[step]| && ResultOf(st) == Finished(RunFailed, st.stepRuns, None)
  {
    assert [step][..0] == [];
    assert "abort"[0] == 'a' && CONTINUE[0] == 'c' && REQUEST_REPLAN[0] == 'r';
  }

  // ----- outputs -----

  ghost predicate OutputsMatch(runs: seq<StepRun>, initial: StepOutputs, outputs: StepOutputs) {
    && (forall i :: 0 <= i < |runs| && runs[i].status == Succeeded && runs[i].executed ==>
          runs[i].stepId in outputs && outputs[runs[i].stepId] == runs[i].outputs)
    && (forall id :: id in outputs ==> SucceededBefore(runs, |runs|, id) || (id in initial && outputs[id] == initial[id]))
    && (forall id :: id in initial ==> id in outputs)
  }

  lemma OutputsAfter(runs: seq<StepRun>, run: StepRun, initial: StepOutputs, outputs: StepOutputs)
    requires OutputsMatch(runs, initial, outputs)
    requires forall i :: 0 <= i < |runs| ==> runs[i].stepId != run.stepId
    ensures OutputsMatch(runs + [run], initial,
      if run.executed && run.status == Succeeded then outputs[run.stepId := run.outputs] else outputs)
  {
    var all := runs + [run];
    var next := if run.executed && run.status == Succeeded then outputs[run.stepId := run.outputs] else outputs;
    forall id | id in next
      ensures SucceededBefore(all, |all|, id) || (id in initial && next[id] == initial[id])
    {
      if run.executed && run.status == Succeeded && id == run.stepId {
        assert all[|runs|] == run;
      } else if SucceededBefore(runs, |runs|, id) {
        var j :| 0 <= j < |runs| && runs[j].stepId == id && runs[j].status == Succeeded;
        assert all[j] == runs[j];
      }
    }
  }

  lemma OutputsAdvance(front: seq<PlanStep>, before: RunState, step: PlanStep, initial: StepOutputs, registry: ExecutorRegistry)
    requires OutputsMatch(before.stepRuns, initial, before.outputs)
    requires before.progress.Going? && PrefixMatches(front, before.stepRuns)
    requires forall i :: 0 <= i < |front| ==> front[i].stepId != step.stepId
    ensures var next := Advance(before, step, registry); OutputsMatch(next.stepRuns, initial, next.outputs)
  {
    if !IsRaised(Advance(before, step, registry).progress) {
      var run := AdvanceRecords(before, step, registry);
      OutputsAfter(before.stepRuns, run, initial, before.outputs);
    }
  }

  /** With unique ids the context holds exactly the outputs of the succeeded steps, besides what it held before. */
  lemma {:induction false} OutputsAreExact(steps: seq<PlanStep>, initial: StepOutputs, registry: ExecutorRegistry)
    requires UniqueIds(steps)
    ensures var st := RunSteps(steps, initial, registry);
      OutputsMatch(st.stepRuns, initial, st.outputs)
  {
    if steps != [] {
      var n := |steps| - 1;
      OutputsAreExact(steps[..n], initial, registry);
      RunInvariant(steps[..n], initial, registry);
      var before := RunSteps(steps[..n], initial, registry);
      if before.progress.Going? {
        OutputsAdvance(steps[..n], before, steps[n], initial, registry);
      }
    }
  }

  /** From an empty context: an id has outputs exactly when its step succeeded. */
  lemma OutputsFromEmpty(steps: seq<PlanStep>, registry: ExecutorRegistry, i: nat)
    requires UniqueIds(steps) && i < |RunSteps(steps, map[], registry).stepRuns|
    ensures var st := RunSteps(steps, map[], registry);
      st.stepRuns[i].stepId in st.outputs <==> st.stepRuns[i].executed && st.stepRuns[i].status == Succeeded
  {
    OutputsAreExact(steps, map[], registry);
    RunInvariant(steps, map[], registry);
    MatchOfUnique(steps, RunSteps(steps, map[], registry), i);
  }

  lemma MatchOfUnique(steps: seq<PlanStep>, st: RunState, i: nat)
    requires UniqueIds(steps) && PrefixMatches(steps, st.stepRuns) && i < |st.stepRuns|
    requires OutputsMatch(st.stepRuns, map[], st.outputs)
    ensures st.stepRuns[i].stepId in st.outputs <==> st.stepRuns[i].executed && st.stepRuns[i].status == Succeeded
  {
    if st.stepRuns[i].stepId in st.outputs {
      var j :| 0 <= j < |st.stepRuns| && st.stepRuns[j].stepId == st.stepRuns[i].stepId && st.stepRuns[j].status == Succeeded;
      assert steps[j].stepId == steps[i].stepId;
    }
  }

  // ----- dependencies -----

  /** Positions of the plan, each of which depends on the next. */
  ghost predicate DependencyPath(steps: seq<PlanStep>, path: seq<nat>) {
    && (forall m :: 0 <= m < |path| ==> path[m] < |steps|)
    && (forall m :: 0 <= m < |path| - 1 ==> DependsOn(steps, path[m], path[m + 1]))
  }

  ghost predicate DependsOn(steps: seq<PlanStep>, i: nat, j: nat)
    requires i < |steps| && j < |steps|
  {
    steps[j].stepId in steps[i].dependsOn
  }

  predicate Executed(runs: seq<StepRun>, i: nat) {
    i < |runs| && runs[i].executed
  }

  /** Everything an executed step transitively depends on has succeeded, each ancestor strictly earlier. */
  lemma {:induction false} AncestorsSucceededEarlier(steps: seq<PlanStep>, initial: StepOutputs, registry: ExecutorRegistry,
                                                     path: seq<nat>, m: nat)
    requires UniqueIds(steps) && DependencyPath(steps, path) && 0 < m < |path|
    requires Executed(RunSteps(steps, initial, registry).stepRuns, path[0])
    ensures var runs := RunSteps(steps, initial, registry).stepRuns;
      path[m] < path[m - 1] < |runs| && runs[path[m]].status == Succeeded && runs[path[m]].executed
  {
    var runs := RunSteps(steps, initial, registry).stepRuns;
    RunInvariant(steps, initial, registry);
    if m > 1 {
      AncestorsSucceededEarlier(steps, initial, registry, path, m - 1);
    }
    var i, j := path[m - 1], path[m];
    assert DependsOn(steps, path[m - 1], path[m - 1 + 1]);
    assert SucceededBefore(runs, i, steps[j].stepId);
    var k :| 0 <= k < i && runs[k].stepId == steps[j].stepId && runs[k].status == Succeeded;
    assert steps[k].stepId == steps[j].stepId;
    assert k == j;
  }

  lemma {:induction false} PathDescends(steps: seq<PlanStep>, initial: StepOutputs, registry: ExecutorRegistry,
                                        path: seq<nat>, m: nat)
    requires UniqueIds(steps) && DependencyPath(steps, path) && 0 < m < |path|
    requires Executed(RunSteps(steps, initial, registry).stepRuns, path[0])
    ensures path[m] < path[0]
  {
    AncestorsSucceededEarlier(steps, initial, registry, path, m);
    if m > 1 {
      PathDescends(steps, initial, registry, path, m - 1);
    }
  }

  /** No step on a dependency cycle, downstream of one, or downstream of a forward dependency is ever executed. */
  lemma BadDependenciesNeverRun(steps: seq<PlanStep>, initial: StepOutputs, registry: ExecutorRegistry, path: seq<nat>)
    requires UniqueIds(steps) && DependencyPath(steps, path) && |path| > 1
    requires path[|path| - 1] >= path[|path| - 2] || exists m :: 0 <= m < |path| - 1 && path[m] == path[|path| - 1]
    ensures !Executed(RunSteps(steps, initial, registry).stepRuns, path[0])
  {
    var last := |path| - 1;
    if Executed(RunSteps(steps, initial, registry).stepRuns, path[0]) {
      AncestorsSucceededEarlier(steps, initial, registry, path, last);
      if m :| 0 <= m < last && path[m] == path[last] {
        if m > 0 {
          AncestorsSucceededEarlier(steps, initial, registry, path, m);
        }
        var loop := path[m..];
        forall k | 0 <= k < |loop| - 1
          ensures DependsOn(steps, loop[k], loop[k + 1])
        {
          assert DependsOn(steps, path[m + k], path[m + k + 1]);
        }
        PathDescends(steps, initial, registry, loop, last - m);
      }
    }
  }
}
