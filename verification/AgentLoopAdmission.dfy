/** The loop run with the real registry, panel, validator, preflight and engine. */
module AgentLoopAdmission {
  import opened Wrappers
  import opened SchemaValidation
  import opened SchemaTermination
  import opened Plan
  import opened Capability
  import opened PlanValidation
  import opened ExecutionEngine
  import opened EngineSafety
  import opened EngineCoverage
  import opened Preflight
  import opened AgentGraph
  import opened AgentLoop
  import opened AgentLoopSafety
  import opened Admission
  import opened PydanticCompat

  datatype Parts = Parts(
    hasDecider: bool,
    hasRequestFactory: bool,
    bound: set<Binding>,
    capabilities: seq<Descriptor>,
    digestOf: DigestOf,
    snapshotOverride: Option<Snapshot>,
    validator: ValidatorConfig,
    executable: set<string>,
    operators: set<string>)

  function EngineResult(steps: seq<PlanStep>, executable: set<string>, execute: Executor): RunResult {
    ResultOf(RunSteps(steps, map[], Executors(executable, execute)))
  }

  function Assembled(p: Parts): Runtime {
    Runtime(p.hasDecider, p.hasRequestFactory, p.bound,
      request => BuildSnapshot(p.capabilities, request, p.digestOf),
      p.snapshotOverride,
      (plan, snapshot) => Judged(plan, snapshot, p.validator),
      (steps: seq<PlanStep>, execute: Executor) => EngineResult(steps, p.executable, execute),
      p.executable, p.operators)
  }

  ghost predicate FinishesFor(steps: seq<PlanStep>, executable: set<string>, execute: Executor) {
    EngineResult(steps, executable, execute).Finished?
  }

  lemma FinishesIsEnds(steps: seq<PlanStep>, executable: set<string>, execute: Executor)
    ensures FinishesFor(steps, executable, execute) <==> EndsFor(steps, map[], executable, execute)
  {
  }

  /**
    Looking up an executor for a preflighted plan never raises, and its run ends with a result
    whatever the executors do exactly when all inputs can be copied into a dictionary and reported.
   */
  lemma PreflightedNeverRaises(steps: seq<PlanStep>, executable: set<string>, operators: set<string>)
    requires Preflight.Preflight(steps, executable, operators) == Checked([])
    ensures (forall execute: Executor :: FinishesFor(steps, executable, execute)) <==> AllReportable(steps)
    ensures forall execute: Executor :: !EngineResult(steps, executable, execute).RaisedUnsupported?
  {
    PreflightIsExact(steps, executable, operators);
    forall i | 0 <= i < |steps|
      ensures Startable(steps, i, executable) <==> MakesDict(steps[i].inputs)
    {
      assert Runnable(steps[i], executable, operators);
    }
    assert AllReportable(steps) ==> AllStartable(steps, executable);
    NeverRaisesExactly(steps, map[], executable);
    forall execute: Executor
      ensures FinishesFor(steps, executable, execute) <==> EndsFor(steps, map[], executable, execute)
      ensures !EngineResult(steps, executable, execute).RaisedUnsupported?
    {
      FinishesIsEnds(steps, executable, execute);
      LookupNeverRaises(steps, executable, operators, execute);
    }
  }

  lemma PreflightedEnds(steps: seq<PlanStep>, executable: set<string>, operators: set<string>, execute: Executor)
    requires Preflight.Preflight(steps, executable, operators) == Checked([])
    ensures AllReportable(steps) ==> FinishesFor(steps, executable, execute)
    ensures var r := EngineResult(steps, executable, execute); r.Finished? || r.RaisedBadInputs? || r.RaisedUnsortable?
  {
    PreflightedNeverRaises(steps, executable, operators);
  }

  lemma LookupNeverRaises(steps: seq<PlanStep>, executable: set<string>, operators: set<string>, execute: Executor)
    requires forall i :: 0 <= i < |steps| ==> Runnable(steps[i], executable, operators)
    ensures !EngineResult(steps, executable, execute).RaisedUnsupported?
  {
    RunInvariant(steps, map[], Executors(executable, execute));
    var st := RunSteps(steps, map[], Executors(executable, execute));
    assert st.progress.UnsupportedStepKind? ==> Runnable(steps[|st.stepRuns|], executable, operators);
  }

  /** The result of the execution at visit `n`. */
  function ExecutionAt(p: Parts, oracle: Oracle, n: nat): RunResult
    requires n >= 8
  {
    EngineResult(oracle(n - 4).draft, p.executable, oracle(n).execute)
  }

  /**
    In the assembled loop an execution runs to a result and is checked next, or it raises on
    inputs that cannot be copied into a dictionary, or at its end on copies that cannot be
    reported; by `PreflightedNeverRaises` it does the first whatever the executors do exactly
    when there are no such inputs.
   */
  lemma ExecutionNeverRaises(p: Parts, s0: LoopState, oracle: Oracle, n: nat)
    requires At(Assembled(p), s0, oracle, n).node == Executing
    ensures n >= 8
    ensures AllReportable(oracle(n - 4).draft) ==> ExecutionAt(p, oracle, n).Finished?
    ensures var r := ExecutionAt(p, oracle, n); r.Finished? || r.RaisedBadInputs? || r.RaisedUnsortable?
    ensures var next := At(Assembled(p), s0, oracle, n + 1);
      if ExecutionAt(p, oracle, n).Finished? then next.node == TaskCheck && next.state.execution == Some(ExecutionAt(p, oracle, n))
      else next.node == Crashed
  {
    ExecutedPlanIsAdmitted(Assembled(p), s0, oracle, n);
    ExecutingRound(Assembled(p), s0, oracle, n);
    PreflightedEnds(oracle(n - 4).draft, p.executable, p.operators, oracle(n).execute);
    assert At(Assembled(p), s0, oracle, n + 1) == Visit(At(Assembled(p), s0, oracle, n), oracle(n), LoopGraph(Assembled(p)));
  }

  /**
    End to end: whenever the loop executes a plan validated against the panel's own snapshot,
    with deprecated capabilities not allowed, every step of it is of a kind registered exactly
    once, by a capability eligible for the request of that very round.
   */
  lemma ExecutedStepsAreEligible(p: Parts, s0: LoopState, oracle: Oracle, n: nat, i: nat) returns (k: nat)
    requires Distinct(p.capabilities) && p.snapshotOverride.None? && !p.validator.allowDeprecatedCapability
    requires At(Assembled(p), s0, oracle, n).node == Executing && n >= 8 && i < |oracle(n - 4).draft|
    ensures k < |p.capabilities| && UsesOnly(p, oracle(n - 4).draft[i], k, RoundRequest(Assembled(p), oracle, n - 6))
  {
    ExecutedPlanIsAdmitted(Assembled(p), s0, oracle, n);
    assert Runnable(oracle(n - 4).draft[i], p.executable, p.operators);
    k := PassedRoundIsSafe(p, oracle, n - 6, i);
  }

  /** The one capability of the step's kind, open to the request and content with the inputs. */
  ghost predicate UsesOnly(p: Parts, step: PlanStep, k: nat, request: SnapshotRequest)
    requires k < |p.capabilities|
  {
    && p.capabilities[k].stepKind == step.kind
    && (forall j :: 0 <= j < |p.capabilities| && p.capabilities[j].stepKind == step.kind ==> j == k)
    && Eligible(p.capabilities[k], request)
    && InputErrors(step.inputs, p.capabilities[k]) == []
    && step.kind in p.executable
  }

  lemma PassedRoundIsSafe(p: Parts, oracle: Oracle, start: nat, i: nat) returns (k: nat)
    requires Distinct(p.capabilities) && p.snapshotOverride.None? && !p.validator.allowDeprecatedCapability
    requires RoundPasses(Assembled(p), oracle, start) && i < |oracle(start + 2).draft|
    requires oracle(start + 2).draft[i].kind in p.executable
    ensures k < |p.capabilities| && UsesOnly(p, oracle(start + 2).draft[i], k, RoundRequest(Assembled(p), oracle, start))
  {
    k := PassedPlansAreSafe(RoundPlan(Assembled(p), oracle, start), p.capabilities,
      RoundRequest(Assembled(p), oracle, start), p.digestOf, p.validator, i);
  }

  // ----- inputs -----

  /** The schema of a model, as the compiler makes it. */
  predicate ObjectSchema(s: Schema) {
    s.ref.None? && s.anyOf.NoBranches? && s.ty == Some(ObjectType)
  }

  lemma ModelSchemasAreObjects(m: Model)
    ensures ObjectSchema(CompileModel(m))
  {
  }

  lemma CleanInputsAreDictionaries(v: Value, d: Descriptor)
    requires ObjectSchema(d.inputSchema) && InputErrors(v, d) == []
    ensures v.Dict? && Reportable(v)
  {
  }

  /** If every capability has the schema of a model for its inputs, no execution of an admitted plan raises. */
  lemma ModelInputsNeverRaise(p: Parts, s0: LoopState, oracle: Oracle, n: nat)
    requires Distinct(p.capabilities) && p.snapshotOverride.None? && !p.validator.allowDeprecatedCapability
    requires forall k :: 0 <= k < |p.capabilities| ==> ObjectSchema(p.capabilities[k].inputSchema)
    requires At(Assembled(p), s0, oracle, n).node == Executing
    ensures n >= 8 && At(Assembled(p), s0, oracle, n + 1).node == TaskCheck
  {
    ExecutionNeverRaises(p, s0, oracle, n);
    var steps := oracle(n - 4).draft;
    forall i | 0 <= i < |steps|
      ensures Reportable(steps[i].inputs)
    {
      var k := ExecutedStepsAreEligible(p, s0, oracle, n, i);
      CleanInputsAreDictionaries(steps[i].inputs, p.capabilities[k]);
    }
  }

  const LIST_INPUTS: Value := List([Lit(Str("x"))])

  /** Two pairs whose keys, a number and a text, do not compare. */
  const MIXED_KEYS: Value := List([List([Lit(Int(1)), Lit(Str("a"))]), List([Lit(Str("b")), Lit(Int(2))])])

  function StepWith(kind: string, inputs: Value): PlanStep {
    PlanStep("a", kind, [], inputs, [], None, "low", "abort")
  }

  function LaxValidator(kind: string): ValidatorConfig {
    ValidatorConfig({kind}, None, None, None, false, false, false, true)
  }

  /**
    On a deprecated capability a plan passes validation and preflight whatever its inputs are;
    whatever the executor then does, its execution ends with a result exactly when the inputs
    can be copied and reported.
   */
  lemma UncheckedInputs(inputs: Value, d: Descriptor, request: SnapshotRequest, digestOf: DigestOf, operators: set<string>, execute: Executor)
    requires d.stepKind != "" && d.stepKind != RUN_COMMAND
    requires d.isDeprecated && !d.isPlaceholder && !request.allowDeprecated
    ensures var step := StepWith(d.stepKind, inputs);
      && Passes(PlanDocument([step], ""), Some(BuildSnapshot([d], request, digestOf)), LaxValidator(d.stepKind))
      && Preflight.Preflight([step], {d.stepKind}, operators) == Checked([])
      && (FinishesFor([step], {d.stepKind}, execute) <==> Reportable(inputs))
      && (EngineResult([step], {d.stepKind}, execute) == RaisedBadInputs("a") <==> !MakesDict(inputs))
      && (EngineResult([step], {d.stepKind}, execute) == RaisedUnsortable <==> MakesDict(inputs) && !Reportable(inputs))
  {
    var step, cfg := StepWith(d.stepKind, inputs), LaxValidator(d.stepKind);
    var plan, s := PlanDocument([step], ""), BuildSnapshot([d], request, digestOf);
    DeprecatedPassesUnchecked(step, d, request, digestOf, cfg);
    assert StepOk(step, Ids([step]), Some(s), cfg);
    ValidationIsExact(plan, Some(s), cfg);
    PreflightIsExact([step], {d.stepKind}, operators);
    RunOfOne(d.stepKind, inputs, execute);
  }

  lemma RunOfOne(kind: string, inputs: Value, execute: Executor)
    ensures FinishesFor([StepWith(kind, inputs)], {kind}, execute) <==> Reportable(inputs)
    ensures EngineResult([StepWith(kind, inputs)], {kind}, execute) == RaisedBadInputs("a") <==> !MakesDict(inputs)
    ensures EngineResult([StepWith(kind, inputs)], {kind}, execute) == RaisedUnsortable <==> MakesDict(inputs) && !Reportable(inputs)
  {
    var step, registry := StepWith(kind, inputs), Executors({kind}, execute);
    assert [step][..0] == [] && RunSteps([], map[], registry) == RunState([], map[], map[], None, Going);
    assert RunSteps([step], map[], registry) == Advance(RunSteps([], map[], registry), step, registry);
    FinishedExactly([step], map[], registry);
  }

  /** A list of plain values cannot be copied: such a plan passes, and its execution raises. */
  lemma ListInputsRaise(d: Descriptor, request: SnapshotRequest, digestOf: DigestOf, operators: set<string>, execute: Executor)
    requires d.stepKind != "" && d.stepKind != RUN_COMMAND
    requires d.isDeprecated && !d.isPlaceholder && !request.allowDeprecated
    ensures var step := StepWith(d.stepKind, LIST_INPUTS);
      && Passes(PlanDocument([step], ""), Some(BuildSnapshot([d], request, digestOf)), LaxValidator(d.stepKind))
      && Preflight.Preflight([step], {d.stepKind}, operators) == Checked([])
      && EngineResult([step], {d.stepKind}, execute) == RaisedBadInputs("a")
  {
    UncheckedInputs(LIST_INPUTS, d, request, digestOf, operators, execute);
    assert !IsPair(LIST_INPUTS.items[0]);
  }

  /** A list of pairs can be copied, but keys of two kinds cannot be sorted: the run raises at its very end. */
  lemma MixedKeysRaise(d: Descriptor, request: SnapshotRequest, digestOf: DigestOf, operators: set<string>, execute: Executor)
    requires d.stepKind != "" && d.stepKind != RUN_COMMAND
    requires d.isDeprecated && !d.isPlaceholder && !request.allowDeprecated
    ensures var step := StepWith(d.stepKind, MIXED_KEYS);
      && Passes(PlanDocument([step], ""), Some(BuildSnapshot([d], request, digestOf)), LaxValidator(d.stepKind))
      && Preflight.Preflight([step], {d.stepKind}, operators) == Checked([])
      && MakesDict(MIXED_KEYS) && EngineResult([step], {d.stepKind}, execute) == RaisedUnsortable
  {
    UncheckedInputs(MIXED_KEYS, d, request, digestOf, operators, execute);
    MixedKeysAreUnsortable();
  }

  lemma MixedKeysAreUnsortable()
    ensures MakesDict(MIXED_KEYS) && !Reportable(MIXED_KEYS)
  {
    var keys := CopiedKeys(MIXED_KEYS);
    assert KindOfKey(keys[1]) != KindOfKey(keys[0]);
  }

  // ----- what makes the loop crash -----

  /**
    Visit `n` raises: something called outside does, or the preflight on inputs that cannot be
    asked for an action or name one that cannot be looked up, or the engine on inputs that
    cannot be copied into a dictionary or reported, or the validator on inputs that the schema
    of their capability keeps it checking for ever.
   */
  ghost predicate RaisesAt(p: Parts, s0: LoopState, oracle: Oracle, n: nat) {
    var node := At(Assembled(p), s0, oracle, n).node;
    || (oracle(n).raises && (node == Planning || node == TaskCheck || (node == InteractionDecision && p.hasDecider)
          || (node == EnvInit && CommandController in p.bound) || (node == CapabilityResolve && p.hasRequestFactory)))
    || (node == Preflighting && n >= 7 && SomeRaise(oracle(n - 3).draft))
    || (node == Validating && n >= 6 && ValidatorRaisesAt(p, oracle, n))
    || (node == Executing && n >= 8 && (ExecutionAt(p, oracle, n).RaisedBadInputs? || ExecutionAt(p, oracle, n).RaisedUnsortable?))
  }

  /** The validator raises on the plan and the snapshot of the round. */
  predicate ValidatorRaisesAt(p: Parts, oracle: Oracle, n: nat)
    requires n >= 6
  {
    ValidationRaises(oracle(n - 2).draft, Some(RoundSnapshot(Assembled(p), oracle, n - 4)), p.validator)
  }

  lemma RaisingNode(node: Node, s: LoopState, a: Answer, rt: Runtime)
    ensures Effect(node, s, a, rt).None? <==>
      || (a.raises && (node == Planning || node == TaskCheck || (node == InteractionDecision && rt.hasDecider)
            || (node == EnvInit && CommandController in rt.bound) || (node == CapabilityResolve && rt.hasRequestFactory)))
      || (node == Finalize && s.draftPlan.None?)
      || (node == Validating && (s.plan.None? || rt.validate(s.plan.value, GivenSnapshot(s, rt)).None?))
      || (node == Preflighting && (s.plan.None? || Preflight.Preflight(s.plan.value.steps, rt.executable, rt.operators).Raised?))
      || (node == Executing && (s.plan.None? || !rt.run(s.plan.value.steps, a.execute).Finished?))
  {
  }

  lemma JudgedOrRaised(p: Parts, oracle: Oracle, n: nat)
    requires n >= 6
    ensures Assembled(p).validate(RoundPlan(Assembled(p), oracle, n - 4), Some(RoundSnapshot(Assembled(p), oracle, n - 4))).None? <==>
      ValidatorRaisesAt(p, oracle, n)
  {
  }

  /** Which visits of the assembled loop raise. */
  lemma VisitRaises(p: Parts, s0: LoopState, oracle: Oracle, n: nat)
    requires At(Assembled(p), s0, oracle, n).node != Crashed
    ensures At(Assembled(p), s0, oracle, n + 1).node == Crashed <==> RaisesAt(p, s0, oracle, n)
  {
    var c := At(Assembled(p), s0, oracle, n);
    if c.node == Executing {
      ExecutionNeverRaises(p, s0, oracle, n);
    } else {
      CrashedNext(c, oracle(n), p);
      RaisingNode(c.node, c.state, oracle(n), Assembled(p));
      if c.node == Finalize {
        DraftAtFinalize(Assembled(p), s0, oracle, n);
      } else if c.node == Preflighting {
        PlanAtPreflight(Assembled(p), s0, oracle, n);
        RaisesExactly(oracle(n - 3).draft, p.executable, p.operators);
      } else if c.node == Validating {
        PlanAtValidation(Assembled(p), s0, oracle, n);
        JudgedOrRaised(p, oracle, n);
      }
    }
  }

  lemma CrashedNext(c: Config<LoopState>, a: Answer, p: Parts)
    requires c.node != Crashed
    ensures Visit(c, a, LoopGraph(Assembled(p))).node == Crashed <==> Effect(c.node, c.state, a, Assembled(p)).None?
  {
  }

  /** A crashed loop has crashed by one visit that raises. */
  lemma CrashCause(p: Parts, s0: LoopState, oracle: Oracle, n: nat) returns (m: nat)
    requires At(Assembled(p), s0, oracle, n).node == Crashed
    ensures m < n && At(Assembled(p), s0, oracle, m).node != Crashed && RaisesAt(p, s0, oracle, m)
  {
    m := CrashBegan(s0, oracle, LoopGraph(Assembled(p)), n);
    assert At(Assembled(p), s0, oracle, m + 1) == Visit(At(Assembled(p), s0, oracle, m), oracle(m), LoopGraph(Assembled(p)));
    VisitRaises(p, s0, oracle, m);
  }

  /**
    The loop crashes whenever it validates a plan with a step, whatever its inputs are, of an
    eligible capability whose input schema refers to a definition that reaches itself through
    `anyOf`.
   */
  lemma CyclicSchemaCrashes(p: Parts, s0: LoopState, oracle: Oracle, n: nat, i: nat, k: nat, cycle: seq<string>)
    requires Distinct(p.capabilities) && p.snapshotOverride.None?
    requires At(Assembled(p), s0, oracle, n).node == Validating && n >= 6
    requires i < |oracle(n - 2).draft| && k < |p.capabilities| && p.capabilities[k].stepKind == oracle(n - 2).draft[i].kind
    requires Eligible(p.capabilities[k], RoundRequest(Assembled(p), oracle, n - 4))
    requires Cycle(p.capabilities[k].inputDefs, cycle) && p.capabilities[k].inputSchema == RefTo(cycle[0])
    ensures At(Assembled(p), s0, oracle, n + 1).node == Crashed
  {
    var steps, d := oracle(n - 2).draft, p.capabilities[k];
    var request := RoundRequest(Assembled(p), oracle, n - 4);
    CycleNeverEnds(steps[i].inputs, d.inputDefs, cycle);
    assert !EndsBy(steps[i].inputs, RefTo(cycle[0]), d.inputDefs, RECURSION_LIMIT);
    assert StepUncheckable(steps, i, p.capabilities, k, request);
    ValidationRaisesExactly(steps, p.capabilities, request, p.digestOf, p.validator);
    VisitRaises(p, s0, oracle, n);
  }
}
