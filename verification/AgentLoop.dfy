/** The nodes of the agent loop: what each does to the state, and where the state sends the graph. */
module AgentLoop {
  import opened Wrappers
  import opened Plan
  import opened Capability
  import opened PlanValidation
  import opened ExecutionEngine
  import opened Preflight
  import opened AgentGraph
  import opened RunIds

  /** The fields of the state dictionary that the nodes read or write; an absent key is None or "". */
  datatype LoopState = LoopState(
    rawUserInput: string,
    userGoal: string,
    mode: string,
    content: string,
    loopStatus: string,
    responseContent: string,
    iteration: int,
    contextKeys: seq<string>,
    snapshot: Option<Snapshot>,
    draftPlan: Option<seq<PlanStep>>,
    plan: Option<PlanDocument>,
    validation: Option<ValidationResult>,
    preflight: Option<PreflightResult>,
    runId: string,
    execution: Option<RunResult>,
    route: string,
    replanFrom: Option<int>)

  datatype Decision = Decision(mode: string, content: string, normalizedGoal: string)

  /**
    Everything a node may be told from outside during one visit: by the decider, the session
    that is opened, the factory of the request, the planner, the executors, the checker.
    `raises` tells that what the node calls outside raises instead of answering.
   */
  datatype Answer = Answer(
    raises: bool,
    decision: Decision,
    request: Option<SnapshotRequest>,
    draft: seq<PlanStep>,
    execute: Executor,
    route: string)

  /**
    The components a loop is run with. `run` interprets steps with the executors behaving
    as its second argument says; `executable` are the kinds it has executors for.
   */
  datatype Runtime = Runtime(
    hasDecider: bool,
    hasRequestFactory: bool,
    bound: set<Binding>,
    buildSnapshot: SnapshotRequest -> Snapshot,
    snapshotOverride: Option<Snapshot>,
    validate: (PlanDocument, Option<Snapshot>) -> Option<ValidationResult>,
    run: (seq<PlanStep>, Executor) -> RunResult,
    executable: set<string>,
    operators: set<string>)

  /** The managers and controllers a runtime may be bound to. */
  datatype Binding = ArtifactManager | RuntimeManager | DockerDriver | CommandController | PackageInspector | EnvInspector

  const BINDINGS: seq<Binding> :=
    [ArtifactManager, RuntimeManager, DockerDriver, CommandController, PackageInspector, EnvInspector]

  function ContextKey(b: Binding): string {
    match b
    case ArtifactManager => "artifact_manager"
    case RuntimeManager => "runtime_manager"
    case DockerDriver => "docker_driver"
    case CommandController => "command_controller"
    case PackageInspector => "package_inspector"
    case EnvInspector => "env_inspector"
  }

  function ContextKeys(bindings: seq<Binding>, bound: set<Binding>): seq<string> {
    if bindings == [] then []
    else
      var last := bindings[|bindings| - 1];
      ContextKeys(bindings[..|bindings| - 1], bound) + (if last in bound then [ContextKey(last)] else [])
  }

  /** The context keys are those of the bound managers, each once, in the order of the list. */
  method BuildAvailableContextKeys(bound: set<Binding>) returns (keys: seq<string>)
    ensures keys == ContextKeys(BINDINGS, bound)
  {
    keys := [];
    for i := 0 to |BINDINGS|
      invariant keys == ContextKeys(BINDINGS[..i], bound)
    {
      assert BINDINGS[..i + 1][..i] == BINDINGS[..i];
      if BINDINGS[i] in bound {
        keys := keys + [ContextKey(BINDINGS[i])];
      }
    }
    assert BINDINGS[..|BINDINGS|] == BINDINGS;
  }

  function KeyOf(bound: set<Binding>, b: Binding, key: string): seq<string> {
    if b in bound then [key] else []
  }

  /** The keys a planner may rely on, by name. */
  lemma ContextKeysAre(bound: set<Binding>)
    ensures ContextKeys(BINDINGS, bound) ==
      KeyOf(bound, ArtifactManager, "artifact_manager") + KeyOf(bound, RuntimeManager, "runtime_manager") +
      KeyOf(bound, DockerDriver, "docker_driver") + KeyOf(bound, CommandController, "command_controller") +
      KeyOf(bound, PackageInspector, "package_inspector") + KeyOf(bound, EnvInspector, "env_inspector")
  {
    FirstKeys(bound);
    var three := BINDINGS[..3];
    var keys := ContextKeys(three, bound);
    var four := three + [CommandController];
    LastKey(three, CommandController, bound);
    assert ContextKeys(four, bound) == keys + KeyOf(bound, CommandController, "command_controller");
    var five := four + [PackageInspector];
    LastKey(four, PackageInspector, bound);
    assert ContextKeys(five, bound) ==
      keys + KeyOf(bound, CommandController, "command_controller") + KeyOf(bound, PackageInspector, "package_inspector");
    LastKey(five, EnvInspector, bound);
    assert five + [EnvInspector] == BINDINGS;
  }

  lemma FirstKeys(bound: set<Binding>)
    ensures ContextKeys(BINDINGS[..3], bound) ==
      KeyOf(bound, ArtifactManager, "artifact_manager") + KeyOf(bound, RuntimeManager, "runtime_manager") +
      KeyOf(bound, DockerDriver, "docker_driver")
  {
    var one, two := [ArtifactManager], [ArtifactManager, RuntimeManager];
    LastKey([], ArtifactManager, bound);
    assert [] + [ArtifactManager] == one;
    assert ContextKeys(one, bound) == KeyOf(bound, ArtifactManager, "artifact_manager");
    LastKey(one, RuntimeManager, bound);
    assert one + [RuntimeManager] == two;
    LastKey(two, DockerDriver, bound);
    assert two + [DockerDriver] == BINDINGS[..3];
  }

  lemma LastKey(front: seq<Binding>, last: Binding, bound: set<Binding>)
    ensures ContextKeys(front + [last], bound) == ContextKeys(front, bound) + KeyOf(bound, last, ContextKey(last))
  {
    assert (front + [last])[..|front|] == front;
  }

  // ----- what each node does to the state -----

  /** The snapshot the finalizer and the validator are given. */
  function GivenSnapshot(s: LoopState, rt: Runtime): Option<Snapshot> {
    if rt.snapshotOverride.Some? then rt.snapshotOverride else s.snapshot
  }

  /** A factory may answer with nothing; then, and without one, the request is made from the context keys. */
  function RequestFor(s: LoopState, a: Answer, rt: Runtime): SnapshotRequest {
    if rt.hasRequestFactory && a.request.Some? then a.request.value else SnapshotRequest(s.contextKeys, [], HighRisk, false, false, map[])
  }

  /** The finalizer copies the steps and stamps the plan with the digest of its snapshot. */
  function FinalPlan(draft: seq<PlanStep>, snapshot: Option<Snapshot>): PlanDocument {
    PlanDocument(draft, if snapshot.Some? then snapshot.value.digest else "")
  }

  function Decided(s: LoopState, a: Answer, rt: Runtime): LoopState {
    var raw := if s.rawUserInput != "" then s.rawUserInput else s.userGoal;
    var d := if rt.hasDecider then a.decision else Decision("PLAN", "", raw);
    s.(rawUserInput := raw, mode := d.mode, content := d.content,
       userGoal := if d.mode == "PLAN" then d.normalizedGoal else s.userGoal)
  }

  /** The nodes that call a component from outside, which may raise; executors are called by the engine, which catches what they raise. */
  predicate CallsOut(node: Node, rt: Runtime) {
    match node
    case InteractionDecision => rt.hasDecider
    case EnvInit => CommandController in rt.bound
    case CapabilityResolve => rt.hasRequestFactory
    case Planning => true
    case TaskCheck => true
    case _ => false
  }

  /** The state after a visit, or None when the node raises. */
  function Effect(node: Node, s: LoopState, a: Answer, rt: Runtime): Option<LoopState> {
    if CallsOut(node, rt) && a.raises then None else OwnEffect(node, s, a, rt)
  }

  /** The same when nothing that is called outside raises. */
  function OwnEffect(node: Node, s: LoopState, a: Answer, rt: Runtime): Option<LoopState> {
    match node
    case InteractionDecision => Some(Decided(s, a, rt))
    case EnvInit => Some(s.(loopStatus := "env_initialized", contextKeys := ContextKeys(BINDINGS, rt.bound)))
    case CapabilityResolve => Some(s.(snapshot := Some(rt.buildSnapshot(RequestFor(s, a, rt)))))
    case SkillSelect => Some(s)
    case Planning => Some(s.(draftPlan := Some(a.draft)))
    case Finalize =>
      if s.draftPlan.None? then None
      else Some(s.(plan := Some(FinalPlan(s.draftPlan.value, GivenSnapshot(s, rt)))))
    case Validating =>
      if s.plan.None? then None
      else
        var result := rt.validate(s.plan.value, GivenSnapshot(s, rt));
        if result.None? then None else Some(s.(validation := result))
    case Preflighting =>
      if s.plan.None? then None
      else
        var result := Preflight.Preflight(s.plan.value.steps, rt.executable, rt.operators);
        if result.Raised? then None else Some(s.(preflight := Some(result)))
    case Executing =>
      if s.plan.None? then None
      else
        var result := rt.run(s.plan.value.steps, a.execute);
        if !result.Finished? then None else Some(s.(runId := RunId(s.iteration), execution := Some(result)))
    case TaskCheck => Some(s.(route := a.route))
    case ReplanContext => Some(s.(iteration := s.iteration + 1, replanFrom := Some(s.iteration)))
    case Report => Some(s.(loopStatus := "succeeded"))
    case DirectReturn => Some(s.(loopStatus := "returned", responseContent := s.content))
    case RefuseReturn => Some(s.(loopStatus := "refused", responseContent := s.content))
    case Fail => Some(s.(loopStatus := "failed"))
    case HumanInterrupt => Some(s.(loopStatus := "need_human", responseContent := s.content))
    case End | Crashed => Some(s)
  }

  // ----- where the state sends the graph -----

  function RouteAfterDecision(s: LoopState): DecisionTarget {
    if s.mode == "PLAN" then EnvInit
    else if s.mode == "RETURN" then DirectReturn
    else if s.mode == "REFUSE" then RefuseReturn
    else if s.mode == "HUMAN" then HumanInterrupt
    else Fail
  }

  function RouteAfterValidate(s: LoopState): ValidateTarget {
    if s.validation.Some? && s.validation.value.passed then Preflighting else Fail
  }

  function RouteAfterPreflight(s: LoopState): PreflightTarget {
    if s.preflight == Some(Checked([])) then Executing else Fail
  }

  function RouteAfterTaskCheck(s: LoopState): CheckTarget {
    if s.route == "end" then Report
    else if s.route == "replan" then ReplanContext
    else if s.route == "human_interrupt" then HumanInterrupt
    else Fail
  }

  function LoopGraph(rt: Runtime): Graph<LoopState, Answer> {
    Graph((node, s, a) => Effect(node, s, a, rt),
      Routes(RouteAfterDecision, RouteAfterValidate, RouteAfterPreflight, RouteAfterTaskCheck))
  }
}
