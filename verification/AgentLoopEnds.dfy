/**
  Why a run of the loop ended as it did: each final status has its cause in what the decider,
  the validator, the preflight or the checker said, and the decider's words stay as they were.
 */
module AgentLoopEnds {
  import opened Wrappers
  import opened Preflight
  import opened AgentGraph
  import opened AgentLoop
  import opened AgentLoopSafety

  // ----- what was decided -----

  /** What the user said: the raw input, or else the goal. */
  function UserInput(s0: LoopState): string {
    if s0.rawUserInput != "" then s0.rawUserInput else s0.userGoal
  }

  /** The decision the loop goes by: the decider's, or to plan for what the user said. */
  function DecisionOf(rt: Runtime, s0: LoopState, oracle: Oracle): Decision {
    if rt.hasDecider then oracle(0).decision else Decision("PLAN", "", UserInput(s0))
  }

  /** The state holds the decision, and the goal is the one to plan for. */
  ghost predicate HoldsDecision(s: LoopState, s0: LoopState, d: Decision) {
    && s.rawUserInput == UserInput(s0) && s.mode == d.mode && s.content == d.content
    && s.userGoal == if d.mode == "PLAN" then d.normalizedGoal else s0.userGoal
  }

  /** The loop goes by the decision, or has crashed. */
  ghost predicate GoesBy(c: Config<LoopState>, s0: LoopState, d: Decision) {
    c.node.Crashed? || (!c.node.InteractionDecision? && HoldsDecision(c.state, s0, d))
  }

  lemma EffectKeepsDecision(node: Node, s: LoopState, a: Answer, after: LoopState, rt: Runtime)
    requires Effect(node, s, a, rt) == Some(after) && !node.InteractionDecision?
    ensures after.rawUserInput == s.rawUserInput && after.mode == s.mode && after.content == s.content && after.userGoal == s.userGoal
  {
  }

  lemma NotDecidedAgain(node: Node, s: LoopState, rt: Runtime)
    ensures !Successor(node, s, LoopGraph(rt).routes).InteractionDecision?
  {
  }

  lemma VisitKeepsDecision(c: Config<LoopState>, a: Answer, s0: LoopState, d: Decision, rt: Runtime)
    requires GoesBy(c, s0, d)
    ensures GoesBy(Visit(c, a, LoopGraph(rt)), s0, d)
  {
    var after := Effect(c.node, c.state, a, rt);
    if after.Some? {
      NotDecidedAgain(c.node, after.value, rt);
      if !c.node.Crashed? {
        EffectKeepsDecision(c.node, c.state, a, after.value, rt);
      }
    }
  }

  lemma FirstDecides(s0: LoopState, a: Answer, rt: Runtime)
    ensures GoesBy(Visit(Config(InteractionDecision, s0), a, LoopGraph(rt)), s0,
      if rt.hasDecider then a.decision else Decision("PLAN", "", UserInput(s0)))
  {
    var after := Effect(InteractionDecision, s0, a, rt);
    if after.Some? {
      NotDecidedAgain(InteractionDecision, after.value, rt);
    }
  }

  /** From the first visit on, the decision and the goal never change. */
  lemma {:induction false} DecisionStays(rt: Runtime, s0: LoopState, oracle: Oracle, n: nat)
    requires n >= 1
    ensures GoesBy(At(rt, s0, oracle, n), s0, DecisionOf(rt, s0, oracle))
  {
    if n > 1 {
      DecisionStays(rt, s0, oracle, n - 1);
      VisitKeepsDecision(At(rt, s0, oracle, n - 1), oracle(n - 1), s0, DecisionOf(rt, s0, oracle), rt);
    } else {
      assert At(rt, s0, oracle, 0) == Config(InteractionDecision, s0);
      FirstDecides(s0, oracle(0), rt);
    }
  }

  /** Where the round was sent back from: the iteration before, once a round was sent back at all. */
  ghost predicate SentBackFrom(s: LoopState, s0: LoopState) {
    && s.iteration >= s0.iteration
    && s.replanFrom == if s.iteration == s0.iteration then s0.replanFrom else Some(s.iteration - 1)
  }

  lemma EffectKeepsRequest(node: Node, s: LoopState, a: Answer, after: LoopState, s0: LoopState, rt: Runtime)
    requires Effect(node, s, a, rt) == Some(after) && SentBackFrom(s, s0)
    ensures SentBackFrom(after, s0)
  {
  }

  lemma VisitKeepsRequest(c: Config<LoopState>, a: Answer, s0: LoopState, rt: Runtime)
    requires SentBackFrom(c.state, s0)
    ensures SentBackFrom(Visit(c, a, LoopGraph(rt)).state, s0)
  {
    var after := Effect(c.node, c.state, a, rt);
    if after.Some? {
      EffectKeepsRequest(c.node, c.state, a, after.value, s0, rt);
    }
  }

  /** The request to replan that later rounds carry names the iteration before their own. */
  lemma {:induction false} ReplansTheRoundBefore(rt: Runtime, s0: LoopState, oracle: Oracle, n: nat)
    ensures SentBackFrom(At(rt, s0, oracle, n).state, s0)
  {
    if n > 0 {
      ReplansTheRoundBefore(rt, s0, oracle, n - 1);
      VisitKeepsRequest(At(rt, s0, oracle, n - 1), oracle(n - 1), s0, rt);
    }
  }

  /** Nodes that come before the environment is set up, or leave a status of their own. */
  predicate Underway(node: Node) {
    !node.InteractionDecision? && !node.EnvInit? && !Terminal(node) && !node.End? && !node.Crashed?
  }

  ghost predicate SetUp(c: Config<LoopState>, rt: Runtime) {
    Underway(c.node) ==> c.state.loopStatus == "env_initialized" && c.state.contextKeys == ContextKeys(BINDINGS, rt.bound)
  }

  lemma VisitKeepsSetUp(c: Config<LoopState>, a: Answer, rt: Runtime)
    requires SetUp(c, rt)
    ensures SetUp(Visit(c, a, LoopGraph(rt)), rt)
  {
  }

  /** Between the environment and the end the status says that it is set up, and the keys are those of the managers. */
  lemma {:induction false} SetUpWhileUnderway(rt: Runtime, s0: LoopState, oracle: Oracle, n: nat)
    ensures SetUp(At(rt, s0, oracle, n), rt)
  {
    if n > 0 {
      SetUpWhileUnderway(rt, s0, oracle, n - 1);
      VisitKeepsSetUp(At(rt, s0, oracle, n - 1), oracle(n - 1), rt);
    }
  }

  // ----- why it ended -----

  /** What sent the graph to a terminal node: the node in front of it and what that had found. */
  predicate SentTo(terminal: Node, node: Node, after: LoopState) {
    match terminal
    case DirectReturn => node.InteractionDecision? && after.mode == "RETURN"
    case RefuseReturn => node.InteractionDecision? && after.mode == "REFUSE"
    case HumanInterrupt =>
      || (node.InteractionDecision? && after.mode == "HUMAN")
      || (node.TaskCheck? && after.route == "human_interrupt")
    case Fail =>
      || (node.InteractionDecision? && after.mode !in {"PLAN", "RETURN", "REFUSE", "HUMAN"})
      || (node.Validating? && after.validation.Some? && !after.validation.value.passed)
      || (node.Preflighting? && after.preflight != Some(Checked([])))
      || (node.TaskCheck? && after.route !in {"end", "replan", "human_interrupt"})
    case Report => node.TaskCheck? && after.route == "end"
    case _ => false
  }

  lemma TerminalIsSentTo(node: Node, s: LoopState, a: Answer, after: LoopState, rt: Runtime)
    requires Effect(node, s, a, rt) == Some(after)
    requires Terminal(Successor(node, after, LoopGraph(rt).routes))
    ensures SentTo(Successor(node, after, LoopGraph(rt).routes), node, after)
  {
  }

  /** The final status of a run that visit `m - 1` sent to its end, and what that visit was told. */
  ghost predicate Cause(rt: Runtime, s0: LoopState, oracle: Oracle, m: nat, status: string)
    requires m >= 1
  {
    var node, d := At(rt, s0, oracle, m - 1).node, DecisionOf(rt, s0, oracle);
    var checked := node.TaskCheck?;
    || (status == "returned" && m == 1 && d.mode == "RETURN")
    || (status == "refused" && m == 1 && d.mode == "REFUSE")
    || (status == "need_human" && ((m == 1 && d.mode == "HUMAN") || (checked && oracle(m - 1).route == "human_interrupt")))
    || (status == "succeeded" && checked && oracle(m - 1).route == "end")
    || (status == "failed" &&
          ((m == 1 && d.mode !in {"PLAN", "RETURN", "REFUSE", "HUMAN"})
           || (node.Validating? && m >= 7 && !RoundPasses(rt, oracle, m - 5))
           || (node.Preflighting? && m >= 8 && !RoundRuns(rt, oracle, m - 6))
           || (checked && oracle(m - 1).route !in {"end", "replan", "human_interrupt"})))
  }

  function StatusOf(terminal: Node): string {
    match terminal
    case DirectReturn => "returned"
    case RefuseReturn => "refused"
    case HumanInterrupt => "need_human"
    case Report => "succeeded"
    case _ => "failed"
  }

  /** What a terminal node leaves; those that answer the user do so in the decider's words. */
  lemma TerminalLeaves(terminal: Node, s: LoopState, a: Answer, after: LoopState, rt: Runtime)
    requires Terminal(terminal) && Effect(terminal, s, a, rt) == Some(after)
    ensures after.loopStatus == StatusOf(terminal)
    ensures after.responseContent ==
      if terminal.DirectReturn? || terminal.RefuseReturn? || terminal.HumanInterrupt? then s.content else s.responseContent
  {
  }

  /** A terminal node is visited for a cause. */
  lemma TerminalHasCause(rt: Runtime, s0: LoopState, oracle: Oracle, m: nat)
    requires Terminal(At(rt, s0, oracle, m).node)
    ensures m >= 1 && Cause(rt, s0, oracle, m, StatusOf(At(rt, s0, oracle, m).node))
  {
    assert m >= 1;
    EnteredTerminal(rt, s0, oracle, m);
    match At(rt, s0, oracle, m - 1).node {
      case InteractionDecision => DecidedFirst(rt, s0, oracle, m);
      case Validating => CauseValidated(rt, s0, oracle, m);
      case Preflighting => CausePreflighted(rt, s0, oracle, m);
      case TaskCheck => CauseChecked(rt, s0, oracle, m);
      case _ =>
    }
  }

  /** How the terminal node at visit `m` was reached. */
  lemma EnteredTerminal(rt: Runtime, s0: LoopState, oracle: Oracle, m: nat)
    requires m >= 1 && Terminal(At(rt, s0, oracle, m).node)
    ensures var before, c := At(rt, s0, oracle, m - 1), At(rt, s0, oracle, m);
      SentTo(c.node, before.node, c.state) && Effect(before.node, before.state, oracle(m - 1), rt) == Some(c.state)
  {
    var before, c := At(rt, s0, oracle, m - 1), At(rt, s0, oracle, m);
    VisitMade(s0, oracle, LoopGraph(rt), m - 1);
    TerminalIsSentTo(before.node, before.state, oracle(m - 1), c.state, rt);
  }

  lemma CauseValidated(rt: Runtime, s0: LoopState, oracle: Oracle, m: nat)
    requires m >= 1 && At(rt, s0, oracle, m - 1).node.Validating?
    requires var before, c := At(rt, s0, oracle, m - 1), At(rt, s0, oracle, m);
      SentTo(c.node, before.node, c.state) && Effect(before.node, before.state, oracle(m - 1), rt) == Some(c.state)
    ensures Cause(rt, s0, oracle, m, StatusOf(At(rt, s0, oracle, m).node))
  {
    PlanAtValidation(rt, s0, oracle, m - 1);
    ValidationFound(At(rt, s0, oracle, m - 1).state, oracle(m - 1), At(rt, s0, oracle, m).state, rt, oracle, m - 5);
  }

  lemma CausePreflighted(rt: Runtime, s0: LoopState, oracle: Oracle, m: nat)
    requires m >= 1 && At(rt, s0, oracle, m - 1).node.Preflighting?
    requires var before, c := At(rt, s0, oracle, m - 1), At(rt, s0, oracle, m);
      SentTo(c.node, before.node, c.state) && Effect(before.node, before.state, oracle(m - 1), rt) == Some(c.state)
    ensures Cause(rt, s0, oracle, m, StatusOf(At(rt, s0, oracle, m).node))
  {
    PlanAtPreflight(rt, s0, oracle, m - 1);
    PreflightFound(At(rt, s0, oracle, m - 1).state, oracle(m - 1), At(rt, s0, oracle, m).state, rt, oracle, m - 6);
  }

  lemma CauseChecked(rt: Runtime, s0: LoopState, oracle: Oracle, m: nat)
    requires m >= 1 && At(rt, s0, oracle, m - 1).node.TaskCheck?
    requires var before, c := At(rt, s0, oracle, m - 1), At(rt, s0, oracle, m);
      SentTo(c.node, before.node, c.state) && Effect(before.node, before.state, oracle(m - 1), rt) == Some(c.state)
    ensures Cause(rt, s0, oracle, m, StatusOf(At(rt, s0, oracle, m).node))
  {
    CheckFound(At(rt, s0, oracle, m - 1).state, oracle(m - 1), At(rt, s0, oracle, m).state, rt);
  }

  lemma DecidedFirst(rt: Runtime, s0: LoopState, oracle: Oracle, m: nat)
    requires m >= 1 && At(rt, s0, oracle, m - 1).node.InteractionDecision? && !At(rt, s0, oracle, m).node.Crashed?
    ensures m == 1 && At(rt, s0, oracle, 1).state.mode == DecisionOf(rt, s0, oracle).mode
  {
    if m > 1 {
      DecisionStays(rt, s0, oracle, m - 1);
    }
    DecisionStays(rt, s0, oracle, 1);
  }

  lemma ValidationFound(s: LoopState, a: Answer, after: LoopState, rt: Runtime, oracle: Oracle, start: nat)
    requires Effect(Validating, s, a, rt) == Some(after)
    requires s.plan == Some(RoundPlan(rt, oracle, start)) && GivenSnapshot(s, rt) == Some(RoundSnapshot(rt, oracle, start))
    ensures after.validation.Some? && (after.validation.value.passed <==> RoundPasses(rt, oracle, start))
  {
  }

  lemma PreflightFound(s: LoopState, a: Answer, after: LoopState, rt: Runtime, oracle: Oracle, start: nat)
    requires Effect(Preflighting, s, a, rt) == Some(after) && s.plan == Some(RoundPlan(rt, oracle, start))
    ensures after.preflight == Some(Checked([])) <==> RoundRuns(rt, oracle, start)
  {
  }

  lemma CheckFound(s: LoopState, a: Answer, after: LoopState, rt: Runtime)
    requires Effect(TaskCheck, s, a, rt) == Some(after)
    ensures after.route == a.route
  {
  }

  /** Every ended run ended for a cause that its status tells, and answers the user in the decider's words. */
  lemma EndTellsWhy(rt: Runtime, s0: LoopState, oracle: Oracle, n: nat) returns (m: nat)
    requires At(rt, s0, oracle, n).node == End
    ensures 1 <= m < n && Terminal(At(rt, s0, oracle, m).node)
    ensures Cause(rt, s0, oracle, m, At(rt, s0, oracle, n).state.loopStatus)
    ensures At(rt, s0, oracle, n).state.loopStatus in {"returned", "refused", "need_human"} ==>
      At(rt, s0, oracle, n).state.responseContent == DecisionOf(rt, s0, oracle).content
  {
    m := EndedBy(rt, s0, oracle, n);
    var c := At(rt, s0, oracle, m);
    TerminalLeaves(c.node, c.state, oracle(m), At(rt, s0, oracle, n).state, rt);
    TerminalHasCause(rt, s0, oracle, m);
    DecisionStays(rt, s0, oracle, m);
  }
}
