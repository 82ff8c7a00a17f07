/** What every run of the looping graph keeps, whatever its oracles answer. */
module AgentLoopSafety {
  import opened Wrappers
  import opened Plan
  import opened Capability
  import opened PlanValidation
  import opened ExecutionEngine
  import opened Preflight
  import opened AgentGraph
  import opened RunIds
  import opened AgentLoop

  type Oracle = nat -> Answer

  // ----- what a round has established after each of its visits -----

  /** The request for which a round that began at visit `start` resolved the capabilities. */
  function RoundRequest(rt: Runtime, oracle: Oracle, start: nat): SnapshotRequest {
    if rt.hasRequestFactory && oracle(start).request.Some? then oracle(start).request.value
    else SnapshotRequest(ContextKeys(BINDINGS, rt.bound), [], HighRisk, false, false, map[])
  }

  function RoundSnapshot(rt: Runtime, oracle: Oracle, start: nat): Snapshot {
    if rt.snapshotOverride.Some? then rt.snapshotOverride.value
    else rt.buildSnapshot(RoundRequest(rt, oracle, start))
  }

  /** The plan of a round: the draft its planner answered, stamped with the digest of its snapshot. */
  function RoundPlan(rt: Runtime, oracle: Oracle, start: nat): PlanDocument {
    PlanDocument(oracle(start + 2).draft, RoundSnapshot(rt, oracle, start).digest)
  }

  function RoundResult(rt: Runtime, oracle: Oracle, start: nat): RunResult {
    rt.run(oracle(start + 2).draft, oracle(start + 6).execute)
  }

  predicate RoundPasses(rt: Runtime, oracle: Oracle, start: nat) {
    var r := rt.validate(RoundPlan(rt, oracle, start), Some(RoundSnapshot(rt, oracle, start)));
    r.Some? && r.value.passed
  }

  predicate RoundRuns(rt: Runtime, oracle: Oracle, start: nat) {
    Preflight.Preflight(oracle(start + 2).draft, rt.executable, rt.operators) == Checked([])
  }

  /** The state before visit `start + off` of a round. */
  ghost predicate InRound(rt: Runtime, oracle: Oracle, start: nat, off: nat, s: LoopState) {
    && s.contextKeys == ContextKeys(BINDINGS, rt.bound)
    && (off >= 1 ==> GivenSnapshot(s, rt) == Some(RoundSnapshot(rt, oracle, start)))
    && (off >= 3 ==> s.draftPlan == Some(oracle(start + 2).draft))
    && (off >= 4 ==> s.plan == Some(RoundPlan(rt, oracle, start)))
    && (off >= 5 ==> RoundPasses(rt, oracle, start))
    && (off >= 6 ==> RoundRuns(rt, oracle, start))
    && (off >= 7 ==> s.execution == Some(RoundResult(rt, oracle, start)) && s.runId == RunId(s.iteration))
  }

  lemma StepInRound(rt: Runtime, oracle: Oracle, start: nat, off: nat, s: LoopState, after: LoopState)
    requires off < 8 && InRound(rt, oracle, start, off, s)
    requires Effect(NodeAt(off), s, oracle(start + off), rt) == Some(after)
    requires Successor(NodeAt(off), after, LoopGraph(rt).routes) == NodeAt(off + 1)
    ensures InRound(rt, oracle, start, off + 1, after) && after.iteration == s.iteration
  {
  }

  /** A state as the round that began at visit `start` has left it, in the round's own iteration. */
  ghost predicate Established(rt: Runtime, s0: LoopState, oracle: Oracle, start: nat, off: nat, s: LoopState) {
    InRound(rt, oracle, start, off, s) && start == 2 + 9 * (s.iteration - s0.iteration)
  }

  ghost function Fact(rt: Runtime, s0: LoopState, oracle: Oracle): RoundFact<LoopState> {
    (start: nat, off: nat, s: LoopState) => Established(rt, s0, oracle, start, off, s)
  }

  lemma StepsKeep(rt: Runtime, s0: LoopState, oracle: Oracle, start: nat, off: nat, s: LoopState, after: LoopState)
    ensures StepKeeps(LoopGraph(rt), oracle, Fact(rt, s0, oracle), start, off, s, after)
  {
    if off < 8 && Established(rt, s0, oracle, start, off, s) && Effect(NodeAt(off), s, oracle(start + off), rt) == Some(after)
      && Successor(NodeAt(off), after, LoopGraph(rt).routes) == NodeAt(off + 1)
    {
      StepInRound(rt, oracle, start, off, s, after);
    }
  }

  lemma RoundsRenew(rt: Runtime, s0: LoopState, oracle: Oracle, start: nat, s: LoopState, after: LoopState)
    ensures RoundRenews(LoopGraph(rt), oracle, Fact(rt, s0, oracle), start, s, after)
  {
    if Established(rt, s0, oracle, start, 8, s) && Effect(ReplanContext, s, oracle(start + 8), rt) == Some(after) {
      ReplanRenews(rt, s0, oracle, start, s, after);
    }
  }

  lemma ReplanRenews(rt: Runtime, s0: LoopState, oracle: Oracle, start: nat, s: LoopState, after: LoopState)
    requires Established(rt, s0, oracle, start, 8, s)
    requires Effect(ReplanContext, s, oracle(start + 8), rt) == Some(after)
    ensures Established(rt, s0, oracle, start + 9, 0, after)
  {
  }

  lemma RoundsOpen(rt: Runtime, s0: LoopState, oracle: Oracle, decided: LoopState, ready: LoopState)
    ensures Opens(LoopGraph(rt), oracle, Fact(rt, s0, oracle), s0, decided, ready)
  {
  }

  lemma {:induction false} FactIsInductive(rt: Runtime, s0: LoopState, oracle: Oracle)
    ensures Inductive(LoopGraph(rt), oracle, Fact(rt, s0, oracle), s0)
  {
    forall start, off, s, after
      ensures StepKeeps(LoopGraph(rt), oracle, Fact(rt, s0, oracle), start, off, s, after)
    {
      StepsKeep(rt, s0, oracle, start, off, s, after);
    }
    forall start, s, after
      ensures RoundRenews(LoopGraph(rt), oracle, Fact(rt, s0, oracle), start, s, after)
    {
      RoundsRenew(rt, s0, oracle, start, s, after);
    }
    forall decided, ready
      ensures Opens(LoopGraph(rt), oracle, Fact(rt, s0, oracle), s0, decided, ready)
    {
      RoundsOpen(rt, s0, oracle, decided, ready);
    }
  }

  function At(rt: Runtime, s0: LoopState, oracle: Oracle, n: nat): Config<LoopState> {
    Walk(s0, oracle, LoopGraph(rt), n)
  }

  /** Whenever the graph is inside a round, the state is what that round has established, in its own iteration. */
  lemma RoundInvariant(rt: Runtime, s0: LoopState, oracle: Oracle, n: nat, off: nat)
    requires off <= 8 && At(rt, s0, oracle, n).node == NodeAt(off)
    ensures n >= 2 + off && Established(rt, s0, oracle, n - off, off, At(rt, s0, oracle, n).state)
  {
    FactHolds(rt, s0, oracle, n, off);
  }

  lemma FactHolds(rt: Runtime, s0: LoopState, oracle: Oracle, n: nat, off: nat)
    requires off <= 8 && At(rt, s0, oracle, n).node == NodeAt(off)
    ensures n >= 2 + off && Fact(rt, s0, oracle)(n - off, off, At(rt, s0, oracle, n).state)
  {
    FactIsInductive(rt, s0, oracle);
    RoundInduction(s0, oracle, LoopGraph(rt), Fact(rt, s0, oracle), n, off);
  }

  // ----- what is executed -----

  /** What a round has established by the time it executes. */
  lemma ExecutingRound(rt: Runtime, s0: LoopState, oracle: Oracle, n: nat)
    requires At(rt, s0, oracle, n).node == Executing
    ensures n >= 8
    ensures At(rt, s0, oracle, n).state.plan == Some(RoundPlan(rt, oracle, n - 6))
    ensures RoundPasses(rt, oracle, n - 6) && RoundRuns(rt, oracle, n - 6)
  {
    RoundInvariant(rt, s0, oracle, n, 6);
  }

  // What the nodes between planning and execution find in the state.

  lemma DraftAtFinalize(rt: Runtime, s0: LoopState, oracle: Oracle, n: nat)
    requires At(rt, s0, oracle, n).node == Finalize
    ensures At(rt, s0, oracle, n).state.draftPlan.Some?
  {
    RoundInvariant(rt, s0, oracle, n, 3);
  }

  lemma PlanAtValidation(rt: Runtime, s0: LoopState, oracle: Oracle, n: nat)
    requires At(rt, s0, oracle, n).node == Validating
    ensures n >= 6 && At(rt, s0, oracle, n).state.plan == Some(RoundPlan(rt, oracle, n - 4))
    ensures GivenSnapshot(At(rt, s0, oracle, n).state, rt) == Some(RoundSnapshot(rt, oracle, n - 4))
  {
    RoundInvariant(rt, s0, oracle, n, 4);
  }

  lemma PlanAtPreflight(rt: Runtime, s0: LoopState, oracle: Oracle, n: nat)
    requires At(rt, s0, oracle, n).node == Preflighting
    ensures n >= 7 && At(rt, s0, oracle, n).state.plan == Some(RoundPlan(rt, oracle, n - 5))
  {
    RoundInvariant(rt, s0, oracle, n, 5);
  }

  lemma RoundBegan(rt: Runtime, s0: LoopState, oracle: Oracle, n: nat)
    requires At(rt, s0, oracle, n).node == Executing
    ensures n >= 8 && At(rt, s0, oracle, n - 6).node == CapabilityResolve
  {
    ExecutingBegan(s0, oracle, LoopGraph(rt), n);
  }

  ghost predicate AllRunnable(steps: seq<PlanStep>, rt: Runtime) {
    forall i :: 0 <= i < |steps| ==> Runnable(steps[i], rt.executable, rt.operators)
  }

  /**
    Every execute visit runs the plan its own round drafted, for the capabilities its own
    round resolved: it passed validation and preflight in that round.
   */
  lemma ExecutedPlanIsAdmitted(rt: Runtime, s0: LoopState, oracle: Oracle, n: nat)
    requires At(rt, s0, oracle, n).node == Executing
    ensures n >= 8 && At(rt, s0, oracle, n - 6).node == CapabilityResolve
    ensures At(rt, s0, oracle, n).state.plan == Some(RoundPlan(rt, oracle, n - 6))
    ensures RoundPasses(rt, oracle, n - 6)
    ensures AllRunnable(oracle(n - 4).draft, rt)
    ensures RoundResult(rt, oracle, n - 6).Finished? ==>
      At(rt, s0, oracle, n + 1).node == TaskCheck &&
      At(rt, s0, oracle, n + 1).state.execution == Some(RoundResult(rt, oracle, n - 6))
  {
    ExecutingRound(rt, s0, oracle, n);
    RoundBegan(rt, s0, oracle, n);
    PreflightIsExact(oracle(n - 4).draft, rt.executable, rt.operators);
    if RoundResult(rt, oracle, n - 6).Finished? {
      ExecuteVisit(rt, s0, oracle, n);
    }
  }

  lemma ExecuteVisit(rt: Runtime, s0: LoopState, oracle: Oracle, n: nat)
    requires At(rt, s0, oracle, n).node == Executing && n >= 8
    requires At(rt, s0, oracle, n).state.plan == Some(RoundPlan(rt, oracle, n - 6))
    requires RoundResult(rt, oracle, n - 6).Finished?
    ensures At(rt, s0, oracle, n + 1).node == TaskCheck
    ensures At(rt, s0, oracle, n + 1).state.execution == Some(RoundResult(rt, oracle, n - 6))
  {
    assert At(rt, s0, oracle, n + 1) == Visit(At(rt, s0, oracle, n), oracle(n), LoopGraph(rt));
  }

  // ----- run ids -----

  /** An execution is recorded under the run id of its iteration, and each round has its own iteration. */
  lemma RunIdOfRound(rt: Runtime, s0: LoopState, oracle: Oracle, n: nat)
    requires At(rt, s0, oracle, n).node == TaskCheck
    ensures var s := At(rt, s0, oracle, n).state; s.runId == RunId(s.iteration) && n == 9 + 9 * (s.iteration - s0.iteration)
  {
    RoundInvariant(rt, s0, oracle, n, 7);
  }

  /** No two executions of one run of the loop are recorded under the same run id. */
  lemma RunIdsNeverRepeat(rt: Runtime, s0: LoopState, oracle: Oracle, m: nat, n: nat)
    requires m < n && At(rt, s0, oracle, m).node == TaskCheck && At(rt, s0, oracle, n).node == TaskCheck
    ensures At(rt, s0, oracle, m).state.runId != At(rt, s0, oracle, n).state.runId
  {
    RunIdOfRound(rt, s0, oracle, m);
    RunIdOfRound(rt, s0, oracle, n);
    DifferentIds(At(rt, s0, oracle, m).state.iteration, At(rt, s0, oracle, n).state.iteration);
  }

  // ----- how a run ends -----

  predicate Terminal(node: Node) {
    EndsPass(node) && !node.ReplanContext?
  }

  lemma TerminalVisit(rt: Runtime, s0: LoopState, oracle: Oracle, n: nat)
    requires n > 0 && At(rt, s0, oracle, n).node == End
    ensures var before := At(rt, s0, oracle, n - 1);
      if before.node == End then At(rt, s0, oracle, n) == before
      else Terminal(before.node) && Effect(before.node, before.state, oracle(n - 1), rt) == Some(At(rt, s0, oracle, n).state)
  {
    VisitMade(s0, oracle, LoopGraph(rt), n - 1);
  }

  /** The graph has ended at some terminal node, and has not changed the state since. */
  lemma {:induction false} EndedBy(rt: Runtime, s0: LoopState, oracle: Oracle, n: nat) returns (m: nat)
    requires At(rt, s0, oracle, n).node == End
    ensures m < n && Terminal(At(rt, s0, oracle, m).node)
    ensures Effect(At(rt, s0, oracle, m).node, At(rt, s0, oracle, m).state, oracle(m), rt) == Some(At(rt, s0, oracle, n).state)
  {
    TerminalVisit(rt, s0, oracle, n);
    if At(rt, s0, oracle, n - 1).node == End {
      m := EndedBy(rt, s0, oracle, n - 1);
    } else {
      m := n - 1;
    }
  }

  lemma OnlyCheckReports(node: Node, s: LoopState, a: Answer, after: LoopState, rt: Runtime)
    requires Effect(node, s, a, rt) == Some(after) && Successor(node, after, LoopGraph(rt).routes) == Report
    ensures node == TaskCheck && after.execution == s.execution && a.route == "end"
  {
  }

  lemma ReportAfterCheck(rt: Runtime, s0: LoopState, oracle: Oracle, n: nat)
    requires n > 0 && At(rt, s0, oracle, n).node == Report
    ensures At(rt, s0, oracle, n - 1).node == TaskCheck
    ensures At(rt, s0, oracle, n).state.execution == At(rt, s0, oracle, n - 1).state.execution
    ensures oracle(n - 1).route == "end"
  {
    VisitMade(s0, oracle, LoopGraph(rt), n - 1);
    var c := At(rt, s0, oracle, n - 1);
    OnlyCheckReports(c.node, c.state, oracle(n - 1), At(rt, s0, oracle, n).state, rt);
  }

  /** A run ends as succeeded only right after a check that accepted the recorded execution of its last plan. */
  lemma SucceededMeansExecuted(rt: Runtime, s0: LoopState, oracle: Oracle, n: nat) returns (m: nat)
    requires At(rt, s0, oracle, n).node == End && At(rt, s0, oracle, n).state.loopStatus == "succeeded"
    ensures 9 <= m < n && At(rt, s0, oracle, m).node == TaskCheck && oracle(m).route == "end"
    ensures At(rt, s0, oracle, m - 1).node == Executing
    ensures At(rt, s0, oracle, n).state.execution == Some(RoundResult(rt, oracle, m - 7))
  {
    var last := EndedBy(rt, s0, oracle, n);
    StatusTells(rt, At(rt, s0, oracle, last), oracle(last), At(rt, s0, oracle, n).state);
    ReportAfterCheck(rt, s0, oracle, last);
    m := last - 1;
    RecordedExecution(rt, s0, oracle, m);
  }

  lemma StatusTells(rt: Runtime, c: Config<LoopState>, a: Answer, after: LoopState)
    requires Terminal(c.node) && Effect(c.node, c.state, a, rt) == Some(after) && after.loopStatus == "succeeded"
    ensures c.node == Report && after.execution == c.state.execution
  {
  }

  lemma RecordedExecution(rt: Runtime, s0: LoopState, oracle: Oracle, n: nat)
    requires At(rt, s0, oracle, n).node == TaskCheck
    ensures n >= 9 && At(rt, s0, oracle, n - 1).node == Executing
    ensures At(rt, s0, oracle, n).state.execution == Some(RoundResult(rt, oracle, n - 7))
  {
    RoundInvariant(rt, s0, oracle, n, 7);
    CheckEntered(s0, oracle, LoopGraph(rt), n);
  }

  // ----- no limit on the rounds -----

  /** Nothing the round calls outside raises. */
  predicate NothingRaises(rt: Runtime, oracle: Oracle, start: nat) {
    forall off :: 0 <= off <= 8 && CallsOut(NodeAt(off), rt) ==> !oracle(start + off).raises
  }

  /** A round whose plan passes, runs to a result and is sent back for another. */
  predicate SentBack(rt: Runtime, oracle: Oracle, start: nat) {
    NothingRaises(rt, oracle, start) &&
    RoundPasses(rt, oracle, start) && RoundRuns(rt, oracle, start) && RoundResult(rt, oracle, start).Finished? &&
    oracle(start + 7).route == "replan"
  }

  ghost predicate AlwaysSentBack(rt: Runtime, oracle: Oracle) {
    forall start: nat :: start % 9 == 2 ==> SentBack(rt, oracle, start)
  }

  lemma EarlyGoesOn(rt: Runtime, oracle: Oracle, start: nat, off: nat, s: LoopState)
    requires off < 5 && SentBack(rt, oracle, start) && InRound(rt, oracle, start, off, s)
    ensures Visit(Config(NodeAt(off), s), oracle(start + off), LoopGraph(rt)).node == NodeAt((off + 1) % 9)
  {
  }

  lemma MiddleGoesOn(rt: Runtime, oracle: Oracle, start: nat, off: nat, s: LoopState)
    requires 5 <= off <= 6 && SentBack(rt, oracle, start) && InRound(rt, oracle, start, off, s)
    ensures Visit(Config(NodeAt(off), s), oracle(start + off), LoopGraph(rt)).node == NodeAt((off + 1) % 9)
  {
  }

  lemma LateGoesOn(rt: Runtime, oracle: Oracle, start: nat, off: nat, s: LoopState)
    requires 7 <= off <= 8 && SentBack(rt, oracle, start) && InRound(rt, oracle, start, off, s)
    ensures Visit(Config(NodeAt(off), s), oracle(start + off), LoopGraph(rt)).node == NodeAt((off + 1) % 9)
  {
  }

  lemma SentBackGoesOn(rt: Runtime, oracle: Oracle, start: nat, off: nat, s: LoopState)
    requires off <= 8 && SentBack(rt, oracle, start) && InRound(rt, oracle, start, off, s)
    ensures Visit(Config(NodeAt(off), s), oracle(start + off), LoopGraph(rt)).node == NodeAt((off + 1) % 9)
  {
    if off < 5 {
      EarlyGoesOn(rt, oracle, start, off, s);
    } else if off < 7 {
      MiddleGoesOn(rt, oracle, start, off, s);
    } else {
      LateGoesOn(rt, oracle, start, off, s);
    }
  }

  /** The loop policy's limit on iterations is read nowhere: as long as rounds are sent back, the loop never ends. */
  lemma NothingStopsReplanning(rt: Runtime, s0: LoopState, oracle: Oracle, n: nat)
    requires At(rt, s0, oracle, 2).node == CapabilityResolve && n >= 2
    requires AlwaysSentBack(rt, oracle)
    ensures At(rt, s0, oracle, n).node == NodeAt((n - 2) % 9)
  {
    FactIsInductive(rt, s0, oracle);
    forall start, off, s
      ensures LeadsOn(LoopGraph(rt), oracle, Fact(rt, s0, oracle), start, off, s)
    {
      if start % 9 == 2 && off <= 8 && Established(rt, s0, oracle, start, off, s) {
        assert SentBack(rt, oracle, start);
        SentBackGoesOn(rt, oracle, start, off, s);
      }
    }
    NeverEnds(s0, oracle, LoopGraph(rt), Fact(rt, s0, oracle), n);
  }
}
