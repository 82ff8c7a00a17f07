/** The graph of the agent loop over any state, and the procedure that walks it once. */
module AgentGraph {
  import opened Wrappers

  datatype Node =
    | InteractionDecision | EnvInit | CapabilityResolve | SkillSelect | Planning | Finalize | Validating
    | Preflighting | Executing | TaskCheck | ReplanContext
    | Report | DirectReturn | RefuseReturn | Fail | HumanInterrupt
    | End | Crashed

  type DecisionTarget = n: Node | n.EnvInit? || n.DirectReturn? || n.RefuseReturn? || n.HumanInterrupt? || n.Fail? witness EnvInit
  type ValidateTarget = n: Node | n.Preflighting? || n.Fail? witness Fail
  type PreflightTarget = n: Node | n.Executing? || n.Fail? witness Fail
  type CheckTarget = n: Node | n.Report? || n.ReplanContext? || n.HumanInterrupt? || n.Fail? witness Fail

  /** The four places where the state decides where to go. */
  datatype Routes<!S> = Routes(
    afterDecision: S -> DecisionTarget,
    afterValidate: S -> ValidateTarget,
    afterPreflight: S -> PreflightTarget,
    afterTaskCheck: S -> CheckTarget)

  /** A graph over states `S`, whose nodes are told something of type `A` from outside; a node that raises yields None. */
  datatype Graph<!S, !A> = Graph(effect: (Node, S, A) -> Option<S>, routes: Routes<S>)

  function Successor<S>(node: Node, s: S, routes: Routes<S>): Node {
    match node
    case InteractionDecision => routes.afterDecision(s)
    case EnvInit => CapabilityResolve
    case CapabilityResolve => SkillSelect
    case SkillSelect => Planning
    case Planning => Finalize
    case Finalize => Validating
    case Validating => routes.afterValidate(s)
    case Preflighting => routes.afterPreflight(s)
    case Executing => TaskCheck
    case TaskCheck => routes.afterTaskCheck(s)
    case ReplanContext => CapabilityResolve
    case Crashed => Crashed
    case _ => End
  }

  /** The node to be visited next and the state it will see. */
  datatype Config<S> = Config(node: Node, state: S)

  function Visit<S, A>(c: Config<S>, a: A, g: Graph<S, A>): Config<S> {
    var after := g.effect(c.node, c.state, a);
    if after.None? then Config(Crashed, c.state) else Config(Successor(c.node, after.value, g.routes), after.value)
  }

  /** The looping graph after `n` visits; `oracle(i)` is what visit number `i` is told. */
  function Walk<S, A>(initial: S, oracle: nat -> A, g: Graph<S, A>, n: nat): Config<S> {
    if n == 0 then Config(InteractionDecision, initial)
    else Visit(Walk(initial, oracle, g, n - 1), oracle(n - 1), g)
  }

  // ----- one pass -----

  /** Where a single pass ends: at a terminal node, or where the graph would go round again. */
  predicate EndsPass(node: Node) {
    node.Report? || node.DirectReturn? || node.RefuseReturn? || node.Fail? || node.HumanInterrupt? || node.ReplanContext?
  }

  /** The graph is about to make visit `n`, to `node` in state `s`, and none of the visits so far has ended the pass. */
  ghost predicate Reached<S, A>(initial: S, oracle: nat -> A, g: Graph<S, A>, n: nat, node: Node, s: S) {
    Walk(initial, oracle, g, n) == Config(node, s) && forall i :: 0 <= i < n ==> !EndsPass(Walk(initial, oracle, g, i).node)
  }

  /** Visits `0` to `n - 1` are one pass, which only the last of them ends; the graph is in state `s` after it. */
  ghost predicate PassEnded<S, A>(initial: S, oracle: nat -> A, g: Graph<S, A>, n: nat, s: S) {
    && n > 0
    && Walk(initial, oracle, g, n).state == s
    && var last := Walk(initial, oracle, g, n - 1);
      EndsPass(last.node) && Reached(initial, oracle, g, n - 1, last.node, last.state)
      && g.effect(last.node, last.state, oracle(n - 1)).Some?
  }

  /** Visit `n`, to `node` in state `s`, raises before the pass has ended. */
  ghost predicate PassRaised<S, A>(initial: S, oracle: nat -> A, g: Graph<S, A>, n: nat, node: Node, s: S) {
    Reached(initial, oracle, g, n, node, s) && g.effect(node, s, oracle(n)).None?
  }

  datatype PassResult<S> = Completed(state: S) | RaisedIn(node: Node, state: S)

  /** Calls one node and merges its update into the state. */
  method Call<S, A>(node: Node, s: S, ghost initial: S, oracle: nat -> A, g: Graph<S, A>, n: nat)
    returns (raised: bool, after: S)
    requires Reached(initial, oracle, g, n, node, s)
    ensures raised ==> after == s && PassRaised(initial, oracle, g, n, node, s)
    ensures !raised && !EndsPass(node) ==> Reached(initial, oracle, g, n + 1, Successor(node, after, g.routes), after)
    ensures !raised && EndsPass(node) ==> PassEnded(initial, oracle, g, n + 1, after)
  {
    var update := g.effect(node, s, oracle(n));
    raised := update.None?;
    after := if update.None? then s else update.value;
  }

  /** Each node of the list has one edge, to the next node of the list. */
  ghost predicate Chained(nodes: seq<Node>) {
    nodes != [] && forall k :: 0 <= k < |nodes| - 1 ==> OnlyEdge(nodes[k], nodes[k + 1])
  }

  predicate OnlyEdge(node: Node, next: Node) {
    match node
    case EnvInit => next == CapabilityResolve
    case CapabilityResolve => next == SkillSelect
    case SkillSelect => next == Planning
    case Planning => next == Finalize
    case Finalize => next == Validating
    case Executing => next == TaskCheck
    case _ => false
  }

  /** Calls nodes that follow each other, merging each update before the next call. */
  method CallAll<S, A>(nodes: seq<Node>, state: S, ghost initial: S, oracle: nat -> A, g: Graph<S, A>, n: nat)
    returns (raised: bool, raisedIn: Node, s: S, visits: nat)
    requires Chained(nodes) && forall k :: 0 <= k < |nodes| ==> !EndsPass(nodes[k])
    requires Reached(initial, oracle, g, n, nodes[0], state)
    ensures raised ==> PassRaised(initial, oracle, g, visits, raisedIn, s)
    ensures !raised ==> Reached(initial, oracle, g, visits, Successor(nodes[|nodes| - 1], s, g.routes), s)
  {
    s, visits, raisedIn := state, n, nodes[0];
    for k := 0 to |nodes|
      invariant k < |nodes| ==> Reached(initial, oracle, g, visits, nodes[k], s)
      invariant k == |nodes| ==> Reached(initial, oracle, g, visits, Successor(nodes[|nodes| - 1], s, g.routes), s)
    {
      assert k < |nodes| - 1 ==> OnlyEdge(nodes[k], nodes[k + 1]);
      raisedIn := nodes[k];
      raised, s := Call(raisedIn, s, initial, oracle, g, visits);
      if raised {
        return;
      }
      visits := visits + 1;
    }
    raised := false;
  }

  /**
    The procedure without a graph library. It calls exactly the nodes the graph visits from
    the start up to the first that ends a pass, and returns the state the graph has then;
    an exception leaves it at the visit where the graph raises.
   */
  method RunAgentLoopOnce<S, A>(state: S, g: Graph<S, A>, oracle: nat -> A) returns (r: PassResult<S>, visits: nat)
    ensures r.Completed? ==> PassEnded(state, oracle, g, visits, r.state)
    ensures r.RaisedIn? ==> PassRaised(state, oracle, g, visits, r.node, r.state)
  {
    var raised, s := Call(InteractionDecision, state, state, oracle, g, 0);
    if raised {
      return RaisedIn(InteractionDecision, s), 0;
    }
    visits := 1;
    if g.routes.afterDecision(s) != EnvInit {
      r, visits := Finish(g.routes.afterDecision(s), s, state, oracle, g, visits);
      return;
    }
    var raisedIn: Node;
    raised, raisedIn, s, visits :=
      CallAll([EnvInit, CapabilityResolve, SkillSelect, Planning, Finalize, Validating], s, state, oracle, g, visits);
    if raised {
      return RaisedIn(raisedIn, s), visits;
    }
    if g.routes.afterValidate(s) != Preflighting {
      r, visits := Finish(Fail, s, state, oracle, g, visits);
      return;
    }
    r, visits := ExecuteAndCheck(s, state, oracle, g, visits);
  }

  /** The second half of the pass: preflight, execution and check of a validated plan. */
  method ExecuteAndCheck<S, A>(state: S, ghost initial: S, oracle: nat -> A, g: Graph<S, A>, n: nat)
    returns (r: PassResult<S>, visits: nat)
    requires Reached(initial, oracle, g, n, Preflighting, state)
    ensures r.Completed? ==> PassEnded(initial, oracle, g, visits, r.state)
    ensures r.RaisedIn? ==> PassRaised(initial, oracle, g, visits, r.node, r.state)
  {
    var raised, s := Call(Preflighting, state, initial, oracle, g, n);
    if raised {
      return RaisedIn(Preflighting, s), n;
    }
    visits := n + 1;
    if g.routes.afterPreflight(s) != Executing {
      r, visits := Finish(Fail, s, initial, oracle, g, visits);
      return;
    }
    var raisedIn: Node;
    raised, raisedIn, s, visits := CallAll([Executing, TaskCheck], s, initial, oracle, g, visits);
    if raised {
      return RaisedIn(raisedIn, s), visits;
    }
    r, visits := Finish(g.routes.afterTaskCheck(s), s, initial, oracle, g, visits);
  }

  /** Calls the node that ends the pass. */
  method Finish<S, A>(node: Node, s: S, ghost initial: S, oracle: nat -> A, g: Graph<S, A>, n: nat)
    returns (r: PassResult<S>, visits: nat)
    requires Reached(initial, oracle, g, n, node, s) && EndsPass(node)
    ensures r.Completed? ==> PassEnded(initial, oracle, g, visits, r.state)
    ensures r.RaisedIn? ==> PassRaised(initial, oracle, g, visits, r.node, r.state)
  {
    var raised, after := Call(node, s, initial, oracle, g, n);
    if raised {
      return RaisedIn(node, after), n;
    }
    return Completed(after), n + 1;
  }

  // ----- the looping graph goes round in nines -----

  /** The node a round visits `off` visits after it began, or Crashed. */
  function NodeAt(off: nat): Node {
    if off == 0 then CapabilityResolve
    else if off == 1 then SkillSelect
    else if off == 2 then Planning
    else if off == 3 then Finalize
    else if off == 4 then Validating
    else if off == 5 then Preflighting
    else if off == 6 then Executing
    else if off == 7 then TaskCheck
    else if off == 8 then ReplanContext
    else Crashed
  }

  /** The inner nodes of a round are entered from the one before. */
  lemma EnteredFrom<S, A>(initial: S, oracle: nat -> A, g: Graph<S, A>, n: nat, off: nat)
    requires 0 < off <= 8 && Walk(initial, oracle, g, n).node == NodeAt(off)
    ensures n > 0 && Walk(initial, oracle, g, n - 1).node == NodeAt(off - 1)
  {
    assert n > 0;
    assert Walk(initial, oracle, g, n) == Visit(Walk(initial, oracle, g, n - 1), oracle(n - 1), g);
  }

  /** A round begins after the opening or after another round. */
  lemma BegunFrom<S, A>(initial: S, oracle: nat -> A, g: Graph<S, A>, n: nat)
    requires Walk(initial, oracle, g, n).node == CapabilityResolve
    ensures n == 2 || (n > 2 && Walk(initial, oracle, g, n - 1).node == ReplanContext)
    ensures n == 2 ==> Walk(initial, oracle, g, 1).node == EnvInit
  {
    Openings(initial, oracle, g, n);
    assert Walk(initial, oracle, g, n) == Visit(Walk(initial, oracle, g, n - 1), oracle(n - 1), g);
    Openings(initial, oracle, g, n - 1);
  }

  /** Only the first visit decides the mode, and only the second opens the environment. */
  lemma {:induction false} Openings<S, A>(initial: S, oracle: nat -> A, g: Graph<S, A>, n: nat)
    ensures Walk(initial, oracle, g, n).node == InteractionDecision ==> n == 0
    ensures Walk(initial, oracle, g, n).node == EnvInit ==> n == 1
  {
    if n > 0 {
      Openings(initial, oracle, g, n - 1);
      assert Walk(initial, oracle, g, n) == Visit(Walk(initial, oracle, g, n - 1), oracle(n - 1), g);
    }
  }

  ghost predicate BeganAt<S, A>(initial: S, oracle: nat -> A, g: Graph<S, A>, start: nat) {
    Walk(initial, oracle, g, start).node == CapabilityResolve
  }

  /** Visit `n` is to a node of a round only if the round began a multiple of nine visits after the first one did, at visit 2. */
  lemma {:induction false} Rounds<S, A>(initial: S, oracle: nat -> A, g: Graph<S, A>, n: nat, off: nat) returns (round: nat)
    requires off <= 8 && Walk(initial, oracle, g, n).node == NodeAt(off)
    ensures n == 2 + 9 * round + off && BeganAt(initial, oracle, g, n - off)
    decreases n, 1
  {
    if off > 0 {
      EnteredFrom(initial, oracle, g, n, off);
      round := Rounds(initial, oracle, g, n - 1, off - 1);
    } else {
      round := RoundNumber(initial, oracle, g, n);
    }
  }

  lemma CheckEntered<S, A>(initial: S, oracle: nat -> A, g: Graph<S, A>, n: nat)
    requires Walk(initial, oracle, g, n).node == TaskCheck
    ensures n > 0 && Walk(initial, oracle, g, n - 1).node == Executing
  {
    EnteredFrom(initial, oracle, g, n, 7);
  }

  lemma ExecutingBegan<S, A>(initial: S, oracle: nat -> A, g: Graph<S, A>, n: nat)
    requires Walk(initial, oracle, g, n).node == Executing
    ensures n >= 8 && Walk(initial, oracle, g, n - 6).node == CapabilityResolve
  {
    var round := Rounds(initial, oracle, g, n, 6);
  }

  lemma {:induction false} RoundNumber<S, A>(initial: S, oracle: nat -> A, g: Graph<S, A>, n: nat) returns (round: nat)
    requires Walk(initial, oracle, g, n).node == CapabilityResolve
    ensures n == 2 + 9 * round
    decreases n, 0
  {
    BegunFrom(initial, oracle, g, n);
    round := 0;
    if n > 2 {
      round := Rounds(initial, oracle, g, n - 1, 8);
      round := round + 1;
    }
  }

  /** A walk crashes only by a visit that raises. */
  lemma {:induction false} CrashBegan<S, A>(initial: S, oracle: nat -> A, g: Graph<S, A>, n: nat) returns (m: nat)
    requires Walk(initial, oracle, g, n).node == Crashed
    ensures m < n && Walk(initial, oracle, g, m).node != Crashed
    ensures g.effect(Walk(initial, oracle, g, m).node, Walk(initial, oracle, g, m).state, oracle(m)).None?
  {
    m := n - 1;
    assert Walk(initial, oracle, g, n) == Visit(Walk(initial, oracle, g, m), oracle(m), g);
    if Walk(initial, oracle, g, m).node == Crashed {
      m := CrashBegan(initial, oracle, g, m);
    }
  }

  // ----- invariants of rounds -----

  /** Holds of the state `off` visits into the round that began at visit `start`. */
  type RoundFact<!S> = (nat, nat, S) -> bool

  ghost predicate StepKeeps<S, A>(g: Graph<S, A>, oracle: nat -> A, fact: RoundFact<S>, start: nat, off: nat, s: S, after: S) {
    && off < 8 && fact(start, off, s)
    && g.effect(NodeAt(off), s, oracle(start + off)) == Some(after)
    && Successor(NodeAt(off), after, g.routes) == NodeAt(off + 1)
    ==> fact(start, off + 1, after)
  }

  ghost predicate RoundRenews<S, A>(g: Graph<S, A>, oracle: nat -> A, fact: RoundFact<S>, start: nat, s: S, after: S) {
    fact(start, 8, s) && g.effect(ReplanContext, s, oracle(start + 8)) == Some(after) ==> fact(start + 9, 0, after)
  }

  ghost predicate Opens<S, A>(g: Graph<S, A>, oracle: nat -> A, fact: RoundFact<S>, initial: S, decided: S, ready: S) {
    && g.effect(InteractionDecision, initial, oracle(0)) == Some(decided)
    && g.effect(EnvInit, decided, oracle(1)) == Some(ready)
    ==> fact(2, 0, ready)
  }

  /** A fact that the opening establishes and every visit of a round keeps. */
  ghost predicate Inductive<S(!new), A>(g: Graph<S, A>, oracle: nat -> A, fact: RoundFact<S>, initial: S) {
    && (forall start, off, s, after :: StepKeeps(g, oracle, fact, start, off, s, after))
    && (forall start, s, after :: RoundRenews(g, oracle, fact, start, s, after))
    && (forall decided, ready :: Opens(g, oracle, fact, initial, decided, ready))
  }

  lemma VisitMade<S, A>(initial: S, oracle: nat -> A, g: Graph<S, A>, n: nat)
    requires Walk(initial, oracle, g, n + 1).node != Crashed
    ensures var c, next := Walk(initial, oracle, g, n), Walk(initial, oracle, g, n + 1);
      g.effect(c.node, c.state, oracle(n)) == Some(next.state) && next.node == Successor(c.node, next.state, g.routes)
  {
    assert Walk(initial, oracle, g, n + 1) == Visit(Walk(initial, oracle, g, n), oracle(n), g);
  }

  /** The fact holds at visit `n`, the one at offset `off` of its round. */
  ghost predicate FactAt<S, A>(initial: S, oracle: nat -> A, g: Graph<S, A>, fact: RoundFact<S>, n: nat, off: nat) {
    n >= off && fact(n - off, off, Walk(initial, oracle, g, n).state)
  }

  lemma StepFact<S(!new), A>(initial: S, oracle: nat -> A, g: Graph<S, A>, fact: RoundFact<S>, n: nat, off: nat)
    requires Inductive(g, oracle, fact, initial) && 0 < off <= 8 && n > 0
    requires Walk(initial, oracle, g, n - 1).node == NodeAt(off - 1) && Walk(initial, oracle, g, n).node == NodeAt(off)
    requires FactAt(initial, oracle, g, fact, n - 1, off - 1)
    ensures FactAt(initial, oracle, g, fact, n, off)
  {
    VisitMade(initial, oracle, g, n - 1);
    var before, after := Walk(initial, oracle, g, n - 1), Walk(initial, oracle, g, n);
    assert StepKeeps(g, oracle, fact, n - off, off - 1, before.state, after.state);
  }

  lemma RenewedFact<S(!new), A>(initial: S, oracle: nat -> A, g: Graph<S, A>, fact: RoundFact<S>, n: nat)
    requires Inductive(g, oracle, fact, initial) && n >= 8
    requires Walk(initial, oracle, g, n).node == ReplanContext && Walk(initial, oracle, g, n + 1).node == CapabilityResolve
    requires fact(n - 8, 8, Walk(initial, oracle, g, n).state)
    ensures fact(n + 1, 0, Walk(initial, oracle, g, n + 1).state)
  {
    VisitMade(initial, oracle, g, n);
    assert RoundRenews(g, oracle, fact, n - 8, Walk(initial, oracle, g, n).state, Walk(initial, oracle, g, n + 1).state);
  }

  lemma OpeningFact<S(!new), A>(initial: S, oracle: nat -> A, g: Graph<S, A>, fact: RoundFact<S>)
    requires Inductive(g, oracle, fact, initial)
    requires Walk(initial, oracle, g, 1).node == EnvInit && Walk(initial, oracle, g, 2).node == CapabilityResolve
    ensures fact(2, 0, Walk(initial, oracle, g, 2).state)
  {
    VisitMade(initial, oracle, g, 0);
    VisitMade(initial, oracle, g, 1);
    assert Opens(g, oracle, fact, initial, Walk(initial, oracle, g, 1).state, Walk(initial, oracle, g, 2).state);
  }

  /** An inductive fact holds at every visit of every round. */
  lemma {:induction false} RoundInduction<S(!new), A>(initial: S, oracle: nat -> A, g: Graph<S, A>, fact: RoundFact<S>, n: nat, off: nat)
    requires Inductive(g, oracle, fact, initial)
    requires off <= 8 && Walk(initial, oracle, g, n).node == NodeAt(off)
    ensures n >= 2 + off && FactAt(initial, oracle, g, fact, n, off)
    decreases n, 1
  {
    if off > 0 {
      RoundInnerFact(initial, oracle, g, fact, n, off);
    } else {
      RoundStartFact(initial, oracle, g, fact, n);
    }
  }

  lemma {:induction false} RoundInnerFact<S(!new), A>(initial: S, oracle: nat -> A, g: Graph<S, A>, fact: RoundFact<S>, n: nat, off: nat)
    requires Inductive(g, oracle, fact, initial)
    requires 0 < off <= 8 && Walk(initial, oracle, g, n).node == NodeAt(off)
    ensures n >= 2 + off && FactAt(initial, oracle, g, fact, n, off)
    decreases n, 0
  {
    EnteredFrom(initial, oracle, g, n, off);
    RoundInduction(initial, oracle, g, fact, n - 1, off - 1);
    StepFact(initial, oracle, g, fact, n, off);
  }

  lemma {:induction false} RoundStartFact<S(!new), A>(initial: S, oracle: nat -> A, g: Graph<S, A>, fact: RoundFact<S>, n: nat)
    requires Inductive(g, oracle, fact, initial) && Walk(initial, oracle, g, n).node == CapabilityResolve
    ensures n >= 2 && fact(n, 0, Walk(initial, oracle, g, n).state)
    decreases n, 0
  {
    BegunFrom(initial, oracle, g, n);
    if n == 2 {
      OpeningFact(initial, oracle, g, fact);
    } else {
      RoundInduction(initial, oracle, g, fact, n - 1, 8);
      RenewedFact(initial, oracle, g, fact, n - 1);
    }
  }

  /** In a state where the fact holds, the next visit leads on inside the round or into the next one. */
  ghost predicate LeadsOn<S, A>(g: Graph<S, A>, oracle: nat -> A, fact: RoundFact<S>, start: nat, off: nat, s: S) {
    start % 9 == 2 && off <= 8 && fact(start, off, s) ==>
      Visit(Config(NodeAt(off), s), oracle(start + off), g).node == NodeAt((off + 1) % 9)
  }

  ghost predicate AlwaysLeadsOn<S(!new), A>(g: Graph<S, A>, oracle: nat -> A, fact: RoundFact<S>) {
    forall start, off, s :: LeadsOn(g, oracle, fact, start, off, s)
  }

  lemma NextOffset(n: nat, off: nat)
    requires n >= 2 && off == (n - 2) % 9
    ensures n >= off && (n - off) % 9 == 2 && (off + 1) % 9 == (n - 1) % 9
  {
  }

  lemma OneMoreVisit<S(!new), A>(initial: S, oracle: nat -> A, g: Graph<S, A>, fact: RoundFact<S>, n: nat, off: nat)
    requires Inductive(g, oracle, fact, initial) && AlwaysLeadsOn(g, oracle, fact)
    requires n >= 2 && off == (n - 2) % 9 && Walk(initial, oracle, g, n).node == NodeAt(off)
    ensures Walk(initial, oracle, g, n + 1).node == NodeAt((n - 1) % 9)
  {
    RoundInduction(initial, oracle, g, fact, n, off);
    NextOffset(n, off);
    assert LeadsOn(g, oracle, fact, n - off, off, Walk(initial, oracle, g, n).state);
  }

  /** A graph that always leads on never ends. */
  lemma {:induction false} NeverEnds<S(!new), A>(initial: S, oracle: nat -> A, g: Graph<S, A>, fact: RoundFact<S>, n: nat)
    requires Inductive(g, oracle, fact, initial) && AlwaysLeadsOn(g, oracle, fact)
    requires Walk(initial, oracle, g, 2).node == CapabilityResolve && n >= 2
    ensures Walk(initial, oracle, g, n).node == NodeAt((n - 2) % 9)
  {
    if n > 2 {
      NeverEnds(initial, oracle, g, fact, n - 1);
      OneMoreVisit(initial, oracle, g, fact, n - 1, (n - 3) % 9);
    }
  }
}
