/** The last check before a plan is executed: are there executors and actions for its steps? */
module Preflight {
  import opened Wrappers
  import opened SchemaValidation
  import opened Plan

  const RUN_COMMAND: string := "run_command"

  datatype PreflightError = UnknownExecutor(kind: string) | UnknownAction(action: Value)

  /** Why the preflight raises: inputs without a `get`, or an action that cannot be looked up. */
  datatype Cause = AttributeError | TypeError

  datatype PreflightResult = Checked(errors: seq<PreflightError>) | Raised(cause: Cause)

  /** Inputs that count as false are taken for an empty dictionary; of others, only a dictionary can be asked for the action. */
  predicate HasNoGet(step: PlanStep) {
    step.kind == RUN_COMMAND && !Falsy(step.inputs) && !step.inputs.Dict?
  }

  /** The action a step asks the command controller for, if it names one. */
  function ActionOf(step: PlanStep): Option<Value> {
    if step.kind != RUN_COMMAND || !step.inputs.Dict? then None
    else
      var action := Lookup(step.inputs.entries, "action");
      if action == Some(Lit(Null)) then None else action
  }

  function RaiseOf(step: PlanStep): Option<Cause> {
    if HasNoGet(step) then Some(AttributeError)
    else if ActionOf(step).Some? && Unhashable(ActionOf(step).value) then Some(TypeError)
    else None
  }

  predicate KnownAction(v: Value, operators: set<string>) {
    v.Lit? && v.atom.Str? && v.atom.s in operators
  }

  function StepErrors(step: PlanStep, executable: set<string>, operators: set<string>): seq<PreflightError> {
    (if step.kind in executable then [] else [UnknownExecutor(step.kind)])
    + (var action := ActionOf(step);
       if action.Some? && !KnownAction(action.value, operators) then [UnknownAction(action.value)] else [])
  }

  function Preflight(steps: seq<PlanStep>, executable: set<string>, operators: set<string>): PreflightResult {
    if steps == [] then Checked([])
    else
      var front, last := Preflight(steps[..|steps| - 1], executable, operators), steps[|steps| - 1];
      if front.Raised? then front
      else if RaiseOf(last).Some? then Raised(RaiseOf(last).value)
      else Checked(front.errors + StepErrors(last, executable, operators))
  }

  method RunPreflight(steps: seq<PlanStep>, executable: set<string>, operators: set<string>) returns (r: PreflightResult)
    ensures r == Preflight(steps, executable, operators)
  {
    var errors: seq<PreflightError> := [];
    for i := 0 to |steps|
      invariant Preflight(steps[..i], executable, operators) == Checked(errors)
    {
      assert steps[..i + 1][..i] == steps[..i];
      var step := steps[i];
      if step.kind !in executable {
        errors := errors + [UnknownExecutor(step.kind)];
      }
      if HasNoGet(step) {
        RaisedStays(steps, i + 1, executable, operators);
        return Raised(AttributeError);
      }
      var action := ActionOf(step);
      if action.Some? {
        if Unhashable(action.value) {
          RaisedStays(steps, i + 1, executable, operators);
          return Raised(TypeError);
        }
        if !KnownAction(action.value, operators) {
          errors := errors + [UnknownAction(action.value)];
        }
      }
    }
    assert steps[..|steps|] == steps;
    r := Checked(errors);
  }

  lemma {:induction false} RaisedStays(steps: seq<PlanStep>, n: nat, executable: set<string>, operators: set<string>)
    requires n <= |steps| && Preflight(steps[..n], executable, operators).Raised?
    ensures Preflight(steps, executable, operators) == Preflight(steps[..n], executable, operators)
  {
    if n == |steps| {
      assert steps[..n] == steps;
    } else {
      assert steps[..|steps| - 1][..n] == steps[..n];
      RaisedStays(steps[..|steps| - 1], n, executable, operators);
    }
  }

  predicate Runnable(step: PlanStep, executable: set<string>, operators: set<string>) {
    step.kind in executable && !HasNoGet(step) && (ActionOf(step).Some? ==> KnownAction(ActionOf(step).value, operators))
  }

  /** The preflight passes exactly the plans whose every step has an executor, can be asked for its action and names a known one or none. */
  lemma {:induction false} PreflightIsExact(steps: seq<PlanStep>, executable: set<string>, operators: set<string>)
    ensures Preflight(steps, executable, operators) == Checked([]) <==>
      forall i :: 0 <= i < |steps| ==> Runnable(steps[i], executable, operators)
  {
    if steps != [] {
      var n := |steps| - 1;
      PreflightIsExact(steps[..n], executable, operators);
      assert RaiseOf(steps[n]).None? && StepErrors(steps[n], executable, operators) == [] <==> Runnable(steps[n], executable, operators) by {
        if steps[n].kind !in executable {
          assert StepErrors(steps[n], executable, operators)[0] == UnknownExecutor(steps[n].kind);
        }
      }
    }
  }

  /** A step in plain terms: a command is asked for an action if its inputs have one, and then it is one of the operators. */
  predicate Ready(step: PlanStep, executable: set<string>, operators: set<string>) {
    && step.kind in executable
    && (step.kind == "run_command" ==>
          || Falsy(step.inputs)
          || (step.inputs.Dict? &&
              forall i :: 0 <= i < |step.inputs.entries| && FirstOf(step.inputs.entries, "action", i) ==>
                var action := step.inputs.entries[i].1;
                action == Lit(Null) || (action.Lit? && action.atom.Str? && action.atom.s in operators)))
  }

  /** The entry at `i` is the first of its key. */
  predicate FirstOf(entries: seq<(string, Value)>, key: string, i: nat)
    requires i < |entries|
  {
    entries[i].0 == key && forall j :: 0 <= j < i ==> entries[j].0 != key
  }

  lemma RunnableIsReady(step: PlanStep, executable: set<string>, operators: set<string>)
    ensures Runnable(step, executable, operators) <==> Ready(step, executable, operators)
  {
    if step.inputs.Dict? {
      var p := IndexOf(step.inputs.entries, "action");
      if p >= 0 {
        assert FirstOf(step.inputs.entries, "action", p);
        forall i | 0 <= i < |step.inputs.entries| && FirstOf(step.inputs.entries, "action", i)
          ensures i == p
        {
        }
      }
    }
  }

  /** Of the two exceptions the one is for inputs without a `get`, the other for an action that cannot be looked up. */
  lemma RaiseHasCause(step: PlanStep)
    ensures RaiseOf(step) == Some(AttributeError) <==>
      step.kind == "run_command" && !Falsy(step.inputs) && !step.inputs.Dict?
    ensures RaiseOf(step) == Some(TypeError) <==>
      step.kind == "run_command" && step.inputs.Dict? &&
      exists i :: 0 <= i < |step.inputs.entries| && FirstOf(step.inputs.entries, "action", i) && Unhashable(step.inputs.entries[i].1)
  {
    if step.inputs.Dict? {
      var p := IndexOf(step.inputs.entries, "action");
      if p >= 0 {
        assert FirstOf(step.inputs.entries, "action", p);
        forall i | 0 <= i < |step.inputs.entries| && FirstOf(step.inputs.entries, "action", i)
          ensures i == p
        {
        }
      }
    }
  }

  /** An error of the preflight names a step that has no executor or asks for an action that is none of the operators. */
  ghost predicate Blames(e: PreflightError, step: PlanStep, executable: set<string>, operators: set<string>) {
    match e
    case UnknownExecutor(kind) => step.kind == kind && kind !in executable
    case UnknownAction(action) =>
      ActionOf(step) == Some(action) && !(action.Lit? && action.atom.Str? && action.atom.s in operators)
  }

  lemma StepBlamed(step: PlanStep, executable: set<string>, operators: set<string>, e: PreflightError)
    requires RaiseOf(step).None?
    ensures e in StepErrors(step, executable, operators) <==> Blames(e, step, executable, operators)
  {
  }

  /** If it does not raise, its errors are those that some step is to blame for. */
  lemma {:induction false} ErrorsAreBlamed(steps: seq<PlanStep>, executable: set<string>, operators: set<string>, e: PreflightError)
    requires Preflight(steps, executable, operators).Checked?
    ensures e in Preflight(steps, executable, operators).errors <==>
      exists i :: 0 <= i < |steps| && Blames(e, steps[i], executable, operators)
  {
    if steps != [] {
      var n := |steps| - 1;
      ErrorsAreBlamed(steps[..n], executable, operators, e);
      assert forall i :: 0 <= i < n ==> steps[..n][i] == steps[i];
      StepBlamed(steps[n], executable, operators, e);
    }
  }

  /** The first of the steps that raise, if there is one. */
  ghost predicate FirstRaise(steps: seq<PlanStep>, i: nat) {
    i < |steps| && RaiseOf(steps[i]).Some? && forall j :: 0 <= j < i ==> RaiseOf(steps[j]).None?
  }

  ghost predicate SomeRaise(steps: seq<PlanStep>) {
    exists i: nat :: FirstRaise(steps, i)
  }

  /** It raises exactly when some step's inputs cannot be asked or name an unhashable action, and as the first such step does. */
  lemma {:induction false} RaisesExactly(steps: seq<PlanStep>, executable: set<string>, operators: set<string>)
    ensures Preflight(steps, executable, operators).Raised? <==> SomeRaise(steps)
    ensures forall i: nat :: FirstRaise(steps, i) ==> Preflight(steps, executable, operators) == Raised(RaiseOf(steps[i]).value)
  {
    if steps != [] {
      var n := |steps| - 1;
      RaisesExactly(steps[..n], executable, operators);
      FirstRaiseLast(steps);
    }
  }

  lemma FirstRaiseLast(steps: seq<PlanStep>)
    requires steps != []
    ensures var n := |steps| - 1;
      && (SomeRaise(steps) <==> SomeRaise(steps[..n]) || RaiseOf(steps[n]).Some?)
      && forall i: nat :: FirstRaise(steps, i) <==>
           FirstRaise(steps[..n], i) || (i == n && RaiseOf(steps[n]).Some? && !SomeRaise(steps[..n]))
  {
    var n := |steps| - 1;
    var front := steps[..n];
    forall j | 0 <= j < n
      ensures RaiseOf(steps[j]) == RaiseOf(front[j])
    {
    }
    if SomeRaise(front) {
      var j: nat :| FirstRaise(front, j);
      assert FirstRaise(steps, j) && RaiseOf(steps[j]).Some?;
    } else {
      NoFirstRaise(front);
      assert RaiseOf(steps[n]).Some? ==> FirstRaise(steps, n);
    }
    forall i: nat
      ensures FirstRaise(steps, i) <==> FirstRaise(front, i) || (i == n && RaiseOf(steps[n]).Some? && !SomeRaise(front))
    {
      assert i < n ==> (FirstRaise(steps, i) <==> FirstRaise(front, i));
    }
  }

  lemma {:induction false} NoFirstRaise(steps: seq<PlanStep>)
    requires !SomeRaise(steps)
    ensures forall i :: 0 <= i < |steps| ==> RaiseOf(steps[i]).None?
  {
    if steps != [] {
      var n := |steps| - 1;
      forall i: nat
        ensures !FirstRaise(steps[..n], i)
      {
        assert !FirstRaise(steps, i);
      }
      NoFirstRaise(steps[..n]);
      assert forall j :: 0 <= j < n ==> RaiseOf(steps[j]) == RaiseOf(steps[..n][j]);
      assert !FirstRaise(steps, n);
    }
  }
}
