/** The plan validator: issues collected check by check, and exactly which plans pass. */
module PlanValidation {
  import opened Wrappers
  import opened SchemaValidation
  import opened Plan
  import opened Capability

  datatype Severity = InfoSeverity | WarningSeverity | ErrorSeverity

  datatype Issue = Issue(code: string, severity: Severity, step: Option<nat>)

  datatype ValidatorConfig = ValidatorConfig(
    supportedStepKinds: set<string>,
    availableCapabilities: Option<set<string>>,
    maxStepCount: Option<int>,
    registry: Option<map<string, Descriptor>>,
    strictRequiredCapabilities: bool,
    requireCapabilityDigest: bool,
    failOnWarning: bool,
    allowDeprecatedCapability: bool)

  datatype PlanDocument = PlanDocument(steps: seq<PlanStep>, digest: string)

  const VALID_RISK_LEVELS: set<string> := {"low", "medium", "high"}
  const VALID_FAILURE_POLICIES: set<string> := {"abort", "continue", "fallback", "request_replan"}

  /** Recursion beyond this raises in Python. */
  const RECURSION_LIMIT: nat := 1000

  /** The interpreter does not end on the inputs, so that checking them raises. */
  predicate Uncheckable(inputs: Value, d: Descriptor) {
    Errors(inputs, d.inputSchema, [], d.inputDefs, RECURSION_LIMIT).None?
  }

  /** The errors found in the inputs; where the interpreter does not end the validator never gets to use them. */
  function InputErrors(inputs: Value, d: Descriptor): seq<Error> {
    var r := Errors(inputs, d.inputSchema, [], d.inputDefs, RECURSION_LIMIT);
    if r.Some? then r.value else [Error([], NoAllowedSchema)]
  }

  // ----- the verdict -----

  predicate Blocks(issue: Issue, failOnWarning: bool) {
    issue.severity == ErrorSeverity || (failOnWarning && issue.severity == WarningSeverity)
  }

  /** No issue fails the plan. */
  predicate Clean(issues: seq<Issue>, failOnWarning: bool) {
    forall i :: 0 <= i < |issues| ==> !Blocks(issues[i], failOnWarning)
  }

  lemma CleanConcat(a: seq<Issue>, b: seq<Issue>, w: bool)
    ensures Clean(a + b, w) <==> Clean(a, w) && Clean(b, w)
  {
    forall i | 0 <= i < |a|
      ensures (a + b)[i] == a[i]
    {
    }
    forall i | 0 <= i < |b|
      ensures (a + b)[|a| + i] == b[i]
    {
    }
    assert Clean(a + b, w) ==> Clean(b, w) by {
      if Clean(a + b, w) {
        forall i | 0 <= i < |b|
          ensures !Blocks(b[i], w)
        {
          assert !Blocks((a + b)[|a| + i], w);
        }
      }
    }
  }

  function Twice(code: string, legacy: string, idx: nat): seq<Issue> {
    [Issue(code, ErrorSeverity, Some(idx)), Issue(legacy, ErrorSeverity, Some(idx))]
  }

  // ----- the checks, one list of issues each -----

  function IdIssues(steps: seq<PlanStep>): seq<Issue> {
    if steps == [] then []
    else
      var n := |steps| - 1;
      var id := steps[n].stepId;
      IdIssues(steps[..n])
      + (if id == "" then Twice("PLAN_STEP_ID_EMPTY", "step.id.empty", n) else [])
      + (if id in Ids(steps[..n]) then Twice("PLAN_DUPLICATE_STEP_ID", "step.id.duplicate", n) else [])
  }

  function Ids(steps: seq<PlanStep>): (ids: set<string>) {
    set i | 0 <= i < |steps| :: steps[i].stepId
  }

  function DependencyIssues(deps: seq<string>, known: set<string>, idx: nat): seq<Issue> {
    if deps == [] then []
    else
      var n := |deps| - 1;
      DependencyIssues(deps[..n], known, idx)
      + (if deps[n] in known then [] else Twice("PLAN_UNKNOWN_DEPENDENCY", "step.depends_on.missing", idx))
  }

  function CapabilityIssues(caps: seq<string>, available: set<string>, idx: nat): seq<Issue> {
    if caps == [] then []
    else
      var n := |caps| - 1;
      CapabilityIssues(caps[..n], available, idx)
      + (if caps[n] in available then [] else [Issue("step.capability.missing", ErrorSeverity, Some(idx))])
  }

  function BaseIssues(step: PlanStep, idx: nat, known: set<string>, cfg: ValidatorConfig): seq<Issue> {
    DependencyIssues(step.dependsOn, known, idx)
    + (if step.kind == "" then [Issue("PLAN_STEP_KIND_EMPTY", ErrorSeverity, Some(idx))]
       else if step.kind !in cfg.supportedStepKinds then Twice("PLAN_UNSUPPORTED_STEP_KIND", "step.kind.unsupported", idx)
       else [])
    + (if cfg.availableCapabilities.Some?
       then CapabilityIssues(step.requiredCapabilities, cfg.availableCapabilities.value, idx) else [])
    + (if step.riskLevel in VALID_RISK_LEVELS then [] else Twice("PLAN_INVALID_RISK_LEVEL", "step.risk.invalid", idx))
    + (if step.riskLevel == "high" then [Issue("step.risk.high", WarningSeverity, Some(idx))] else [])
    + (if step.onFailure in VALID_FAILURE_POLICIES then [] else Twice("PLAN_INVALID_ON_FAILURE", "step.on_failure.invalid", idx))
    + (if step.timeoutSec.Some? && step.timeoutSec.value <= 0 then [Issue("PLAN_INVALID_TIMEOUT", ErrorSeverity, Some(idx))] else [])
  }

  function DigestIssues(digest: string, snapshot: Snapshot, cfg: ValidatorConfig): seq<Issue> {
    if digest == "" then
      [Issue("CAPABILITY_DIGEST_MISSING", if cfg.requireCapabilityDigest then ErrorSeverity else WarningSeverity, None)]
    else if digest != snapshot.digest then [Issue("CAPABILITY_DIGEST_MISMATCH", ErrorSeverity, None)]
    else []
  }

  /** The last descriptor of a kind, as a dictionary built in order keeps it. */
  function DescriptorByKind(all: seq<Descriptor>, kind: string): Option<Descriptor> {
    if all == [] then None
    else if all[|all| - 1].stepKind == kind then Some(all[|all| - 1])
    else DescriptorByKind(all[..|all| - 1], kind)
  }

  function DescriptorById(all: seq<Descriptor>, id: string): Option<Descriptor> {
    if all == [] then None
    else if all[|all| - 1].capabilityId == id then Some(all[|all| - 1])
    else DescriptorById(all[..|all| - 1], id)
  }

  function AvailabilityByKind(all: seq<Availability>, kind: string): Option<Availability> {
    if all == [] then None
    else if all[|all| - 1].stepKind == kind then Some(all[|all| - 1])
    else AvailabilityByKind(all[..|all| - 1], kind)
  }

  function AvailabilityById(all: seq<Availability>, id: string): Option<Availability> {
    if all == [] then None
    else if all[|all| - 1].capabilityId == id then Some(all[|all| - 1])
    else AvailabilityById(all[..|all| - 1], id)
  }

  function SchemaIssues(errors: seq<Error>, idx: nat): seq<Issue> {
    if errors == [] then []
    else SchemaIssues(errors[..|errors| - 1], idx) + Twice("STEP_INPUT_SCHEMA_INVALID", "step.inputs.schema_invalid", idx)
  }

  function DeclaredIssues(ids: seq<string>, snapshot: Snapshot, idx: nat): seq<Issue> {
    if ids == [] then []
    else
      var n := |ids| - 1;
      var availability := AvailabilityById(snapshot.availability, ids[n]);
      DeclaredIssues(ids[..n], snapshot, idx)
      + (if DescriptorById(snapshot.capabilities, ids[n]).None? || availability.None?
         then [Issue("CAPABILITY_REQUIRED_UNKNOWN", ErrorSeverity, Some(idx))]
         else if availability.value.status != Enabled
         then [Issue("CAPABILITY_REQUIRED_UNAVAILABLE", ErrorSeverity, Some(idx))]
         else [])
  }

  function LaxSeverity(cfg: ValidatorConfig): Severity {
    if cfg.strictRequiredCapabilities then ErrorSeverity else WarningSeverity
  }

  function RequiredIssues(step: PlanStep, idx: nat, d: Descriptor, snapshot: Snapshot, cfg: ValidatorConfig): seq<Issue> {
    if step.requiredCapabilities == [] then [Issue("CAPABILITY_REQUIRED_MISSING", LaxSeverity(cfg), Some(idx))]
    else
      DeclaredIssues(step.requiredCapabilities, snapshot, idx)
      + (if d.capabilityId in step.requiredCapabilities then []
         else [Issue("CAPABILITY_REQUIRED_MISMATCH", LaxSeverity(cfg), Some(idx))])
  }

  function UnavailableIssue(status: CapabilityStatus, idx: nat, cfg: ValidatorConfig): Issue {
    match status
    case Placeholder => Issue("CAPABILITY_PLACEHOLDER_USED", ErrorSeverity, Some(idx))
    case Disabled => Issue("CAPABILITY_DISABLED_USED", ErrorSeverity, Some(idx))
    case Deprecated =>
      Issue("CAPABILITY_DEPRECATED_USED", if cfg.allowDeprecatedCapability then WarningSeverity else ErrorSeverity, Some(idx))
    case _ => Issue("CAPABILITY_STEP_KIND_UNAVAILABLE", ErrorSeverity, Some(idx))
  }

  function SnapshotIssues(step: PlanStep, idx: nat, snapshot: Snapshot, cfg: ValidatorConfig): seq<Issue> {
    var descriptor := DescriptorByKind(snapshot.capabilities, step.kind);
    var availability := AvailabilityByKind(snapshot.availability, step.kind);
    if descriptor.None? || availability.None? then [Issue("CAPABILITY_DESCRIPTOR_MISSING", ErrorSeverity, Some(idx))]
    else if step.kind !in snapshot.availableStepKinds || availability.value.status != Enabled then
      [UnavailableIssue(availability.value.status, idx, cfg)]
    else
      SchemaIssues(InputErrors(step.inputs, descriptor.value), idx)
      + RequiredIssues(step, idx, descriptor.value, snapshot, cfg)
  }

  function RegistryIssues(step: PlanStep, idx: nat, registry: map<string, Descriptor>): seq<Issue> {
    if step.kind !in registry then [Issue("step.capability.unknown", ErrorSeverity, Some(idx))]
    else SchemaIssues(InputErrors(step.inputs, registry[step.kind]), idx)
  }

  function StepIssues(step: PlanStep, idx: nat, known: set<string>, snapshot: Option<Snapshot>, cfg: ValidatorConfig): seq<Issue> {
    BaseIssues(step, idx, known, cfg)
    + (if snapshot.Some? then SnapshotIssues(step, idx, snapshot.value, cfg)
       else if cfg.registry.Some? then RegistryIssues(step, idx, cfg.registry.value)
       else [])
  }

  function Flatten(lists: seq<seq<Issue>>): seq<Issue> {
    if lists == [] then [] else Flatten(lists[..|lists| - 1]) + lists[|lists| - 1]
  }

  function PerStepIssues(steps: seq<PlanStep>, known: set<string>, snapshot: Option<Snapshot>, cfg: ValidatorConfig):
    (r: seq<seq<Issue>>)
  {
    seq(|steps|, i requires 0 <= i < |steps| => StepIssues(steps[i], i, known, snapshot, cfg))
  }

  function AllStepIssues(steps: seq<PlanStep>, known: set<string>, snapshot: Option<Snapshot>, cfg: ValidatorConfig): seq<Issue> {
    Flatten(PerStepIssues(steps, known, snapshot, cfg))
  }

  /** The issues found before the steps are looked at one by one. */
  function PlanIssues(plan: PlanDocument, snapshot: Option<Snapshot>, cfg: ValidatorConfig): seq<Issue> {
    (if cfg.maxStepCount.Some? && |plan.steps| > cfg.maxStepCount.value
     then [Issue("PLAN_TOO_MANY_STEPS", ErrorSeverity, None)] else [])
    + IdIssues(plan.steps)
    + (if snapshot.Some? then DigestIssues(plan.digest, snapshot.value, cfg) else [])
  }

  function Issues(plan: PlanDocument, snapshot: Option<Snapshot>, cfg: ValidatorConfig): seq<Issue> {
    if plan.steps == [] then
      [Issue("PLAN_EMPTY_STEPS", ErrorSeverity, None), Issue("plan.steps.empty", ErrorSeverity, None)]
    else
      PlanIssues(plan, snapshot, cfg) + AllStepIssues(plan.steps, Ids(plan.steps), snapshot, cfg)
  }

  datatype ValidationResult = ValidationResult(passed: bool, issues: seq<Issue>)

  // ----- when the validator raises -----

  /** The capability whose schema the step's inputs are checked against, if the validator gets to that. */
  function CheckedAgainst(step: PlanStep, snapshot: Option<Snapshot>, cfg: ValidatorConfig): Option<Descriptor> {
    if snapshot.Some? then
      var s := snapshot.value;
      var descriptor, availability := DescriptorByKind(s.capabilities, step.kind), AvailabilityByKind(s.availability, step.kind);
      if availability.Some? && step.kind in s.availableStepKinds && availability.value.status == Enabled then descriptor else None
    else if cfg.registry.Some? && step.kind in cfg.registry.value then Some(cfg.registry.value[step.kind])
    else None
  }

  predicate StepRaises(step: PlanStep, snapshot: Option<Snapshot>, cfg: ValidatorConfig) {
    var d := CheckedAgainst(step, snapshot, cfg);
    d.Some? && Uncheckable(step.inputs, d.value)
  }

  predicate ValidationRaises(steps: seq<PlanStep>, snapshot: Option<Snapshot>, cfg: ValidatorConfig) {
    exists i :: 0 <= i < |steps| && StepRaises(steps[i], snapshot, cfg)
  }

  /** The result of the validator, none if it raises. */
  function Judged(plan: PlanDocument, snapshot: Option<Snapshot>, cfg: ValidatorConfig): Option<ValidationResult> {
    if ValidationRaises(plan.steps, snapshot, cfg) then None
    else
      var issues := Issues(plan, snapshot, cfg);
      Some(ValidationResult(Clean(issues, cfg.failOnWarning), issues))
  }

  predicate Passes(plan: PlanDocument, snapshot: Option<Snapshot>, cfg: ValidatorConfig) {
    var r := Judged(plan, snapshot, cfg);
    r.Some? && r.value.passed
  }

  /** The validator with its loops; the verdict is computed over the collected issues, unless a step raises. */
  method Validate(plan: PlanDocument, snapshot: Option<Snapshot>, cfg: ValidatorConfig) returns (r: Option<ValidationResult>)
    ensures r.None? <==> ValidationRaises(plan.steps, snapshot, cfg)
    ensures r.Some? ==> r.value.issues == Issues(plan, snapshot, cfg)
    ensures r.Some? ==> (r.value.passed <==> Clean(Issues(plan, snapshot, cfg), cfg.failOnWarning))
  {
    var issues: seq<Issue> := [];
    var steps := plan.steps;
    if steps == [] {
      issues := issues + [Issue("PLAN_EMPTY_STEPS", ErrorSeverity, None)];
      issues := issues + [Issue("plan.steps.empty", ErrorSeverity, None)];
      assert Blocks(issues[0], cfg.failOnWarning);
      return Some(ValidationResult(false, issues));
    }
    issues := ValidateWhole(plan, snapshot, cfg);
    var stepIssues := ValidateSteps(steps, Ids(steps), snapshot, cfg);
    if stepIssues.None? {
      return None;
    }
    issues := issues + stepIssues.value;
    r := Some(ValidationResult(forall i :: 0 <= i < |issues| ==> !Blocks(issues[i], cfg.failOnWarning), issues));
  }

  /** The issues of one step, none if checking it raises. */
  function StepResult(step: PlanStep, idx: nat, known: set<string>, snapshot: Option<Snapshot>, cfg: ValidatorConfig): Option<seq<Issue>> {
    if StepRaises(step, snapshot, cfg) then None else Some(StepIssues(step, idx, known, snapshot, cfg))
  }

  function PerStepResults(steps: seq<PlanStep>, known: set<string>, snapshot: Option<Snapshot>, cfg: ValidatorConfig):
    (r: seq<Option<seq<Issue>>>)
  {
    seq(|steps|, i requires 0 <= i < |steps| => StepResult(steps[i], i, known, snapshot, cfg))
  }

  /** All issues in order, none if one step raises. */
  function Collect(results: seq<Option<seq<Issue>>>): Option<seq<Issue>> {
    if results == [] then Some([])
    else
      var front, last := Collect(results[..|results| - 1]), results[|results| - 1];
      if front.None? || last.None? then None else Some(front.value + last.value)
  }

  lemma {:induction false} CollectExactly(results: seq<Option<seq<Issue>>>, lists: seq<seq<Issue>>)
    requires |results| == |lists| && forall i :: 0 <= i < |results| ==> results[i].None? || results[i] == Some(lists[i])
    ensures Collect(results) ==
      if exists i :: 0 <= i < |results| && results[i].None? then None else Some(Flatten(lists))
  {
    if results != [] {
      var n := |results| - 1;
      CollectExactly(results[..n], lists[..n]);
      if i :| 0 <= i < |results| && results[i].None? {
        assert i < n ==> results[..n][i].None?;
      }
    }
  }

  lemma CollectNone(results: seq<Option<seq<Issue>>>, n: nat)
    requires n < |results| && results[n].None?
    ensures Collect(results).None?
  {
    var lists := seq(|results|, i requires 0 <= i < |results| => if results[i].Some? then results[i].value else []);
    CollectExactly(results, lists);
  }

  lemma StepsCollected(steps: seq<PlanStep>, known: set<string>, snapshot: Option<Snapshot>, cfg: ValidatorConfig)
    ensures Collect(PerStepResults(steps, known, snapshot, cfg)) ==
      if ValidationRaises(steps, snapshot, cfg) then None else Some(AllStepIssues(steps, known, snapshot, cfg))
  {
    var results, lists := PerStepResults(steps, known, snapshot, cfg), PerStepIssues(steps, known, snapshot, cfg);
    forall i | 0 <= i < |steps|
      ensures results[i] == if StepRaises(steps[i], snapshot, cfg) then None else Some(lists[i])
    {
    }
    CollectExactly(results, lists);
  }

  lemma CollectNext(results: seq<Option<seq<Issue>>>, i: nat)
    requires i < |results| && Collect(results[..i]).Some?
    ensures Collect(results[..i + 1]) ==
      if results[i].None? then None else Some(Collect(results[..i]).value + results[i].value)
  {
    assert results[..i + 1][..i] == results[..i];
  }

  /** The loop over the steps, left at the first that raises. */
  method ValidateSteps(steps: seq<PlanStep>, known: set<string>, snapshot: Option<Snapshot>, cfg: ValidatorConfig)
    returns (r: Option<seq<Issue>>)
    ensures r == if ValidationRaises(steps, snapshot, cfg) then None else Some(AllStepIssues(steps, known, snapshot, cfg))
  {
    r := CollectSteps(steps, known, snapshot, cfg);
    StepsCollected(steps, known, snapshot, cfg);
  }

  method CollectSteps(steps: seq<PlanStep>, known: set<string>, snapshot: Option<Snapshot>, cfg: ValidatorConfig)
    returns (r: Option<seq<Issue>>)
    ensures r == Collect(PerStepResults(steps, known, snapshot, cfg))
  {
    var issues: seq<Issue> := [];
    ghost var results := PerStepResults(steps, known, snapshot, cfg);
    for i := 0 to |steps|
      invariant Collect(results[..i]) == Some(issues)
    {
      CollectNext(results, i);
      var stepIssues := StepResult(steps[i], i, known, snapshot, cfg);
      if stepIssues.None? {
        CollectNone(results, i);
        return None;
      }
      issues := issues + stepIssues.value;
    }
    assert results[..|steps|] == results;
    r := Some(issues);
  }

  method ValidateWhole(plan: PlanDocument, snapshot: Option<Snapshot>, cfg: ValidatorConfig) returns (issues: seq<Issue>)
    ensures issues == PlanIssues(plan, snapshot, cfg)
  {
    issues := [];
    if cfg.maxStepCount.Some? && |plan.steps| > cfg.maxStepCount.value {
      issues := issues + [Issue("PLAN_TOO_MANY_STEPS", ErrorSeverity, None)];
    }
    var idIssues := ValidateIds(plan.steps);
    issues := issues + idIssues;
    if snapshot.Some? {
      issues := issues + DigestIssues(plan.digest, snapshot.value, cfg);
    }
  }

  method ValidateIds(steps: seq<PlanStep>) returns (issues: seq<Issue>)
    ensures issues == IdIssues(steps)
  {
    issues := [];
    var seen: set<string> := {};
    for i := 0 to |steps|
      invariant issues == IdIssues(steps[..i]) && seen == Ids(steps[..i])
    {
      assert steps[..i + 1][..i] == steps[..i];
      if steps[i].stepId == "" {
        issues := issues + Twice("PLAN_STEP_ID_EMPTY", "step.id.empty", i);
      }
      if steps[i].stepId in seen {
        issues := issues + Twice("PLAN_DUPLICATE_STEP_ID", "step.id.duplicate", i);
      }
      IdsLast(steps[..i], steps[i]);
      assert steps[..i + 1] == steps[..i] + [steps[i]];
      seen := seen + {steps[i].stepId};
    }
    assert steps[..|steps|] == steps;
  }

  lemma IdsLast(front: seq<PlanStep>, step: PlanStep)
    ensures Ids(front + [step]) == Ids(front) + {step.stepId}
  {
    var all := front + [step];
    forall id | id in Ids(front) + {step.stepId}
      ensures id in Ids(all)
    {
      if id == step.stepId {
        assert all[|front|].stepId == id;
      } else {
        var i :| 0 <= i < |front| && front[i].stepId == id;
        assert all[i].stepId == id;
      }
    }
  }
}
