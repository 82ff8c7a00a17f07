/**
  Which issues the validator reports: for every code its severity, its step and the condition
  under which it is reported, and no other issues.
 */
module IssueCodes {
  import opened Wrappers
  import opened SchemaValidation
  import opened Plan
  import opened Capability
  import opened PlanValidation

  /** One of these codes, for the step at `i`. */
  predicate Reports(issue: Issue, codes: set<string>, severity: Severity, i: nat) {
    issue.code in codes && issue.severity == severity && issue.step == Some(i)
  }

  // ----- what each check reports -----

  ghost predicate IdDeserved(issue: Issue, steps: seq<PlanStep>, i: nat)
    requires i < |steps|
  {
    || (Reports(issue, {"PLAN_STEP_ID_EMPTY", "step.id.empty"}, ErrorSeverity, i) && steps[i].stepId == "")
    || (Reports(issue, {"PLAN_DUPLICATE_STEP_ID", "step.id.duplicate"}, ErrorSeverity, i) &&
          exists j :: 0 <= j < i && steps[j].stepId == steps[i].stepId)
  }

  ghost predicate DependencyDeserved(issue: Issue, i: nat, deps: seq<string>, known: set<string>) {
    Reports(issue, {"PLAN_UNKNOWN_DEPENDENCY", "step.depends_on.missing"}, ErrorSeverity, i) && exists d :: d in deps && d !in known
  }

  ghost predicate MissingDeserved(issue: Issue, i: nat, caps: seq<string>, available: set<string>) {
    Reports(issue, {"step.capability.missing"}, ErrorSeverity, i) && exists c :: c in caps && c !in available
  }

  ghost predicate BaseDeserved(issue: Issue, i: nat, step: PlanStep, known: set<string>, cfg: ValidatorConfig) {
    || DependencyDeserved(issue, i, step.dependsOn, known)
    || (Reports(issue, {"PLAN_STEP_KIND_EMPTY"}, ErrorSeverity, i) && step.kind == "")
    || (Reports(issue, {"PLAN_UNSUPPORTED_STEP_KIND", "step.kind.unsupported"}, ErrorSeverity, i) &&
          step.kind != "" && step.kind !in cfg.supportedStepKinds)
    || (cfg.availableCapabilities.Some? && MissingDeserved(issue, i, step.requiredCapabilities, cfg.availableCapabilities.value))
    || (Reports(issue, {"PLAN_INVALID_RISK_LEVEL", "step.risk.invalid"}, ErrorSeverity, i) &&
          step.riskLevel !in {"low", "medium", "high"})
    || (Reports(issue, {"step.risk.high"}, WarningSeverity, i) && step.riskLevel == "high")
    || (Reports(issue, {"PLAN_INVALID_ON_FAILURE", "step.on_failure.invalid"}, ErrorSeverity, i) &&
          step.onFailure !in {"abort", "continue", "fallback", "request_replan"})
    || (Reports(issue, {"PLAN_INVALID_TIMEOUT"}, ErrorSeverity, i) && step.timeoutSec.Some? && step.timeoutSec.value <= 0)
  }

  predicate SchemaDeserved(issue: Issue, i: nat, inputs: Value, d: Descriptor) {
    Reports(issue, {"STEP_INPUT_SCHEMA_INVALID", "step.inputs.schema_invalid"}, ErrorSeverity, i) && InputErrors(inputs, d) != []
  }

  /** A declared capability the snapshot does not know, or knows and does not enable. */
  predicate DeclarationDeserved(issue: Issue, i: nat, id: string, s: Snapshot) {
    var d, a := DescriptorById(s.capabilities, id), AvailabilityById(s.availability, id);
    || (Reports(issue, {"CAPABILITY_REQUIRED_UNKNOWN"}, ErrorSeverity, i) && (d.None? || a.None?))
    || (Reports(issue, {"CAPABILITY_REQUIRED_UNAVAILABLE"}, ErrorSeverity, i) && d.Some? && a.Some? && !a.value.status.Enabled?)
  }

  ghost predicate DeclaredDeserved(issue: Issue, i: nat, ids: seq<string>, s: Snapshot) {
    exists id :: id in ids && DeclarationDeserved(issue, i, id, s)
  }

  ghost predicate RequiredDeserved(issue: Issue, i: nat, step: PlanStep, d: Descriptor, s: Snapshot, cfg: ValidatorConfig) {
    var severity := if cfg.strictRequiredCapabilities then ErrorSeverity else WarningSeverity;
    || (Reports(issue, {"CAPABILITY_REQUIRED_MISSING"}, severity, i) && step.requiredCapabilities == [])
    || (Reports(issue, {"CAPABILITY_REQUIRED_MISMATCH"}, severity, i) &&
          step.requiredCapabilities != [] && d.capabilityId !in step.requiredCapabilities)
    || DeclaredDeserved(issue, i, step.requiredCapabilities, s)
  }

  /** The capability of the step's kind is known and not open: the code tells why. */
  predicate ClosedDeserved(issue: Issue, i: nat, status: CapabilityStatus, cfg: ValidatorConfig) {
    match status
    case Placeholder => Reports(issue, {"CAPABILITY_PLACEHOLDER_USED"}, ErrorSeverity, i)
    case Disabled => Reports(issue, {"CAPABILITY_DISABLED_USED"}, ErrorSeverity, i)
    case Deprecated =>
      Reports(issue, {"CAPABILITY_DEPRECATED_USED"}, if cfg.allowDeprecatedCapability then WarningSeverity else ErrorSeverity, i)
    case Unavailable => Reports(issue, {"CAPABILITY_STEP_KIND_UNAVAILABLE"}, ErrorSeverity, i)
    case Enabled => Reports(issue, {"CAPABILITY_STEP_KIND_UNAVAILABLE"}, ErrorSeverity, i)
  }

  ghost predicate SnapshotDeserved(issue: Issue, i: nat, step: PlanStep, s: Snapshot, cfg: ValidatorConfig) {
    var d, a := DescriptorByKind(s.capabilities, step.kind), AvailabilityByKind(s.availability, step.kind);
    if d.None? || a.None? then Reports(issue, {"CAPABILITY_DESCRIPTOR_MISSING"}, ErrorSeverity, i)
    else if step.kind in s.availableStepKinds && a.value.status.Enabled? then
      SchemaDeserved(issue, i, step.inputs, d.value) || RequiredDeserved(issue, i, step, d.value, s, cfg)
    else ClosedDeserved(issue, i, a.value.status, cfg)
  }

  predicate RegistryDeserved(issue: Issue, i: nat, step: PlanStep, registry: map<string, Descriptor>) {
    if step.kind in registry then SchemaDeserved(issue, i, step.inputs, registry[step.kind])
    else Reports(issue, {"step.capability.unknown"}, ErrorSeverity, i)
  }

  ghost predicate StepDeserved(issue: Issue, i: nat, step: PlanStep, known: set<string>, snapshot: Option<Snapshot>, cfg: ValidatorConfig) {
    || BaseDeserved(issue, i, step, known, cfg)
    || (snapshot.Some? && SnapshotDeserved(issue, i, step, snapshot.value, cfg))
    || (snapshot.None? && cfg.registry.Some? && RegistryDeserved(issue, i, step, cfg.registry.value))
  }

  predicate DigestDeserved(issue: Issue, digest: string, s: Snapshot, cfg: ValidatorConfig) {
    issue.step.None? &&
    ( || (issue.code == "CAPABILITY_DIGEST_MISSING" && digest == "" &&
            issue.severity == if cfg.requireCapabilityDigest then ErrorSeverity else WarningSeverity)
      || (issue.code == "CAPABILITY_DIGEST_MISMATCH" && digest != "" && digest != s.digest && issue.severity == ErrorSeverity))
  }

  /** The issues a plan deserves. */
  ghost predicate Deserved(issue: Issue, plan: PlanDocument, snapshot: Option<Snapshot>, cfg: ValidatorConfig) {
    if plan.steps == [] then
      issue.code in {"PLAN_EMPTY_STEPS", "plan.steps.empty"} && issue.severity == ErrorSeverity && issue.step.None?
    else
      || (issue == Issue("PLAN_TOO_MANY_STEPS", ErrorSeverity, None) &&
            cfg.maxStepCount.Some? && |plan.steps| > cfg.maxStepCount.value)
      || (snapshot.Some? && DigestDeserved(issue, plan.digest, snapshot.value, cfg))
      || exists i :: 0 <= i < |plan.steps| &&
           (IdDeserved(issue, plan.steps, i) || StepDeserved(issue, i, plan.steps[i], StepIds(plan.steps), snapshot, cfg))
  }

  ghost function StepIds(steps: seq<PlanStep>): set<string> {
    set i | 0 <= i < |steps| :: steps[i].stepId
  }

  // ----- the checks report this -----

  lemma TwiceReports(issue: Issue, code: string, legacy: string, i: nat)
    ensures issue in Twice(code, legacy, i) <==> Reports(issue, {code, legacy}, ErrorSeverity, i)
  {
  }

  lemma {:induction false} IdIssuesAre(steps: seq<PlanStep>, issue: Issue)
    ensures issue in IdIssues(steps) <==> exists i :: 0 <= i < |steps| && IdDeserved(issue, steps, i)
  {
    if steps != [] {
      var n := |steps| - 1;
      IdIssuesAre(steps[..n], issue);
      forall i | 0 <= i < n
        ensures IdDeserved(issue, steps[..n], i) <==> IdDeserved(issue, steps, i)
      {
        assert forall j :: 0 <= j <= i ==> steps[..n][j] == steps[j];
      }
      LastId(steps, issue);
    }
  }

  lemma LastId(steps: seq<PlanStep>, issue: Issue)
    requires steps != []
    ensures var n := |steps| - 1; var id := steps[n].stepId;
      IdDeserved(issue, steps, n) <==>
        || (id == "" && issue in Twice("PLAN_STEP_ID_EMPTY", "step.id.empty", n))
        || (id in Ids(steps[..n]) && issue in Twice("PLAN_DUPLICATE_STEP_ID", "step.id.duplicate", n))
  {
    var n := |steps| - 1;
    TwiceReports(issue, "PLAN_STEP_ID_EMPTY", "step.id.empty", n);
    TwiceReports(issue, "PLAN_DUPLICATE_STEP_ID", "step.id.duplicate", n);
    assert steps[n].stepId in Ids(steps[..n]) <==> exists j :: 0 <= j < n && steps[j].stepId == steps[n].stepId by {
      if j :| 0 <= j < n && steps[j].stepId == steps[n].stepId {
        assert steps[..n][j].stepId == steps[n].stepId;
      }
    }
  }

  lemma {:induction false} DependencyIssuesAre(deps: seq<string>, known: set<string>, i: nat, issue: Issue)
    ensures issue in DependencyIssues(deps, known, i) <==> DependencyDeserved(issue, i, deps, known)
  {
    if deps != [] {
      var n := |deps| - 1;
      DependencyIssuesAre(deps[..n], known, i, issue);
      TwiceReports(issue, "PLAN_UNKNOWN_DEPENDENCY", "step.depends_on.missing", i);
      assert forall d :: d in deps <==> d in deps[..n] || d == deps[n];
    }
  }

  lemma {:induction false} CapabilityIssuesAre(caps: seq<string>, available: set<string>, i: nat, issue: Issue)
    ensures issue in CapabilityIssues(caps, available, i) <==> MissingDeserved(issue, i, caps, available)
  {
    if caps != [] {
      var n := |caps| - 1;
      CapabilityIssuesAre(caps[..n], available, i, issue);
      assert forall c :: c in caps <==> c in caps[..n] || c == caps[n];
    }
  }

  lemma {:induction false} SchemaIssuesAre(errors: seq<Error>, i: nat, issue: Issue)
    ensures issue in SchemaIssues(errors, i) <==>
      errors != [] && Reports(issue, {"STEP_INPUT_SCHEMA_INVALID", "step.inputs.schema_invalid"}, ErrorSeverity, i)
  {
    if errors != [] {
      SchemaIssuesAre(errors[..|errors| - 1], i, issue);
      TwiceReports(issue, "STEP_INPUT_SCHEMA_INVALID", "step.inputs.schema_invalid", i);
    }
  }

  lemma {:induction false} DeclaredIssuesAre(ids: seq<string>, s: Snapshot, i: nat, issue: Issue)
    ensures issue in DeclaredIssues(ids, s, i) <==> DeclaredDeserved(issue, i, ids, s)
  {
    if ids != [] {
      var n := |ids| - 1;
      DeclaredIssuesAre(ids[..n], s, i, issue);
      assert forall id :: id in ids <==> id in ids[..n] || id == ids[n];
      assert DeclaredDeserved(issue, i, ids, s) <==> DeclaredDeserved(issue, i, ids[..n], s) || DeclarationDeserved(issue, i, ids[n], s);
    }
  }

  lemma BaseIssuesAre(step: PlanStep, i: nat, known: set<string>, cfg: ValidatorConfig, issue: Issue)
    ensures issue in BaseIssues(step, i, known, cfg) <==> BaseDeserved(issue, i, step, known, cfg)
  {
    DependencyIssuesAre(step.dependsOn, known, i, issue);
    if cfg.availableCapabilities.Some? {
      CapabilityIssuesAre(step.requiredCapabilities, cfg.availableCapabilities.value, i, issue);
    }
    TwiceReports(issue, "PLAN_UNSUPPORTED_STEP_KIND", "step.kind.unsupported", i);
    TwiceReports(issue, "PLAN_INVALID_RISK_LEVEL", "step.risk.invalid", i);
    TwiceReports(issue, "PLAN_INVALID_ON_FAILURE", "step.on_failure.invalid", i);
  }

  lemma RequiredIssuesAre(step: PlanStep, i: nat, d: Descriptor, s: Snapshot, cfg: ValidatorConfig, issue: Issue)
    ensures issue in RequiredIssues(step, i, d, s, cfg) <==> RequiredDeserved(issue, i, step, d, s, cfg)
  {
    DeclaredIssuesAre(step.requiredCapabilities, s, i, issue);
  }

  lemma SnapshotIssuesAre(step: PlanStep, i: nat, s: Snapshot, cfg: ValidatorConfig, issue: Issue)
    ensures issue in SnapshotIssues(step, i, s, cfg) <==> SnapshotDeserved(issue, i, step, s, cfg)
  {
    var d := DescriptorByKind(s.capabilities, step.kind);
    if d.Some? {
      SchemaIssuesAre(InputErrors(step.inputs, d.value), i, issue);
      RequiredIssuesAre(step, i, d.value, s, cfg, issue);
    }
  }

  lemma StepIssuesAre(step: PlanStep, i: nat, known: set<string>, snapshot: Option<Snapshot>, cfg: ValidatorConfig, issue: Issue)
    ensures issue in StepIssues(step, i, known, snapshot, cfg) <==> StepDeserved(issue, i, step, known, snapshot, cfg)
  {
    BaseIssuesAre(step, i, known, cfg, issue);
    if snapshot.Some? {
      SnapshotIssuesAre(step, i, snapshot.value, cfg, issue);
    } else if cfg.registry.Some? && step.kind in cfg.registry.value {
      SchemaIssuesAre(InputErrors(step.inputs, cfg.registry.value[step.kind]), i, issue);
    }
  }

  lemma {:induction false} InFlatten(lists: seq<seq<Issue>>, issue: Issue)
    ensures issue in Flatten(lists) <==> exists i :: 0 <= i < |lists| && issue in lists[i]
  {
    if lists != [] {
      var n := |lists| - 1;
      InFlatten(lists[..n], issue);
      assert forall i :: 0 <= i < n ==> lists[..n][i] == lists[i];
    }
  }

  lemma AllStepIssuesAre(steps: seq<PlanStep>, known: set<string>, snapshot: Option<Snapshot>, cfg: ValidatorConfig, issue: Issue)
    ensures issue in AllStepIssues(steps, known, snapshot, cfg) <==>
      exists i :: 0 <= i < |steps| && StepDeserved(issue, i, steps[i], known, snapshot, cfg)
  {
    var lists := PerStepIssues(steps, known, snapshot, cfg);
    InFlatten(lists, issue);
    forall i | 0 <= i < |steps|
      ensures issue in lists[i] <==> StepDeserved(issue, i, steps[i], known, snapshot, cfg)
    {
      StepIssuesAre(steps[i], i, known, snapshot, cfg, issue);
    }
  }

  lemma PlanIssuesAre(plan: PlanDocument, snapshot: Option<Snapshot>, cfg: ValidatorConfig, issue: Issue)
    ensures issue in PlanIssues(plan, snapshot, cfg) <==>
      || (issue == Issue("PLAN_TOO_MANY_STEPS", ErrorSeverity, None) &&
            cfg.maxStepCount.Some? && |plan.steps| > cfg.maxStepCount.value)
      || (snapshot.Some? && DigestDeserved(issue, plan.digest, snapshot.value, cfg))
      || exists i :: 0 <= i < |plan.steps| && IdDeserved(issue, plan.steps, i)
  {
    IdIssuesAre(plan.steps, issue);
  }

  /** A plan is reported exactly the issues it deserves. */
  lemma IssuesAreDeserved(plan: PlanDocument, snapshot: Option<Snapshot>, cfg: ValidatorConfig, issue: Issue)
    ensures issue in Issues(plan, snapshot, cfg) <==> Deserved(issue, plan, snapshot, cfg)
  {
    if plan.steps != [] {
      PlanIssuesAre(plan, snapshot, cfg, issue);
      AllStepIssuesAre(plan.steps, Ids(plan.steps), snapshot, cfg, issue);
      assert Ids(plan.steps) == StepIds(plan.steps);
    }
  }

  // ----- which entry of the snapshot counts -----

  /** The last position of a key, whose entry is the one a dictionary built in order keeps. */
  ghost predicate LastOf(keys: seq<string>, want: string, k: nat) {
    k < |keys| && keys[k] == want && forall j :: k < j < |keys| ==> keys[j] != want
  }

  lemma LastOfFront(front: seq<string>, last: string, want: string, k: nat)
    requires LastOf(front + [last], want, k)
    ensures if k < |front| then LastOf(front, want, k) && last != want else k == |front| && last == want
  {
    var keys := front + [last];
    assert keys[|front|] == last;
    assert forall j :: 0 <= j < |front| ==> keys[j] == front[j];
  }

  function DescriptorKinds(all: seq<Descriptor>): (r: seq<string>) {
    seq(|all|, i requires 0 <= i < |all| => all[i].stepKind)
  }

  function DescriptorIds(all: seq<Descriptor>): (r: seq<string>) {
    seq(|all|, i requires 0 <= i < |all| => all[i].capabilityId)
  }

  function AvailabilityKinds(all: seq<Availability>): (r: seq<string>) {
    seq(|all|, i requires 0 <= i < |all| => all[i].stepKind)
  }

  function AvailabilityIds(all: seq<Availability>): (r: seq<string>) {
    seq(|all|, i requires 0 <= i < |all| => all[i].capabilityId)
  }

  /** Where a key occurs several times, the last entry of that key counts. */
  lemma {:induction false} LastDescriptorCounts(all: seq<Descriptor>, want: string, k: nat)
    ensures LastOf(DescriptorKinds(all), want, k) ==> DescriptorByKind(all, want) == Some(all[k])
    ensures LastOf(DescriptorIds(all), want, k) ==> DescriptorById(all, want) == Some(all[k])
    ensures want !in DescriptorKinds(all) ==> DescriptorByKind(all, want).None?
    ensures want !in DescriptorIds(all) ==> DescriptorById(all, want).None?
  {
    if all != [] {
      var n := |all| - 1;
      LastDescriptorCounts(all[..n], want, k);
      assert DescriptorKinds(all) == DescriptorKinds(all[..n]) + [all[n].stepKind];
      assert DescriptorIds(all) == DescriptorIds(all[..n]) + [all[n].capabilityId];
      if LastOf(DescriptorKinds(all), want, k) {
        LastOfFront(DescriptorKinds(all[..n]), all[n].stepKind, want, k);
      }
      if LastOf(DescriptorIds(all), want, k) {
        LastOfFront(DescriptorIds(all[..n]), all[n].capabilityId, want, k);
      }
    }
  }

  lemma {:induction false} LastAvailabilityCounts(all: seq<Availability>, want: string, k: nat)
    ensures LastOf(AvailabilityKinds(all), want, k) ==> AvailabilityByKind(all, want) == Some(all[k])
    ensures LastOf(AvailabilityIds(all), want, k) ==> AvailabilityById(all, want) == Some(all[k])
    ensures want !in AvailabilityKinds(all) ==> AvailabilityByKind(all, want).None?
    ensures want !in AvailabilityIds(all) ==> AvailabilityById(all, want).None?
  {
    if all != [] {
      var n := |all| - 1;
      LastAvailabilityCounts(all[..n], want, k);
      assert AvailabilityKinds(all) == AvailabilityKinds(all[..n]) + [all[n].stepKind];
      assert AvailabilityIds(all) == AvailabilityIds(all[..n]) + [all[n].capabilityId];
      if LastOf(AvailabilityKinds(all), want, k) {
        LastOfFront(AvailabilityKinds(all[..n]), all[n].stepKind, want, k);
      }
      if LastOf(AvailabilityIds(all), want, k) {
        LastOfFront(AvailabilityIds(all[..n]), all[n].capabilityId, want, k);
      }
    }
  }
}
