/**
  Which plans the validator passes, stated without issues; and what a pass against a
  panel-built snapshot of a registry guarantees about every step.
 */
module Admission {
  import opened Wrappers
  import opened SchemaValidation
  import opened Plan
  import opened Capability
  import opened PlanValidation

  // ----- the declarative reading -----

  predicate BaseOk(step: PlanStep, known: set<string>, cfg: ValidatorConfig) {
    && (forall i :: 0 <= i < |step.dependsOn| ==> step.dependsOn[i] in known)
    && step.kind != "" && step.kind in cfg.supportedStepKinds
    && (cfg.availableCapabilities.Some? ==>
          forall i :: 0 <= i < |step.requiredCapabilities| ==> step.requiredCapabilities[i] in cfg.availableCapabilities.value)
    && step.riskLevel in VALID_RISK_LEVELS && (cfg.failOnWarning ==> step.riskLevel != "high")
    && step.onFailure in VALID_FAILURE_POLICIES
    && (step.timeoutSec.Some? ==> step.timeoutSec.value > 0)
  }

  /** Whether a shortcoming that is a warning unless checked strictly may pass. */
  predicate MayBeLax(cfg: ValidatorConfig) {
    !cfg.strictRequiredCapabilities && !cfg.failOnWarning
  }

  predicate DeclaredOk(id: string, snapshot: Snapshot) {
    && DescriptorById(snapshot.capabilities, id).Some?
    && var a := AvailabilityById(snapshot.availability, id); a.Some? && a.value.status == Enabled
  }

  predicate RequiredOk(step: PlanStep, d: Descriptor, snapshot: Snapshot, cfg: ValidatorConfig) {
    && (forall i :: 0 <= i < |step.requiredCapabilities| ==> DeclaredOk(step.requiredCapabilities[i], snapshot))
    && (d.capabilityId in step.requiredCapabilities || MayBeLax(cfg))
  }

  predicate SnapshotOk(step: PlanStep, snapshot: Snapshot, cfg: ValidatorConfig) {
    var d, a := DescriptorByKind(snapshot.capabilities, step.kind), AvailabilityByKind(snapshot.availability, step.kind);
    && d.Some? && a.Some?
    && if step.kind in snapshot.availableStepKinds && a.value.status == Enabled
       then InputErrors(step.inputs, d.value) == [] && RequiredOk(step, d.value, snapshot, cfg)
       else a.value.status == Deprecated && cfg.allowDeprecatedCapability && !cfg.failOnWarning
  }

  predicate StepOk(step: PlanStep, known: set<string>, snapshot: Option<Snapshot>, cfg: ValidatorConfig) {
    && BaseOk(step, known, cfg)
    && (snapshot.Some? ==> SnapshotOk(step, snapshot.value, cfg))
    && (snapshot.None? && cfg.registry.Some? ==>
          step.kind in cfg.registry.value && InputErrors(step.inputs, cfg.registry.value[step.kind]) == [])
  }

  predicate DigestOk(digest: string, snapshot: Snapshot, cfg: ValidatorConfig) {
    if digest == "" then !cfg.requireCapabilityDigest && !cfg.failOnWarning else digest == snapshot.digest
  }

  ghost predicate Admissible(plan: PlanDocument, snapshot: Option<Snapshot>, cfg: ValidatorConfig) {
    && plan.steps != []
    && (cfg.maxStepCount.Some? ==> |plan.steps| <= cfg.maxStepCount.value)
    && (forall i :: 0 <= i < |plan.steps| ==> plan.steps[i].stepId != "") && UniqueIds(plan.steps)
    && (snapshot.Some? ==> DigestOk(plan.digest, snapshot.value, cfg))
    && (forall i :: 0 <= i < |plan.steps| ==> StepOk(plan.steps[i], Ids(plan.steps), snapshot, cfg))
  }

  // ----- each check is clean exactly when its condition holds -----

  lemma TwiceBlocks(code: string, legacy: string, idx: nat, w: bool)
    ensures !Clean(Twice(code, legacy, idx), w)
  {
    assert Blocks(Twice(code, legacy, idx)[0], w);
  }

  lemma CleanOne(issue: Issue, w: bool)
    ensures Clean([issue], w) <==> !Blocks(issue, w)
  {
    assert [issue][0] == issue;
  }

  lemma {:induction false} DependenciesClean(deps: seq<string>, known: set<string>, idx: nat, w: bool)
    ensures Clean(DependencyIssues(deps, known, idx), w) <==> forall i :: 0 <= i < |deps| ==> deps[i] in known
  {
    if deps != [] {
      var n := |deps| - 1;
      DependenciesClean(deps[..n], known, idx, w);
      var last := if deps[n] in known then [] else Twice("PLAN_UNKNOWN_DEPENDENCY", "step.depends_on.missing", idx);
      CleanConcat(DependencyIssues(deps[..n], known, idx), last, w);
      TwiceBlocks("PLAN_UNKNOWN_DEPENDENCY", "step.depends_on.missing", idx, w);
    }
  }

  lemma {:induction false} CapabilitiesClean(caps: seq<string>, available: set<string>, idx: nat, w: bool)
    ensures Clean(CapabilityIssues(caps, available, idx), w) <==> forall i :: 0 <= i < |caps| ==> caps[i] in available
  {
    if caps != [] {
      var n := |caps| - 1;
      CapabilitiesClean(caps[..n], available, idx, w);
      var issue := Issue("step.capability.missing", ErrorSeverity, Some(idx));
      CleanConcat(CapabilityIssues(caps[..n], available, idx), if caps[n] in available then [] else [issue], w);
      CleanOne(issue, w);
    }
  }

  lemma CleanSeven(a: seq<Issue>, b: seq<Issue>, c: seq<Issue>, d: seq<Issue>, e: seq<Issue>, f: seq<Issue>, g: seq<Issue>, w: bool)
    ensures Clean(a + b + c + d + e + f + g, w) <==>
      Clean(a, w) && Clean(b, w) && Clean(c, w) && Clean(d, w) && Clean(e, w) && Clean(f, w) && Clean(g, w)
  {
    CleanConcat(a, b, w);
    CleanConcat(a + b, c, w);
    CleanConcat(a + b + c, d, w);
    CleanConcat(a + b + c + d, e, w);
    CleanConcat(a + b + c + d + e, f, w);
    CleanConcat(a + b + c + d + e + f, g, w);
  }

  lemma BaseClean(step: PlanStep, idx: nat, known: set<string>, cfg: ValidatorConfig)
    ensures Clean(BaseIssues(step, idx, known, cfg), cfg.failOnWarning) <==> BaseOk(step, known, cfg)
  {
    var w := cfg.failOnWarning;
    var empty, high, timeout := Issue("PLAN_STEP_KIND_EMPTY", ErrorSeverity, Some(idx)),
      Issue("step.risk.high", WarningSeverity, Some(idx)), Issue("PLAN_INVALID_TIMEOUT", ErrorSeverity, Some(idx));
    DependenciesClean(step.dependsOn, known, idx, w);
    if cfg.availableCapabilities.Some? {
      CapabilitiesClean(step.requiredCapabilities, cfg.availableCapabilities.value, idx, w);
    }
    TwiceBlocks("PLAN_UNSUPPORTED_STEP_KIND", "step.kind.unsupported", idx, w);
    TwiceBlocks("PLAN_INVALID_RISK_LEVEL", "step.risk.invalid", idx, w);
    TwiceBlocks("PLAN_INVALID_ON_FAILURE", "step.on_failure.invalid", idx, w);
    CleanOne(empty, w);
    CleanOne(high, w);
    CleanOne(timeout, w);
    CleanSeven(
      DependencyIssues(step.dependsOn, known, idx),
      if step.kind == "" then [empty]
      else if step.kind !in cfg.supportedStepKinds then Twice("PLAN_UNSUPPORTED_STEP_KIND", "step.kind.unsupported", idx)
      else [],
      if cfg.availableCapabilities.Some?
      then CapabilityIssues(step.requiredCapabilities, cfg.availableCapabilities.value, idx) else [],
      if step.riskLevel in VALID_RISK_LEVELS then [] else Twice("PLAN_INVALID_RISK_LEVEL", "step.risk.invalid", idx),
      if step.riskLevel == "high" then [high] else [],
      if step.onFailure in VALID_FAILURE_POLICIES then [] else Twice("PLAN_INVALID_ON_FAILURE", "step.on_failure.invalid", idx),
      if step.timeoutSec.Some? && step.timeoutSec.value <= 0 then [timeout] else [],
      w);
  }

  lemma {:induction false} SchemaClean(errors: seq<Error>, idx: nat, w: bool)
    ensures Clean(SchemaIssues(errors, idx), w) <==> errors == []
  {
    if errors != [] {
      var front := errors[..|errors| - 1];
      TwiceBlocks("STEP_INPUT_SCHEMA_INVALID", "step.inputs.schema_invalid", idx, w);
      CleanConcat(SchemaIssues(front, idx), Twice("STEP_INPUT_SCHEMA_INVALID", "step.inputs.schema_invalid", idx), w);
    }
  }

  lemma {:induction false} DeclaredClean(ids: seq<string>, snapshot: Snapshot, idx: nat, w: bool)
    ensures Clean(DeclaredIssues(ids, snapshot, idx), w) <==> forall i :: 0 <= i < |ids| ==> DeclaredOk(ids[i], snapshot)
  {
    if ids != [] {
      var n := |ids| - 1;
      DeclaredClean(ids[..n], snapshot, idx, w);
      var unknown := Issue("CAPABILITY_REQUIRED_UNKNOWN", ErrorSeverity, Some(idx));
      var unavailable := Issue("CAPABILITY_REQUIRED_UNAVAILABLE", ErrorSeverity, Some(idx));
      var a := AvailabilityById(snapshot.availability, ids[n]);
      var last :=
        if DescriptorById(snapshot.capabilities, ids[n]).None? || a.None? then [unknown]
        else if a.value.status != Enabled then [unavailable]
        else [];
      CleanOne(unknown, w);
      CleanOne(unavailable, w);
      CleanConcat(DeclaredIssues(ids[..n], snapshot, idx), last, w);
    }
  }

  lemma RequiredClean(step: PlanStep, idx: nat, d: Descriptor, snapshot: Snapshot, cfg: ValidatorConfig)
    ensures Clean(RequiredIssues(step, idx, d, snapshot, cfg), cfg.failOnWarning) <==> RequiredOk(step, d, snapshot, cfg)
  {
    var w := cfg.failOnWarning;
    var missing := Issue("CAPABILITY_REQUIRED_MISSING", LaxSeverity(cfg), Some(idx));
    var mismatch := Issue("CAPABILITY_REQUIRED_MISMATCH", LaxSeverity(cfg), Some(idx));
    CleanOne(missing, w);
    CleanOne(mismatch, w);
    DeclaredClean(step.requiredCapabilities, snapshot, idx, w);
    CleanConcat(DeclaredIssues(step.requiredCapabilities, snapshot, idx),
      if d.capabilityId in step.requiredCapabilities then [] else [mismatch], w);
  }

  lemma SnapshotClean(step: PlanStep, idx: nat, snapshot: Snapshot, cfg: ValidatorConfig)
    ensures Clean(SnapshotIssues(step, idx, snapshot, cfg), cfg.failOnWarning) <==> SnapshotOk(step, snapshot, cfg)
  {
    var w := cfg.failOnWarning;
    var d, a := DescriptorByKind(snapshot.capabilities, step.kind), AvailabilityByKind(snapshot.availability, step.kind);
    if d.None? || a.None? {
      CleanOne(Issue("CAPABILITY_DESCRIPTOR_MISSING", ErrorSeverity, Some(idx)), w);
    } else if step.kind !in snapshot.availableStepKinds || a.value.status != Enabled {
      CleanOne(UnavailableIssue(a.value.status, idx, cfg), w);
    } else {
      SchemaClean(InputErrors(step.inputs, d.value), idx, w);
      RequiredClean(step, idx, d.value, snapshot, cfg);
      CleanConcat(SchemaIssues(InputErrors(step.inputs, d.value), idx), RequiredIssues(step, idx, d.value, snapshot, cfg), w);
    }
  }

  lemma RegistryClean(step: PlanStep, idx: nat, registry: map<string, Descriptor>, w: bool)
    ensures Clean(RegistryIssues(step, idx, registry), w) <==>
      step.kind in registry && InputErrors(step.inputs, registry[step.kind]) == []
  {
    if step.kind !in registry {
      CleanOne(Issue("step.capability.unknown", ErrorSeverity, Some(idx)), w);
    } else {
      SchemaClean(InputErrors(step.inputs, registry[step.kind]), idx, w);
    }
  }

  lemma StepClean(step: PlanStep, idx: nat, known: set<string>, snapshot: Option<Snapshot>, cfg: ValidatorConfig)
    ensures Clean(StepIssues(step, idx, known, snapshot, cfg), cfg.failOnWarning) <==> StepOk(step, known, snapshot, cfg)
  {
    BaseClean(step, idx, known, cfg);
    var rest :=
      if snapshot.Some? then SnapshotIssues(step, idx, snapshot.value, cfg)
      else if cfg.registry.Some? then RegistryIssues(step, idx, cfg.registry.value)
      else [];
    CleanConcat(BaseIssues(step, idx, known, cfg), rest, cfg.failOnWarning);
    if snapshot.Some? {
      SnapshotClean(step, idx, snapshot.value, cfg);
    } else if cfg.registry.Some? {
      RegistryClean(step, idx, cfg.registry.value, cfg.failOnWarning);
    }
  }

  lemma {:induction false} FlattenClean(lists: seq<seq<Issue>>, w: bool)
    ensures Clean(Flatten(lists), w) <==> forall i :: 0 <= i < |lists| ==> Clean(lists[i], w)
  {
    if lists != [] {
      var n := |lists| - 1;
      FlattenClean(lists[..n], w);
      CleanConcat(Flatten(lists[..n]), lists[n], w);
    }
  }

  lemma StepsClean(steps: seq<PlanStep>, known: set<string>, snapshot: Option<Snapshot>, cfg: ValidatorConfig)
    ensures Clean(AllStepIssues(steps, known, snapshot, cfg), cfg.failOnWarning) <==>
      forall i :: 0 <= i < |steps| ==> StepOk(steps[i], known, snapshot, cfg)
  {
    var lists := PerStepIssues(steps, known, snapshot, cfg);
    FlattenClean(lists, cfg.failOnWarning);
    forall i | 0 <= i < |steps|
      ensures Clean(lists[i], cfg.failOnWarning) <==> StepOk(steps[i], known, snapshot, cfg)
    {
      StepClean(steps[i], i, known, snapshot, cfg);
    }
  }

  lemma {:induction false} IdsClean(steps: seq<PlanStep>, w: bool)
    ensures Clean(IdIssues(steps), w) <==>
      (forall i :: 0 <= i < |steps| ==> steps[i].stepId != "") && UniqueIds(steps)
  {
    if steps != [] {
      var n := |steps| - 1;
      var id := steps[n].stepId;
      IdsClean(steps[..n], w);
      var empty := if id == "" then Twice("PLAN_STEP_ID_EMPTY", "step.id.empty", n) else [];
      var duplicate := if id in Ids(steps[..n]) then Twice("PLAN_DUPLICATE_STEP_ID", "step.id.duplicate", n) else [];
      TwiceBlocks("PLAN_STEP_ID_EMPTY", "step.id.empty", n, w);
      TwiceBlocks("PLAN_DUPLICATE_STEP_ID", "step.id.duplicate", n, w);
      CleanConcat(IdIssues(steps[..n]), empty, w);
      CleanConcat(IdIssues(steps[..n]) + empty, duplicate, w);
      LastIdIsNew(steps);
    }
  }

  lemma LastIdIsNew(steps: seq<PlanStep>)
    requires steps != []
    ensures var n := |steps| - 1;
      UniqueIds(steps) <==> UniqueIds(steps[..n]) && steps[n].stepId !in Ids(steps[..n])
  {
    var n := |steps| - 1;
    if steps[n].stepId in Ids(steps[..n]) {
      var i :| 0 <= i < n && steps[..n][i].stepId == steps[n].stepId;
      assert steps[i].stepId == steps[n].stepId;
    } else {
      forall i | 0 <= i < n
        ensures steps[i].stepId != steps[n].stepId
      {
        assert steps[..n][i].stepId in Ids(steps[..n]);
      }
    }
  }

  lemma DigestClean(digest: string, snapshot: Snapshot, cfg: ValidatorConfig)
    ensures Clean(DigestIssues(digest, snapshot, cfg), cfg.failOnWarning) <==> DigestOk(digest, snapshot, cfg)
  {
    var w := cfg.failOnWarning;
    var severity := if cfg.requireCapabilityDigest then ErrorSeverity else WarningSeverity;
    CleanOne(Issue("CAPABILITY_DIGEST_MISSING", severity, None), w);
    CleanOne(Issue("CAPABILITY_DIGEST_MISMATCH", ErrorSeverity, None), w);
  }

  /** The validator passes exactly the admissible plans, on which it never raises. */
  lemma ValidationIsExact(plan: PlanDocument, snapshot: Option<Snapshot>, cfg: ValidatorConfig)
    ensures Passes(plan, snapshot, cfg) <==> Admissible(plan, snapshot, cfg)
  {
    CleanIsAdmissible(plan, snapshot, cfg);
    if Admissible(plan, snapshot, cfg) {
      forall i | 0 <= i < |plan.steps|
        ensures !StepRaises(plan.steps[i], snapshot, cfg)
      {
        OkNeverRaises(plan.steps[i], Ids(plan.steps), snapshot, cfg);
      }
    }
  }

  lemma OkNeverRaises(step: PlanStep, known: set<string>, snapshot: Option<Snapshot>, cfg: ValidatorConfig)
    requires StepOk(step, known, snapshot, cfg)
    ensures !StepRaises(step, snapshot, cfg)
  {
    var d := CheckedAgainst(step, snapshot, cfg);
    if d.Some? {
      assert InputErrors(step.inputs, d.value) == [];
    }
  }

  lemma CleanIsAdmissible(plan: PlanDocument, snapshot: Option<Snapshot>, cfg: ValidatorConfig)
    ensures Clean(Issues(plan, snapshot, cfg), cfg.failOnWarning) <==> Admissible(plan, snapshot, cfg)
  {
    var w := cfg.failOnWarning;
    if plan.steps == [] {
      assert Blocks(Issues(plan, snapshot, cfg)[0], w);
    } else {
      var tooMany := Issue("PLAN_TOO_MANY_STEPS", ErrorSeverity, None);
      var count := if cfg.maxStepCount.Some? && |plan.steps| > cfg.maxStepCount.value then [tooMany] else [];
      var digest := if snapshot.Some? then DigestIssues(plan.digest, snapshot.value, cfg) else [];
      CleanOne(tooMany, w);
      IdsClean(plan.steps, w);
      if snapshot.Some? {
        DigestClean(plan.digest, snapshot.value, cfg);
      }
      StepsClean(plan.steps, Ids(plan.steps), snapshot, cfg);
      CleanConcat(count, IdIssues(plan.steps), w);
      CleanConcat(count + IdIssues(plan.steps), digest, w);
      CleanConcat(PlanIssues(plan, snapshot, cfg), AllStepIssues(plan.steps, Ids(plan.steps), snapshot, cfg), w);
    }
  }

  // ----- against a snapshot built by the panel -----

  /** Descriptors and availability records of the same capabilities, position by position. */
  ghost predicate Aligned(all: seq<Descriptor>, availability: seq<Availability>) {
    |all| == |availability| &&
    forall i :: 0 <= i < |all| ==>
      availability[i].capabilityId == all[i].capabilityId && availability[i].stepKind == all[i].stepKind
  }

  /** The dictionaries by step kind find a descriptor and the record at the same position. */
  lemma {:induction false} FoundByKind(all: seq<Descriptor>, availability: seq<Availability>, kind: string) returns (k: int)
    requires Aligned(all, availability)
    ensures -1 <= k < |all|
    ensures k < 0 ==> DescriptorByKind(all, kind).None? && forall i :: 0 <= i < |all| ==> all[i].stepKind != kind
    ensures k >= 0 ==> all[k].stepKind == kind && DescriptorByKind(all, kind) == Some(all[k])
    ensures k >= 0 ==> AvailabilityByKind(availability, kind) == Some(availability[k])
  {
    k := -1;
    if all != [] {
      var n := |all| - 1;
      if all[n].stepKind == kind {
        k := n;
      } else {
        k := FoundByKind(all[..n], availability[..n], kind);
        assert forall i :: 0 <= i < n ==> all[..n][i] == all[i];
      }
    }
  }

  lemma {:induction false} FoundById(all: seq<Descriptor>, availability: seq<Availability>, id: string) returns (k: int)
    requires Aligned(all, availability)
    ensures -1 <= k < |all|
    ensures k < 0 ==> DescriptorById(all, id).None? && forall i :: 0 <= i < |all| ==> all[i].capabilityId != id
    ensures k >= 0 ==> all[k].capabilityId == id && DescriptorById(all, id) == Some(all[k])
    ensures k >= 0 ==> AvailabilityById(availability, id) == Some(availability[k])
  {
    k := -1;
    if all != [] {
      var n := |all| - 1;
      if all[n].capabilityId == id {
        k := n;
      } else {
        k := FoundById(all[..n], availability[..n], id);
        assert forall i :: 0 <= i < n ==> all[..n][i] == all[i];
      }
    }
  }

  lemma SnapshotAligned(all: seq<Descriptor>, request: SnapshotRequest, digestOf: DigestOf)
    ensures Aligned(all, BuildSnapshot(all, request, digestOf).availability)
  {
  }

  lemma EnabledKindListed(all: seq<Descriptor>, availability: seq<Availability>, k: nat)
    requires Distinct(all) && Aligned(all, availability) && k < |all|
    ensures all[k].stepKind in KindsWith(availability, true) <==> availability[k].status == Enabled
  {
    KindsWithAre(availability, true, all[k].stepKind);
    if i :| 0 <= i < |all| && availability[i].stepKind == all[k].stepKind && (availability[i].status == Enabled) == true {
      SamePosition(all, i, k);
    }
  }

  lemma SamePosition(all: seq<Descriptor>, i: nat, j: nat)
    requires Distinct(all) && i < |all| && j < |all|
    requires all[i].capabilityId == all[j].capabilityId || all[i].stepKind == all[j].stepKind
    ensures i == j
  {
  }

  predicate Registered(all: seq<Descriptor>, d: Descriptor) {
    d in all
  }

  ghost predicate EligibleId(id: string, all: seq<Descriptor>, request: SnapshotRequest) {
    exists d :: Registered(all, d) && d.capabilityId == id && Eligible(d, request)
  }

  /** Every declared capability of a step is registered and eligible. */
  ghost predicate DeclarationsEligible(step: PlanStep, all: seq<Descriptor>, request: SnapshotRequest) {
    forall i :: 0 <= i < |step.requiredCapabilities| ==> EligibleId(step.requiredCapabilities[i], all, request)
  }

  /** How a step uses a registered capability when its plan passes. */
  ghost predicate ProperUse(step: PlanStep, d: Descriptor, all: seq<Descriptor>, request: SnapshotRequest, cfg: ValidatorConfig) {
    && d.stepKind == step.kind
    && if Eligible(d, request) then
         && InputErrors(step.inputs, d) == []
         && DeclarationsEligible(step, all, request)
         && (d.capabilityId in step.requiredCapabilities || MayBeLax(cfg))
       else
         && d.isDeprecated && !request.allowDeprecated && (d.isPlaceholder ==> request.allowPlaceholder)
         && cfg.allowDeprecatedCapability && !cfg.failOnWarning
  }

  lemma DeclaredMeansEligible(id: string, all: seq<Descriptor>, request: SnapshotRequest, digestOf: DigestOf)
    requires Distinct(all)
    ensures DeclaredOk(id, BuildSnapshot(all, request, digestOf)) <==> EligibleId(id, all, request)
  {
    SnapshotAligned(all, request, digestOf);
    var k := FoundById(all, BuildSnapshot(all, request, digestOf).availability, id);
    if k >= 0 {
      EnabledMeansEligible(all[k], request);
      assert Registered(all, all[k]);
    }
    if d :| Registered(all, d) && d.capabilityId == id && Eligible(d, request) {
      var i :| 0 <= i < |all| && all[i] == d;
      SamePosition(all, i, if k >= 0 then k else i);
    }
  }

  /** What a snapshot of the registry says about the kind of one registered capability. */
  lemma KindInSnapshot(kind: string, all: seq<Descriptor>, request: SnapshotRequest, digestOf: DigestOf) returns (k: int)
    requires Distinct(all)
    ensures -1 <= k < |all|
    ensures k < 0 ==> DescriptorByKind(all, kind).None? && forall i :: 0 <= i < |all| ==> all[i].stepKind != kind
    ensures k >= 0 ==> all[k].stepKind == kind && DescriptorByKind(all, kind) == Some(all[k])
    ensures k >= 0 ==> var s := BuildSnapshot(all, request, digestOf);
      AvailabilityByKind(s.availability, kind) == Some(Resolve(all[k], request)) &&
      (kind in s.availableStepKinds <==> Eligible(all[k], request))
  {
    var s := BuildSnapshot(all, request, digestOf);
    SnapshotAligned(all, request, digestOf);
    k := FoundByKind(all, s.availability, kind);
    if k >= 0 {
      EnabledMeansEligible(all[k], request);
      EnabledKindListed(all, s.availability, k);
    }
  }

  /** A step passes the snapshot check exactly when it properly uses the one registered capability of its kind. */
  lemma StepAdmission(step: PlanStep, all: seq<Descriptor>, request: SnapshotRequest, digestOf: DigestOf, cfg: ValidatorConfig)
    requires Distinct(all)
    ensures SnapshotOk(step, BuildSnapshot(all, request, digestOf), cfg) <==>
      exists d :: Registered(all, d) && ProperUse(step, d, all, request, cfg)
  {
    var s := BuildSnapshot(all, request, digestOf);
    var k := KindInSnapshot(step.kind, all, request, digestOf);
    forall i | 0 <= i < |step.requiredCapabilities|
      ensures DeclaredOk(step.requiredCapabilities[i], s) <==> EligibleId(step.requiredCapabilities[i], all, request)
    {
      DeclaredMeansEligible(step.requiredCapabilities[i], all, request, digestOf);
    }
    if k >= 0 {
      UseMeansPass(step, all[k], all, request, s, cfg);
      assert Registered(all, all[k]);
    }
    if d :| Registered(all, d) && ProperUse(step, d, all, request, cfg) {
      var i :| 0 <= i < |all| && all[i] == d;
      SamePosition(all, i, if k >= 0 then k else i);
    }
  }

  lemma UseMeansPass(step: PlanStep, d: Descriptor, all: seq<Descriptor>, request: SnapshotRequest, s: Snapshot, cfg: ValidatorConfig)
    requires d.stepKind == step.kind
    requires DescriptorByKind(s.capabilities, step.kind) == Some(d)
    requires AvailabilityByKind(s.availability, step.kind) == Some(Resolve(d, request))
    requires step.kind in s.availableStepKinds <==> Eligible(d, request)
    requires forall i :: 0 <= i < |step.requiredCapabilities| ==>
      (DeclaredOk(step.requiredCapabilities[i], s) <==> EligibleId(step.requiredCapabilities[i], all, request))
    ensures SnapshotOk(step, s, cfg) <==> ProperUse(step, d, all, request, cfg)
  {
    EnabledMeansEligible(d, request);
    assert DeclarationsEligible(step, all, request) <==>
      forall i :: 0 <= i < |step.requiredCapabilities| ==> DeclaredOk(step.requiredCapabilities[i], s);
    if Eligible(d, request) {
      assert SnapshotOk(step, s, cfg) <==> InputErrors(step.inputs, d) == [] && RequiredOk(step, d, s, cfg);
    }
  }

  /**
    End to end: with deprecated capabilities not allowed, a plan that passes against the
    snapshot of a registry has only steps whose kind is registered exactly once, by a
    capability that is eligible for the request and whose schema finds no error in the inputs.
   */
  lemma PassedPlansAreSafe(plan: PlanDocument, all: seq<Descriptor>, request: SnapshotRequest, digestOf: DigestOf,
                           cfg: ValidatorConfig, i: nat) returns (k: nat)
    requires Distinct(all) && !cfg.allowDeprecatedCapability && i < |plan.steps|
    requires Passes(plan, Some(BuildSnapshot(all, request, digestOf)), cfg)
    ensures k < |all| && all[k].stepKind == plan.steps[i].kind
    ensures forall j :: 0 <= j < |all| && all[j].stepKind == plan.steps[i].kind ==> j == k
    ensures Eligible(all[k], request) && InputErrors(plan.steps[i].inputs, all[k]) == []
    ensures DeclarationsEligible(plan.steps[i], all, request)
    ensures plan.digest == "" || plan.digest == BuildSnapshot(all, request, digestOf).digest
  {
    var s := BuildSnapshot(all, request, digestOf);
    ValidationIsExact(plan, Some(s), cfg);
    assert StepOk(plan.steps[i], Ids(plan.steps), Some(s), cfg);
    StepAdmission(plan.steps[i], all, request, digestOf, cfg);
    var d :| Registered(all, d) && ProperUse(plan.steps[i], d, all, request, cfg);
    k :| 0 <= k < |all| && all[k] == d;
    forall j | 0 <= j < |all| && all[j].stepKind == plan.steps[i].kind
      ensures j == k
    {
      SamePosition(all, j, k);
    }
  }

  /** Some step is to be checked against an eligible capability of its kind and cannot be. */
  ghost predicate StepUncheckable(steps: seq<PlanStep>, i: nat, all: seq<Descriptor>, k: nat, request: SnapshotRequest) {
    && i < |steps| && k < |all| && all[k].stepKind == steps[i].kind
    && Eligible(all[k], request) && Uncheckable(steps[i].inputs, all[k])
  }

  /** Against the snapshot of a registry the validator raises exactly when there is such a step. */
  lemma ValidationRaisesExactly(steps: seq<PlanStep>, all: seq<Descriptor>, request: SnapshotRequest, digestOf: DigestOf, cfg: ValidatorConfig)
    requires Distinct(all)
    ensures ValidationRaises(steps, Some(BuildSnapshot(all, request, digestOf)), cfg) <==>
      exists i: nat, k: nat :: StepUncheckable(steps, i, all, k, request)
  {
    var s := BuildSnapshot(all, request, digestOf);
    if i :| 0 <= i < |steps| && StepRaises(steps[i], Some(s), cfg) {
      var k := CheckedInSnapshot(steps[i], all, request, digestOf, cfg);
      assert StepUncheckable(steps, i, all, k, request);
    }
    if i: nat, k: nat :| StepUncheckable(steps, i, all, k, request) {
      var j := CheckedInSnapshot(steps[i], all, request, digestOf, cfg);
      SamePosition(all, k, j);
      assert StepRaises(steps[i], Some(s), cfg);
    }
  }

  /** The capability a step is checked against is the eligible one of its kind, if there is one. */
  lemma CheckedInSnapshot(step: PlanStep, all: seq<Descriptor>, request: SnapshotRequest, digestOf: DigestOf, cfg: ValidatorConfig) returns (k: int)
    requires Distinct(all)
    ensures -1 <= k < |all|
    ensures k >= 0 ==> all[k].stepKind == step.kind
    ensures k < 0 ==> forall i :: 0 <= i < |all| ==> all[i].stepKind != step.kind
    ensures CheckedAgainst(step, Some(BuildSnapshot(all, request, digestOf)), cfg) ==
      if k >= 0 && Eligible(all[k], request) then Some(all[k]) else None
  {
    k := KindInSnapshot(step.kind, all, request, digestOf);
    if k >= 0 {
      EnabledMeansEligible(all[k], request);
    }
  }

  /** With deprecated capabilities allowed a step passes on a deprecated capability whatever else is closed to it and whatever its inputs are. */
  lemma DeprecatedPassesUnchecked(step: PlanStep, d: Descriptor, request: SnapshotRequest, digestOf: DigestOf, cfg: ValidatorConfig)
    requires d.stepKind == step.kind && d.isDeprecated && !d.isPlaceholder && !request.allowDeprecated
    requires cfg.allowDeprecatedCapability && !cfg.failOnWarning
    ensures SnapshotOk(step, BuildSnapshot([d], request, digestOf), cfg)
  {
    assert Registered([d], d) && ProperUse(step, d, [d], request, cfg);
    StepAdmission(step, [d], request, digestOf, cfg);
  }
}
