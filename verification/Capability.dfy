/** The capability registry with its two indexes, and the panel that resolves it into a snapshot. */
module Capability {
  import opened Wrappers
  import opened SchemaValidation

  datatype Risk = LowRisk | MediumRisk | HighRisk | CriticalRisk

  function RiskOrder(r: Risk): nat {
    match r
    case LowRisk => 0
    case MediumRisk => 1
    case HighRisk => 2
    case CriticalRisk => 3
  }

  datatype Descriptor = Descriptor(
    capabilityId: string,
    stepKind: string,
    requiredContextKeys: seq<string>,
    riskLevel: Risk,
    defaultEnabled: bool,
    isPlaceholder: bool,
    isDeprecated: bool,
    inputSchema: Schema,
    inputDefs: Defs)

  // ----- the registry -----

  datatype Registration = Registered | DuplicatedCapabilityId | DuplicatedStepKind

  /** No id and no step kind twice. */
  ghost predicate Distinct(all: seq<Descriptor>) {
    forall i, j :: 0 <= i < j < |all| ==>
      all[i].capabilityId != all[j].capabilityId && all[i].stepKind != all[j].stepKind
  }

  class CapabilityRegistry {
    /** The descriptors in the order they were registered, as the dictionary by id keeps them. */
    var order: seq<Descriptor>
    var byId: map<string, Descriptor>
    var byStepKind: map<string, Descriptor>

    /** The two indexes are in step: each holds exactly the registered descriptors under their own keys. */
    ghost predicate Valid()
      reads this
    {
      && Distinct(order)
      && (forall i :: 0 <= i < |order| ==>
            order[i].capabilityId in byId && byId[order[i].capabilityId] == order[i] &&
            order[i].stepKind in byStepKind && byStepKind[order[i].stepKind] == order[i])
      && (forall id :: id in byId ==> byId[id] in order && byId[id].capabilityId == id)
      && (forall kind :: kind in byStepKind ==> byStepKind[kind] in order && byStepKind[kind].stepKind == kind)
    }

    constructor ()
      ensures Valid() && order == []
    {
      order, byId, byStepKind := [], map[], map[];
    }

    method Register(d: Descriptor) returns (r: Registration)
      requires Valid()
      modifies this
      ensures Valid()
      ensures r == Registered <==>
        forall i :: 0 <= i < |old(order)| ==> old(order)[i].capabilityId != d.capabilityId && old(order)[i].stepKind != d.stepKind
      ensures r == DuplicatedCapabilityId <==> exists i :: 0 <= i < |old(order)| && old(order)[i].capabilityId == d.capabilityId
      ensures order == if r == Registered then old(order) + [d] else old(order)
    {
      if d.capabilityId in byId {
        return DuplicatedCapabilityId;
      }
      if d.stepKind in byStepKind {
        return DuplicatedStepKind;
      }
      order := order + [d];
      byId := byId[d.capabilityId := d];
      byStepKind := byStepKind[d.stepKind := d];
      r := Registered;
    }

    method MaybeGetByStepKind(kind: string) returns (d: Option<Descriptor>)
      requires Valid()
      ensures d.Some? ==> d.value in order && d.value.stepKind == kind
      ensures d.None? ==> forall i :: 0 <= i < |order| ==> order[i].stepKind != kind
    {
      d := if kind in byStepKind then Some(byStepKind[kind]) else None;
    }

    method ListAll() returns (all: seq<Descriptor>)
      requires Valid()
      ensures all == order && Distinct(all)
    {
      all := order;
    }
  }

  // ----- the panel -----

  datatype SnapshotRequest = SnapshotRequest(
    availableContextKeys: seq<string>,
    forbiddenCapabilityIds: seq<string>,
    maxRiskLevel: Risk,
    allowPlaceholder: bool,
    allowDeprecated: bool,
    featureFlags: map<string, bool>)

  datatype CapabilityStatus = Enabled | Disabled | Unavailable | Placeholder | Deprecated

  datatype Availability = Availability(
    capabilityId: string,
    stepKind: string,
    status: CapabilityStatus,
    missingContextKeys: seq<string>,
    blockedByPolicy: bool,
    blockedBySkill: bool,
    blockedByFeatureFlag: bool)

  function MissingKeys(required: seq<string>, available: seq<string>): (missing: seq<string>)
    ensures missing == [] <==> forall i :: 0 <= i < |required| ==> required[i] in available
  {
    if required == [] then []
    else
      var last := required[|required| - 1];
      MissingKeys(required[..|required| - 1], available) + (if last in available then [] else [last])
  }

  function FlagName(id: string): string {
    "capability." + id + ".enabled"
  }

  /** The gates in the order the panel tries them; the first that closes decides the status. */
  function Resolve(d: Descriptor, request: SnapshotRequest): Availability {
    var missing := MissingKeys(d.requiredContextKeys, request.availableContextKeys);
    var blank := Availability(d.capabilityId, d.stepKind, Enabled, [], false, false, false);
    if d.isPlaceholder && !request.allowPlaceholder then blank.(status := Placeholder)
    else if d.isDeprecated && !request.allowDeprecated then blank.(status := Deprecated)
    else if !d.defaultEnabled then blank.(status := Disabled)
    else if d.capabilityId in request.forbiddenCapabilityIds then blank.(status := Disabled, blockedBySkill := true)
    else if FlagName(d.capabilityId) in request.featureFlags && !request.featureFlags[FlagName(d.capabilityId)] then
      blank.(status := Disabled, blockedByFeatureFlag := true)
    else if missing != [] then blank.(status := Unavailable, missingContextKeys := missing)
    else if RiskOrder(d.riskLevel) > RiskOrder(request.maxRiskLevel) then blank.(status := Disabled, blockedByPolicy := true)
    else blank
  }

  /** What a task may rely on when it uses a capability. */
  predicate Eligible(d: Descriptor, request: SnapshotRequest) {
    && (d.isPlaceholder ==> request.allowPlaceholder)
    && (d.isDeprecated ==> request.allowDeprecated)
    && d.defaultEnabled
    && d.capabilityId !in request.forbiddenCapabilityIds
    && (FlagName(d.capabilityId) in request.featureFlags ==> request.featureFlags[FlagName(d.capabilityId)])
    && (forall i :: 0 <= i < |d.requiredContextKeys| ==> d.requiredContextKeys[i] in request.availableContextKeys)
    && RiskOrder(d.riskLevel) <= RiskOrder(request.maxRiskLevel)
  }

  lemma EnabledMeansEligible(d: Descriptor, request: SnapshotRequest)
    ensures Resolve(d, request).status == Enabled <==> Eligible(d, request)
    ensures Resolve(d, request).status == Deprecated <==>
      d.isDeprecated && !request.allowDeprecated && (d.isPlaceholder ==> request.allowPlaceholder)
  {
  }

  /** The gates a capability has to pass, in the order in which they are tried. */
  datatype Gate = PlaceholderGate | DeprecatedGate | DefaultGate | SkillGate | FlagGate | ContextGate | RiskGate

  const GATES: seq<Gate> := [PlaceholderGate, DeprecatedGate, DefaultGate, SkillGate, FlagGate, ContextGate, RiskGate]

  predicate Shut(gate: Gate, d: Descriptor, request: SnapshotRequest) {
    match gate
    case PlaceholderGate => d.isPlaceholder && !request.allowPlaceholder
    case DeprecatedGate => d.isDeprecated && !request.allowDeprecated
    case DefaultGate => !d.defaultEnabled
    case SkillGate => d.capabilityId in request.forbiddenCapabilityIds
    case FlagGate =>
      var flag := "capability." + d.capabilityId + ".enabled"; flag in request.featureFlags && !request.featureFlags[flag]
    case ContextGate => exists key :: key in d.requiredContextKeys && key !in request.availableContextKeys
    case RiskGate =>
      match request.maxRiskLevel
      case LowRisk => !d.riskLevel.LowRisk?
      case MediumRisk => d.riskLevel.HighRisk? || d.riskLevel.CriticalRisk?
      case HighRisk => d.riskLevel.CriticalRisk?
      case CriticalRisk => false
  }

  /** The availability of a capability that a gate shuts out. */
  predicate ShutOut(a: Availability, gate: Gate) {
    && a.status == (match gate
                    case PlaceholderGate => Placeholder
                    case DeprecatedGate => Deprecated
                    case ContextGate => Unavailable
                    case _ => Disabled)
    && (a.blockedBySkill <==> gate.SkillGate?)
    && (a.blockedByFeatureFlag <==> gate.FlagGate?)
    && (a.blockedByPolicy <==> gate.RiskGate?)
    && (a.missingContextKeys != [] <==> gate.ContextGate?)
  }

  function NotAmong(available: seq<string>): string -> bool {
    key => key !in available
  }

  lemma {:induction false} MissingKeysAre(required: seq<string>, available: seq<string>)
    ensures MissingKeys(required, available) == Filter(required, NotAmong(available))
  {
    if required != [] {
      MissingKeysAre(required[..|required| - 1], available);
    }
  }

  ghost predicate OpenBefore(k: nat, d: Descriptor, request: SnapshotRequest)
    requires k <= |GATES|
  {
    forall j :: 0 <= j < k ==> !Shut(GATES[j], d, request)
  }

  lemma OpenOneByOne(k: nat, d: Descriptor, request: SnapshotRequest)
    requires k <= |GATES| && OpenBefore(k, d, request)
    ensures |GATES| == 7
    ensures k > 0 ==> !Shut(PlaceholderGate, d, request)
    ensures k > 1 ==> !Shut(DeprecatedGate, d, request)
    ensures k > 2 ==> !Shut(DefaultGate, d, request)
    ensures k > 3 ==> !Shut(SkillGate, d, request)
    ensures k > 4 ==> !Shut(FlagGate, d, request)
    ensures k > 5 ==> !Shut(ContextGate, d, request)
    ensures k > 6 ==> !Shut(RiskGate, d, request)
  {
    assert k > 0 ==> !Shut(GATES[0], d, request);
    assert k > 1 ==> !Shut(GATES[1], d, request);
    assert k > 2 ==> !Shut(GATES[2], d, request);
    assert k > 3 ==> !Shut(GATES[3], d, request);
    assert k > 4 ==> !Shut(GATES[4], d, request);
    assert k > 5 ==> !Shut(GATES[5], d, request);
    assert k > 6 ==> !Shut(GATES[6], d, request);
  }

  /** The first gate that is shut decides what a capability is, and says so. */
  lemma FirstGateDecides(d: Descriptor, request: SnapshotRequest, k: nat)
    requires k < |GATES| && OpenBefore(k, d, request) && Shut(GATES[k], d, request)
    ensures ShutOut(Resolve(d, request), GATES[k])
    ensures GATES[k].ContextGate? ==>
      Resolve(d, request).missingContextKeys == Filter(d.requiredContextKeys, NotAmong(request.availableContextKeys))
  {
    OpenOneByOne(k, d, request);
    MissingKeysAre(d.requiredContextKeys, request.availableContextKeys);
    RiskIsOrdered(d, request);
    ContextIsMissing(d, request);
  }

  /** Where no gate is shut, a capability is enabled with no mark against it. */
  lemma OpenGatesEnable(d: Descriptor, request: SnapshotRequest)
    requires OpenBefore(|GATES|, d, request)
    ensures Resolve(d, request) == Availability(d.capabilityId, d.stepKind, Enabled, [], false, false, false)
  {
    OpenOneByOne(7, d, request);
    RiskIsOrdered(d, request);
    ContextIsMissing(d, request);
  }

  lemma ResolvedIsNamed(d: Descriptor, request: SnapshotRequest)
    ensures Resolve(d, request).capabilityId == d.capabilityId && Resolve(d, request).stepKind == d.stepKind
  {
  }

  lemma RiskIsOrdered(d: Descriptor, request: SnapshotRequest)
    ensures Shut(RiskGate, d, request) <==> RiskOrder(d.riskLevel) > RiskOrder(request.maxRiskLevel)
  {
  }

  lemma ContextIsMissing(d: Descriptor, request: SnapshotRequest)
    ensures Shut(ContextGate, d, request) <==> MissingKeys(d.requiredContextKeys, request.availableContextKeys) != []
  {
  }

  datatype Snapshot = Snapshot(
    capabilities: seq<Descriptor>,
    availability: seq<Availability>,
    availableStepKinds: seq<string>,
    unavailableStepKinds: seq<string>,
    digest: string)

  /** The digest of a snapshot's contents, whatever function computes it. */
  type DigestOf = (seq<Descriptor>, seq<Availability>, seq<string>, seq<string>) -> string

  function KindsWith(availability: seq<Availability>, enabled: bool): seq<string> {
    if availability == [] then []
    else
      var last := availability[|availability| - 1];
      KindsWith(availability[..|availability| - 1], enabled) + (if (last.status == Enabled) == enabled then [last.stepKind] else [])
  }

  lemma {:induction false} KindsWithAre(availability: seq<Availability>, enabled: bool, kind: string)
    ensures kind in KindsWith(availability, enabled) <==>
      exists i :: 0 <= i < |availability| && availability[i].stepKind == kind && (availability[i].status == Enabled) == enabled
  {
    if availability != [] {
      var n := |availability| - 1;
      KindsWithAre(availability[..n], enabled, kind);
      if i :| 0 <= i < n && availability[i].stepKind == kind && (availability[i].status == Enabled) == enabled {
        assert availability[..n][i] == availability[i];
      }
    }
  }

  function KindsOf(availability: seq<Availability>): (r: seq<string>) {
    seq(|availability|, i requires 0 <= i < |availability| => availability[i].stepKind)
  }

  function IsEnabled(enabled: bool): Availability -> bool {
    (a: Availability) => (a.status == Enabled) == enabled
  }

  /** A kind list names the kinds of its records, each as often and in the order they come. */
  lemma {:induction false} KindsInOrder(availability: seq<Availability>, enabled: bool)
    ensures KindsWith(availability, enabled) == KindsOf(Filter(availability, IsEnabled(enabled)))
  {
    if availability != [] {
      KindsInOrder(availability[..|availability| - 1], enabled);
    }
  }

  /** The snapshot lists every descriptor with its own availability, and the kinds that are enabled and those that are not. */
  lemma SnapshotHolds(all: seq<Descriptor>, request: SnapshotRequest, digestOf: DigestOf)
    ensures var s := BuildSnapshot(all, request, digestOf);
      && s.capabilities == all && |s.availability| == |all|
      && (forall i :: 0 <= i < |all| ==> s.availability[i] == Resolve(all[i], request))
      && s.availableStepKinds == KindsOf(Filter(s.availability, IsEnabled(true)))
      && s.unavailableStepKinds == KindsOf(Filter(s.availability, IsEnabled(false)))
      && s.digest == digestOf(s.capabilities, s.availability, s.availableStepKinds, s.unavailableStepKinds)
  {
    var s := BuildSnapshot(all, request, digestOf);
    KindsInOrder(s.availability, true);
    KindsInOrder(s.availability, false);
  }

  function BuildSnapshot(descriptors: seq<Descriptor>, request: SnapshotRequest, digestOf: DigestOf): Snapshot {
    var availability := seq(|descriptors|, i requires 0 <= i < |descriptors| => Resolve(descriptors[i], request));
    var on, off := KindsWith(availability, true), KindsWith(availability, false);
    Snapshot(descriptors, availability, on, off, digestOf(descriptors, availability, on, off))
  }

  // ----- the resolution record -----

  function IdsWith(availability: seq<Availability>, status: CapabilityStatus): seq<string> {
    if availability == [] then []
    else
      var last := availability[|availability| - 1];
      IdsWith(availability[..|availability| - 1], status) + (if last.status == status then [last.capabilityId] else [])
  }

  function HasStatus(status: CapabilityStatus): Availability -> bool {
    (a: Availability) => a.status == status
  }

  /** An id list names the ids of its records, in the order they come. */
  lemma {:induction false} IdsInOrder(availability: seq<Availability>, status: CapabilityStatus)
    ensures IdsWith(availability, status) == IdsOf(Filter(availability, HasStatus(status)))
  {
    if availability != [] {
      IdsInOrder(availability[..|availability| - 1], status);
    }
  }

  const STATUSES: set<CapabilityStatus> := {Enabled, Disabled, Unavailable, Placeholder, Deprecated}

  /** The loop that sorts the capability ids of a snapshot by status. */
  method BuildResolutionRecord(snapshot: Snapshot) returns (byStatus: map<CapabilityStatus, seq<string>>)
    ensures byStatus.Keys == STATUSES
    ensures forall status :: status in STATUSES ==> byStatus[status] == IdsWith(snapshot.availability, status)
  {
    byStatus := map status | status in STATUSES :: [];
    var all := snapshot.availability;
    for i := 0 to |all|
      invariant byStatus.Keys == STATUSES
      invariant forall status :: status in STATUSES ==> byStatus[status] == IdsWith(all[..i], status)
    {
      assert all[..i + 1][..i] == all[..i];
      var a := all[i];
      assert a.status in STATUSES by {
        EveryStatus(a.status);
      }
      byStatus := byStatus[a.status := byStatus[a.status] + [a.capabilityId]];
    }
    assert all[..|all|] == all;
  }

  lemma EveryStatus(status: CapabilityStatus)
    ensures status in STATUSES
  {
    match status {
      case Enabled =>
      case Disabled =>
      case Unavailable =>
      case Placeholder =>
      case Deprecated =>
    }
  }

  function IdsOf(availability: seq<Availability>): seq<string> {
    seq(|availability|, i requires 0 <= i < |availability| => availability[i].capabilityId)
  }

  /** How often an id is among those with the status. */
  function Times(availability: seq<Availability>, status: CapabilityStatus, id: string): nat {
    multiset(IdsWith(availability, status))[id]
  }

  lemma TimesLast(availability: seq<Availability>, status: CapabilityStatus, id: string)
    requires availability != []
    ensures var n, last := |availability| - 1, availability[|availability| - 1];
      Times(availability, status, id) == Times(availability[..n], status, id) + (if last.status == status && last.capabilityId == id then 1 else 0)
  {
  }

  lemma IdsOfLast(availability: seq<Availability>, id: string)
    requires availability != []
    ensures var n, last := |availability| - 1, availability[|availability| - 1];
      multiset(IdsOf(availability))[id] == multiset(IdsOf(availability[..n]))[id] + (if last.capabilityId == id then 1 else 0)
  {
    var n := |availability| - 1;
    assert IdsOf(availability) == IdsOf(availability[..n]) + [availability[n].capabilityId];
  }

  /** The five lists of a record hold every capability of the snapshot exactly as often as the snapshot does. */
  lemma {:induction false} RecordIsComplete(availability: seq<Availability>, id: string)
    ensures multiset(IdsOf(availability))[id] ==
      Times(availability, Enabled, id) + Times(availability, Disabled, id) + Times(availability, Unavailable, id) +
      Times(availability, Placeholder, id) + Times(availability, Deprecated, id)
  {
    if availability != [] {
      var n := |availability| - 1;
      RecordIsComplete(availability[..n], id);
      IdsOfLast(availability, id);
      TimesLast(availability, Enabled, id);
      TimesLast(availability, Disabled, id);
      TimesLast(availability, Unavailable, id);
      TimesLast(availability, Placeholder, id);
      TimesLast(availability, Deprecated, id);
    }
  }
}
