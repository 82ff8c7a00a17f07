/**
  What a report on a call does, case by case and field by field, and how far apart the
  recoveries are that reports of success share out.
 */
module ReportEffects {
  import opened RoundRobin
  import opened Scheduler
  import opened Redistribution
  import opened WeightUpdate
  import opened TargetShares

  /** The endpoint a report is about, after the report was counted. */
  ghost predicate Counted(s: ApiState, config: ApiConfig, success: bool, now: real, after: ApiState) {
    var back := s.status == Stopped && now > s.coolEnding;
    after == ApiState(
      if back then Recovering else s.status,
      s.dynamicWeight + (if back then config.recoverStep else 0),
      s.swrrWeight,
      if success then 0 else s.failCount + 1,
      if back then 0.0 else s.coolEnding)
  }

  /** Once counted, the endpoint is recovering and no recovery was shared out too recently. */
  predicate MayRecover(s: ApiState, breakTime: real, now: real) {
    (s.status == Recovering || (s.status == Stopped && now > s.coolEnding)) && now > breakTime
  }

  /** A report that shares nothing out: a success of an endpoint that is not recovering, or not yet again. */
  lemma ReportCounts(states: seq<ApiState>, configs: seq<ApiConfig>, last: nat, baseSum: int, adaptInterval: int, breakTime: real, now: real)
    requires last < |states| == |configs| && !MayRecover(states[last], breakTime, now)
    ensures var r := Updating(states, configs, last, true, baseSum, adaptInterval, breakTime, now);
      && |r.states| == |states| && Counted(states[last], configs[last], true, now, r.states[last])
      && (forall i :: 0 <= i < |states| && i != last ==> r.states[i] == states[i])
      && r.breakTime == breakTime
      && r.outcome == if states[last].status == Stopped && now <= states[last].coolEnding then ImpossibleStatus else Updated
  {
  }

  /** What a report shares out: a failure the decay step, a success that may recover the recovery step. */
  function ReportedDelta(config: ApiConfig, success: bool): int {
    if success then config.recoverStep else config.decayStep
  }

  /**
    A report that shares out: `counted` is the pool with the report counted, and the others
    get their fair shares; a recovery closes the interval in which no other is shared out.
   */
  lemma ReportShares(states: seq<ApiState>, configs: seq<ApiConfig>, last: nat, success: bool, baseSum: int, adaptInterval: int,
                     breakTime: real, now: real)
    returns (counted: seq<ApiState>, targets: seq<nat>, weights: seq<int>, rounded: seq<int>, shares: seq<int>)
    requires last < |states| == |configs| && baseSum != 0
    requires success ==> MayRecover(states[last], breakTime, now)
    ensures |counted| == |states| && Counted(states[last], configs[last], success, now, counted[last])
    ensures forall i :: 0 <= i < |states| && i != last ==> counted[i] == states[i]
    ensures var r := Updating(states, configs, last, success, baseSum, adaptInterval, breakTime, now);
      && SharedOut(counted, configs, configs[last].interfaceId, ReportedDelta(configs[last], success), baseSum, now,
           r.states, targets, weights, rounded, shares)
      && r.outcome == Updated
      && r.breakTime == if success then now + adaptInterval as real else breakTime
  {
    counted := states[last := Reported(states[last], configs[last], success, now)];
    targets, weights, rounded, shares :=
      RedistributionIs(counted, configs, configs[last].interfaceId, ReportedDelta(configs[last], success), baseSum, now);
  }

  /** Some endpoint could get a share of what the changer causes. */
  ghost predicate SomeSharer(states: seq<ApiState>, configs: seq<ApiConfig>, changer: string, now: real)
    requires |states| == |configs|
  {
    exists i :: 0 <= i < |states| && configs[i].interfaceId != changer && InService(states[i], now)
  }

  lemma SharersAreTargets(states: seq<ApiState>, configs: seq<ApiConfig>, changer: string, now: real)
    requires |states| == |configs|
    ensures AnyTarget(states, configs, changer, now) <==> SomeSharer(states, configs, changer, now)
  {
    var targets := Targets(Selected(states, configs, changer, now), configs, changer, |states|);
    TargetsShare(states, configs, changer, now);
    if SomeSharer(states, configs, changer, now) {
      var i :| 0 <= i < |states| && configs[i].interfaceId != changer && InService(states[i], now);
      assert i in targets;
    }
    if targets != [] {
      assert targets[0] in targets;
    }
  }

  lemma SharerElsewhere(states: seq<ApiState>, configs: seq<ApiConfig>, last: nat, s: ApiState, now: real)
    requires last < |states| == |configs|
    ensures SomeSharer(states[last := s], configs, configs[last].interfaceId, now) <==>
      SomeSharer(states, configs, configs[last].interfaceId, now)
  {
    var changed := states[last := s];
    assert forall i :: 0 <= i < |states| && configs[i].interfaceId != configs[last].interfaceId ==> changed[i] == states[i];
  }

  /** Looking at an endpoint whose cool-down is over brings it back. */
  ghost predicate LookedOver(s: ApiState, config: ApiConfig, now: real, after: ApiState) {
    after ==
      if s.status == Stopped && now > s.coolEnding then
        ApiState(Recovering, s.dynamicWeight + config.recoverStep, s.swrrWeight, s.failCount, 0.0)
      else s
  }

  lemma NothingToShare(states: seq<ApiState>, configs: seq<ApiConfig>, changer: string, delta: int, now: real, i: nat)
    requires i < |states| == |configs|
    ensures var after := Redistributed(states, configs, changer, delta, 0, now);
      |after| == |states| &&
      if configs[i].interfaceId == changer then after[i] == states[i] else LookedOver(states[i], configs[i], now, after[i])
  {
  }

  /**
    With no base weight in the pool, a report that has something to share out to someone
    raises, after it was counted and the others were looked at.
   */
  lemma ReportDivides(states: seq<ApiState>, configs: seq<ApiConfig>, last: nat, success: bool, adaptInterval: int, breakTime: real, now: real)
    requires last < |states| == |configs|
    requires success ==> MayRecover(states[last], breakTime, now)
    ensures var r := Updating(states, configs, last, success, 0, adaptInterval, breakTime, now);
      var raises := SomeSharer(states, configs, configs[last].interfaceId, now);
      && r.outcome == (if raises then DivisionByZero else Updated)
      && r.breakTime == (if success && !raises then now + adaptInterval as real else breakTime)
      && |r.states| == |states| && Counted(states[last], configs[last], success, now, r.states[last])
      && forall i :: 0 <= i < |states| && i != last ==>
           if configs[i].interfaceId == configs[last].interfaceId then r.states[i] == states[i]
           else LookedOver(states[i], configs[i], now, r.states[i])
  {
    var reported := Reported(states[last], configs[last], success, now);
    forall i | 0 <= i < |states| && i != last
      ensures var r := Updating(states, configs, last, success, 0, adaptInterval, breakTime, now);
        i < |r.states| &&
        if configs[i].interfaceId == configs[last].interfaceId then r.states[i] == states[i]
        else LookedOver(states[i], configs[i], now, r.states[i])
    {
      NothingToShare(states[last := reported], configs, configs[last].interfaceId, ReportedDelta(configs[last], success), now, i);
    }
    SharerElsewhere(states, configs, last, reported, now);
    SharersAreTargets(states[last := reported], configs, configs[last].interfaceId, now);
    SharingOf(states, configs, last, success, 0, adaptInterval, breakTime, now);
  }

  /** How a report that shares out is settled. */
  lemma SharingOf(states: seq<ApiState>, configs: seq<ApiConfig>, last: nat, success: bool, baseSum: int, adaptInterval: int,
                  breakTime: real, now: real)
    requires last < |states| == |configs|
    requires success ==> MayRecover(states[last], breakTime, now)
    ensures var counted := states[last := Reported(states[last], configs[last], success, now)];
      var r := Updating(states, configs, last, success, baseSum, adaptInterval, breakTime, now);
      var raises := baseSum == 0 && AnyTarget(counted, configs, configs[last].interfaceId, now);
      && r.outcome == (if raises then DivisionByZero else Updated)
      && r.breakTime == (if success && !raises then now + adaptInterval as real else breakTime)
      && |r.states| == |states| && Counted(states[last], configs[last], success, now, r.states[last])
  {
    ReporterUntouched(states, configs, last, success, baseSum, adaptInterval, breakTime, now);
  }

  // ----- recoveries are paced -----

  /** A report as it arrives: the pool it finds, and what it says. */
  datatype Arrival = Arrival(states: seq<ApiState>, configs: seq<ApiConfig>, last: nat, success: bool, baseSum: int, now: real)

  ghost predicate Arrives(a: Arrival) {
    a.last < |a.states| == |a.configs|
  }

  /** The report shares a recovery out. */
  ghost predicate Recovers(a: Arrival, adaptInterval: int, breakTime: real) {
    && Arrives(a) && a.success && MayRecover(a.states[a.last], breakTime, a.now)
    && Updating(a.states, a.configs, a.last, true, a.baseSum, adaptInterval, breakTime, a.now).outcome == Updated
  }

  ghost function Closes(a: Arrival, adaptInterval: int, breakTime: real): real {
    if Arrives(a) then Updating(a.states, a.configs, a.last, a.success, a.baseSum, adaptInterval, breakTime, a.now).breakTime
    else breakTime
  }

  /** A report seen by the end of the interval alone: whether it recovers, and the end it leaves. */
  datatype Visit = Visit(recovers: real -> bool, closes: real -> real, now: real)

  ghost function VisitOf(a: Arrival, adaptInterval: int): Visit {
    Visit(breakTime => Recovers(a, adaptInterval, breakTime), breakTime => Closes(a, adaptInterval, breakTime), a.now)
  }

  ghost function VisitsOf(arrivals: seq<Arrival>, adaptInterval: int): (r: seq<Visit>) {
    seq(|arrivals|, i requires 0 <= i < |arrivals| => VisitOf(arrivals[i], adaptInterval))
  }

  ghost predicate Paced(v: Visit, adaptInterval: int) {
    forall breakTime ::
      if v.recovers(breakTime) then v.closes(breakTime) == v.now + adaptInterval as real && v.now > breakTime
      else v.closes(breakTime) == breakTime
  }

  lemma ReportIsPaced(a: Arrival, adaptInterval: int)
    ensures Paced(VisitOf(a, adaptInterval), adaptInterval)
  {
    forall breakTime
      ensures Closes(a, adaptInterval, breakTime) ==
        if Recovers(a, adaptInterval, breakTime) then a.now + adaptInterval as real else breakTime
      ensures Recovers(a, adaptInterval, breakTime) ==> a.now > breakTime
    {
      if Arrives(a) {
        OneReport(a, adaptInterval, breakTime);
      }
    }
  }

  lemma OneReport(a: Arrival, adaptInterval: int, breakTime: real)
    requires Arrives(a)
    ensures Closes(a, adaptInterval, breakTime) ==
      if Recovers(a, adaptInterval, breakTime) then a.now + adaptInterval as real else breakTime
    ensures Recovers(a, adaptInterval, breakTime) ==> a.now > breakTime
  {
    if !a.success || MayRecover(a.states[a.last], breakTime, a.now) {
      SharingOf(a.states, a.configs, a.last, a.success, a.baseSum, adaptInterval, breakTime, a.now);
    } else {
      ReportCounts(a.states, a.configs, a.last, a.baseSum, adaptInterval, breakTime, a.now);
    }
  }

  /** The end of the interval after these reports, whatever happened to the pool in between. */
  ghost function BreakTime(visits: seq<Visit>, breakTime: real): real {
    if visits == [] then breakTime
    else visits[|visits| - 1].closes(BreakTime(visits[..|visits| - 1], breakTime))
  }

  ghost predicate RecoversAt(visits: seq<Visit>, i: nat, breakTime: real)
    requires i < |visits|
  {
    visits[i].recovers(BreakTime(visits[..i], breakTime))
  }

  lemma {:induction false} IntervalKept(visits: seq<Visit>, i: nat, adaptInterval: int, breakTime: real)
    requires adaptInterval >= 0 && i < |visits| && RecoversAt(visits, i, breakTime)
    requires forall k :: 0 <= k < |visits| ==> Paced(visits[k], adaptInterval)
    ensures BreakTime(visits, breakTime) >= visits[i].now + adaptInterval as real
  {
    var n := |visits| - 1;
    assert Paced(visits[n], adaptInterval);
    if i < n {
      assert visits[..n][..i] == visits[..i];
      IntervalKept(visits[..n], i, adaptInterval, breakTime);
    }
  }

  /** Over any reports, with anything happening to the pool in between, recoveries are shared out more than the interval apart. */
  lemma RecoveriesArePaced(arrivals: seq<Arrival>, i: nat, j: nat, adaptInterval: int, breakTime: real)
    requires adaptInterval >= 0 && i < j < |arrivals|
    requires var visits := VisitsOf(arrivals, adaptInterval);
      RecoversAt(visits, i, breakTime) && RecoversAt(visits, j, breakTime)
    ensures arrivals[j].now > arrivals[i].now + adaptInterval as real
  {
    var visits := VisitsOf(arrivals, adaptInterval);
    forall k | 0 <= k < |visits|
      ensures Paced(visits[k], adaptInterval)
    {
      ReportIsPaced(arrivals[k], adaptInterval);
    }
    assert visits[..j][..i] == visits[..i];
    IntervalKept(visits[..j], i, adaptInterval, breakTime);
    assert Paced(visits[j], adaptInterval);
  }

  // ----- the documented range of the weights -----

  /** The lower end holds: no report leaves a weight below zero. */
  lemma WeightsStayNonNegative(states: seq<ApiState>, configs: seq<ApiConfig>, last: nat, success: bool, baseSum: int,
                               adaptInterval: int, breakTime: real, now: real, i: nat)
    requires last < |states| == |configs| && i < |states|
    requires forall j :: 0 <= j < |states| ==> states[j].dynamicWeight >= 0 && configs[j].recoverStep >= 0
    ensures var r := Updating(states, configs, last, success, baseSum, adaptInterval, breakTime, now);
      |r.states| == |states| && r.states[i].dynamicWeight >= 0
  {
    if success && !MayRecover(states[last], breakTime, now) {
      ReportCounts(states, configs, last, baseSum, adaptInterval, breakTime, now);
    } else if baseSum == 0 {
      ReportDivides(states, configs, last, success, adaptInterval, breakTime, now);
    } else {
      var counted, targets, weights, rounded, shares :=
        ReportShares(states, configs, last, success, baseSum, adaptInterval, breakTime, now);
      SharedNonNegative(counted, configs, configs[last].interfaceId, ReportedDelta(configs[last], success), baseSum, now,
        Updating(states, configs, last, success, baseSum, adaptInterval, breakTime, now).states, targets, weights, rounded, shares, i);
    }
  }

  lemma SharedNonNegative(states: seq<ApiState>, configs: seq<ApiConfig>, changer: string, delta: int, baseSum: int, now: real,
                          after: seq<ApiState>, targets: seq<nat>, weights: seq<int>, rounded: seq<int>, shares: seq<int>, i: nat)
    requires |states| == |configs| && baseSum != 0 && i < |states| && states[i].dynamicWeight >= 0
    requires SharedOut(states, configs, changer, delta, baseSum, now, after, targets, weights, rounded, shares)
    ensures after[i].dynamicWeight >= 0
  {
    if i in targets {
      var k :| 0 <= k < |targets| && targets[k] == i;
      assert Given(states[targets[k]], configs[targets[k]], shares[k], now, after[targets[k]]);
    }
  }

  /** The upper end does not: in any fresh pool of two, a failure lifts the other endpoint above its base weight. */
  lemma FailureExceedsBase(a: ApiConfig, b: ApiConfig, adaptInterval: int, breakTime: real, now: real)
    requires a.interfaceId != b.interfaceId && a.baseWeight > 0 && b.baseWeight > 0 && a.decayStep > 0
    ensures var configs := [a, b];
      var r := Updating(FreshPool(configs), configs, 0, false, a.baseWeight + b.baseWeight, adaptInterval, breakTime, now);
      && |r.states| == 2 && r.states[0].dynamicWeight == a.baseWeight && r.states[1].dynamicWeight > b.baseWeight
  {
    var configs, baseSum := [a, b], a.baseWeight + b.baseWeight;
    var states := FreshPool(configs);
    var counted, targets, weights, rounded, shares :=
      ReportShares(states, configs, 0, false, baseSum, adaptInterval, breakTime, now);
    OtherGains(counted, configs, a.decayStep, baseSum, now,
      Updating(states, configs, 0, false, baseSum, adaptInterval, breakTime, now).states, targets, weights, rounded, shares);
  }

  lemma OtherGains(states: seq<ApiState>, configs: seq<ApiConfig>, delta: int, baseSum: int, now: real, after: seq<ApiState>,
                   targets: seq<nat>, weights: seq<int>, rounded: seq<int>, shares: seq<int>)
    requires |states| == |configs| == 2 && baseSum > 0 && delta > 0
    requires configs[0].interfaceId != configs[1].interfaceId && configs[1].baseWeight > 0
    requires states[1].status == Activated && states[1].dynamicWeight >= 0
    requires SharedOut(states, configs, configs[0].interfaceId, delta, baseSum, now, after, targets, weights, rounded, shares)
    ensures after[0] == states[0] && after[1].dynamicWeight > states[1].dynamicWeight
  {
    assert 0 !in targets && 1 in targets;
    OnlyTarget(targets);
    assert weights == [configs[1].baseWeight];
    OnlyShare(delta, configs[1].baseWeight, baseSum, rounded, shares);
    assert Given(states[targets[0]], configs[targets[0]], shares[0], now, after[targets[0]]);
  }

  lemma SecondDiffers(targets: seq<nat>, i: nat)
    requires |targets| > 1 && targets[0] != targets[1]
    ensures exists j :: j in targets && j != i
  {
    assert targets[0] in targets && targets[1] in targets;
  }

  lemma OnlyTarget(targets: seq<nat>)
    requires forall j, k :: 0 <= j < k < |targets| ==> targets[j] < targets[k]
    requires forall i :: i in targets <==> i == 1
    ensures targets == [1]
  {
    assert 1 in targets;
    assert forall k :: 0 <= k < |targets| ==> targets[k] in targets;
    if |targets| > 1 {
      SecondDiffers(targets, 1);
    }
  }

  /** A single target gets something of anything positive. */
  lemma OnlyShare(delta: int, weight: int, baseSum: int, rounded: seq<int>, shares: seq<int>)
    requires delta > 0 && weight > 0 && baseSum > 0 && FairShares(shares, rounded, delta, [weight], baseSum)
    ensures shares[0] >= 1
  {
    assert Nearest(rounded[0], Exact(delta, weight, baseSum));
    assert (delta * weight) as real >= 0.0;
    assert Exact(delta, weight, baseSum) >= 0.0;
    assert Sum(rounded) == rounded[0];
    assert Ahead([weight], 0) == {};
  }
}
