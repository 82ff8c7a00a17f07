/**
  What a redistribution gives to whom, for every pool: each endpoint in service other than
  the changer gets its proportional share, rounded to the nearest integer and corrected by
  at most one according to its rank, and no other endpoint changes.
 */
module TargetShares {
  import opened RoundRobin
  import opened Scheduler
  import opened Redistribution

  // ----- rounding -----

  /** The integer nearest to a number, the even one if two are as near. */
  predicate Nearest(n: int, x: real) {
    var off := n as real - x;
    -0.5 < off < 0.5 || ((off == 0.5 || off == -0.5) && n % 2 == 0)
  }

  lemma NearestIsUnique(m: int, n: int, x: real)
    requires Nearest(m, x) && Nearest(n, x)
    ensures m == n
  {
    assert -1.0 <= (m - n) as real <= 1.0;
  }

  lemma RoundsToNearest(x: real)
    ensures Nearest(RoundHalfEven(x), x)
  {
  }

  // ----- rank -----

  /** The targets that are served before target `p`. */
  function Ahead(weights: seq<int>, p: nat): (ahead: set<nat>)
    requires p < |weights|
  {
    set q: nat | q < |weights| && Before(weights, q, p)
  }

  function Elements(s: seq<nat>): set<nat> {
    if s == [] then {} else Elements(s[..|s| - 1]) + {s[|s| - 1]}
  }

  lemma {:induction false} ElementsAre(s: seq<nat>, p: nat)
    ensures p in Elements(s) <==> p in s
  {
    if s != [] {
      ElementsAre(s[..|s| - 1], p);
      assert s == s[..|s| - 1] + [s[|s| - 1]];
    }
  }

  lemma {:induction false} DistinctElements(s: seq<nat>)
    requires forall i, j :: 0 <= i < j < |s| ==> s[i] != s[j]
    ensures |Elements(s)| == |s|
  {
    if s != [] {
      var front, last := s[..|s| - 1], s[|s| - 1];
      DistinctElements(front);
      ElementsAre(front, last);
    }
  }

  lemma OrderIsDistinct(weights: seq<int>, order: seq<nat>, n: nat)
    requires HeaviestFirstOrder(weights, order) && n <= |order|
    ensures forall j, k :: 0 <= j < k < n ==> order[..n][j] != order[..n][k]
  {
    forall j, k | 0 <= j < k < n
      ensures order[j] != order[k]
    {
      assert Before(weights, order[j], order[k]);
    }
  }

  lemma RankIn(weights: seq<int>, order: seq<nat>, i: nat)
    requires HeaviestFirstOrder(weights, order) && i < |order|
    requires forall q: nat :: q < |weights| <==> q in order
    ensures |Ahead(weights, order[i])| == i
  {
    AheadIsFront(weights, order, i);
    OrderIsDistinct(weights, order, i);
    DistinctElements(order[..i]);
  }

  /** The position of a target in the order of correction is the number of those ahead of it. */
  lemma RankIsPosition(weights: seq<int>, i: nat)
    requires i < |weights|
    ensures var order := HeaviestFirst(weights);
      order[i] < |weights| && |Ahead(weights, order[i])| == i
  {
    RankIn(weights, HeaviestFirst(weights), i);
  }

  lemma AheadIsFront(weights: seq<int>, order: seq<nat>, i: nat)
    requires HeaviestFirstOrder(weights, order) && i < |order|
    requires forall q: nat :: q < |weights| <==> q in order
    ensures Ahead(weights, order[i]) == Elements(order[..i])
  {
    forall q: nat
      ensures q in Ahead(weights, order[i]) <==> q in Elements(order[..i])
    {
      ElementsAre(order[..i], q);
      if q < |weights| {
        AheadIsInFront(weights, order, i, q);
      }
    }
  }

  lemma AheadIsInFront(weights: seq<int>, order: seq<nat>, i: nat, q: nat)
    requires HeaviestFirstOrder(weights, order) && i < |order| && q in order
    ensures q < |weights| && (Before(weights, q, order[i]) <==> q in order[..i])
  {
    var j :| 0 <= j < |order| && order[j] == q;
    if j < i {
      assert Before(weights, order[j], order[i]) && order[..i][j] == q;
    } else {
      NotAhead(weights, order, i, j);
    }
  }

  lemma NotAhead(weights: seq<int>, order: seq<nat>, i: nat, j: nat)
    requires HeaviestFirstOrder(weights, order) && i <= j < |order|
    ensures !Before(weights, order[j], order[i]) && order[j] !in order[..i]
  {
    if i < j {
      assert Before(weights, order[i], order[j]);
    }
    forall k | 0 <= k < i
      ensures order[..i][k] != order[j]
    {
      assert Before(weights, order[k], order[j]);
    }
  }

  // ----- shares -----

  /** How far a share is moved from its rounded value to use up what the rounding left over. */
  function Correction(residual: int, rank: nat): int {
    if residual < 0 then -1 else if rank < residual then 1 else 0
  }

  /** The shares of `delta` by weight: nearest to proportional, and corrected. */
  ghost predicate FairShares(shares: seq<int>, rounded: seq<int>, delta: int, weights: seq<int>, baseSum: int)
    requires baseSum != 0
  {
    && |shares| == |rounded| == |weights|
    && (forall k :: 0 <= k < |weights| ==> Nearest(rounded[k], Exact(delta, weights[k], baseSum)))
    && (forall k :: 0 <= k < |weights| ==> shares[k] == rounded[k] + Correction(delta - Sum(rounded), |Ahead(weights, k)|))
  }

  /** The share of `delta` in proportion to a weight. */
  function Exact(delta: int, weight: int, baseSum: int): real
    requires baseSum != 0
  {
    (delta * weight) as real / baseSum as real
  }

  lemma Proportional(delta: int, weight: int, baseSum: int)
    requires baseSum != 0
    ensures delta as real * (weight as real / baseSum as real) == Exact(delta, weight, baseSum)
  {
    var d, w, b := delta as real, weight as real, baseSum as real;
    assert (delta * weight) as real == d * w;
    assert w / b * b == w;
    assert d * (w / b) * b == d * w;
  }

  lemma ShareIsNearest(delta: int, weight: int, baseSum: int)
    requires baseSum != 0
    ensures Nearest(Share(delta, weight, baseSum), Exact(delta, weight, baseSum))
  {
    Proportional(delta, weight, baseSum);
    RoundsToNearest(delta as real * (weight as real / baseSum as real));
  }

  lemma SharesAreFair(delta: int, weights: seq<int>, baseSum: int)
    requires baseSum != 0
    ensures FairShares(CorrectedShares(delta, weights, baseSum), RoundedShares(delta, weights, baseSum), delta, weights, baseSum)
  {
    var rounded, order := RoundedShares(delta, weights, baseSum), HeaviestFirst(weights);
    var residual := delta - Sum(rounded);
    forall k | 0 <= k < |weights|
      ensures Nearest(rounded[k], Exact(delta, weights[k], baseSum))
      ensures Compensated(rounded, order, residual)[k] == rounded[k] + Correction(residual, |Ahead(weights, k)|)
    {
      ShareIsNearest(delta, weights[k], baseSum);
      assert k in order;
      var i :| 0 <= i < |order| && order[i] == k;
      RankIsPosition(weights, i);
      assert forall j, l :: 0 <= j < l < |order| ==> Before(weights, order[j], order[l]);
      CompensatedAt(rounded, order, residual, i);
    }
  }

  /** A share is within three halves of the proportional one, and within one half if it is not corrected. */
  lemma SharesAreNear(shares: seq<int>, rounded: seq<int>, delta: int, weights: seq<int>, baseSum: int, k: nat)
    requires baseSum != 0 && FairShares(shares, rounded, delta, weights, baseSum) && k < |weights|
    ensures var exact := Exact(delta, weights[k], baseSum);
      && -1.5 <= shares[k] as real - exact <= 1.5
      && (shares[k] == rounded[k] ==> -0.5 <= shares[k] as real - exact <= 0.5)
  {
    assert Nearest(rounded[k], Exact(delta, weights[k], baseSum));
  }

  // ----- the pool -----

  /** Looked at, the endpoint is in service: it was not stopped, or its cool-down is over. */
  predicate InService(s: ApiState, now: real) {
    s.status != Stopped || now > s.coolEnding
  }

  /** The endpoint after it was looked at and given its share. */
  ghost predicate Given(s: ApiState, config: ApiConfig, share: int, now: real, after: ApiState) {
    var back := s.status == Stopped;
    var weight := s.dynamicWeight + (if back then config.recoverStep else 0) + share;
    after ==
      if weight < 0 then ApiState(Stopped, 0, s.swrrWeight, 0, now + config.coolDown)
      else
        ApiState(if share < 0 || back then Recovering else s.status, weight, s.swrrWeight, s.failCount,
          if back then 0.0 else s.coolEnding)
  }

  lemma GivenByAdapting(s: ApiState, config: ApiConfig, share: int, now: real)
    requires InService(s, now)
    ensures Given(s, config, share, now, Adapted(Refreshed(s, config, now), config, share, now))
  {
  }

  lemma {:induction false} AppliedAt(states: seq<ApiState>, configs: seq<ApiConfig>, targets: seq<nat>, shares: seq<int>, now: real, k: nat)
    requires |states| == |configs| && |targets| == |shares| && k < |targets|
    requires forall i :: 0 <= i < |targets| ==> targets[i] < |states|
    requires forall i, j :: 0 <= i < j < |targets| ==> targets[i] < targets[j]
    ensures Applied(states, configs, targets, shares, now)[targets[k]] ==
      Adapted(states[targets[k]], configs[targets[k]], shares[k], now)
  {
    var n := |targets| - 1;
    if k < n {
      AppliedAt(states, configs, targets[..n], shares[..n], now, k);
    } else {
      AppliedElsewhere(states, configs, targets[..n], shares[..n], now, targets[n]);
    }
  }

  /** The endpoints that share: all in service but the changer, in pool order. */
  ghost predicate Sharers(targets: seq<nat>, states: seq<ApiState>, configs: seq<ApiConfig>, changer: string, now: real)
    requires |states| == |configs|
  {
    && (forall j, k :: 0 <= j < k < |targets| ==> targets[j] < targets[k])
    && (forall i :: i in targets <==> 0 <= i < |states| && configs[i].interfaceId != changer && InService(states[i], now))
  }

  lemma TargetsShare(states: seq<ApiState>, configs: seq<ApiConfig>, changer: string, now: real)
    requires |states| == |configs|
    ensures var selected := Selected(states, configs, changer, now);
      Sharers(Targets(selected, configs, changer, |selected|), states, configs, changer, now)
  {
    var selected := Selected(states, configs, changer, now);
    TargetsAre(selected, configs, changer, |selected|);
    forall i | 0 <= i < |states| && configs[i].interfaceId != changer
      ensures selected[i].status != Stopped <==> InService(states[i], now)
    {
    }
  }

  /** What a redistribution by these shares leaves, field by field; every endpoint that does not share keeps its state. */
  ghost predicate SharedOut(states: seq<ApiState>, configs: seq<ApiConfig>, changer: string, delta: int, baseSum: int, now: real,
                            after: seq<ApiState>, targets: seq<nat>, weights: seq<int>, rounded: seq<int>, shares: seq<int>)
    requires |states| == |configs| && baseSum != 0
  {
    && |after| == |states| && |weights| == |targets|
    && Sharers(targets, states, configs, changer, now)
    && (forall k :: 0 <= k < |targets| ==> targets[k] < |configs| && weights[k] == configs[targets[k]].baseWeight)
    && FairShares(shares, rounded, delta, weights, baseSum)
    && (forall k :: 0 <= k < |targets| ==> Given(states[targets[k]], configs[targets[k]], shares[k], now, after[targets[k]]))
    && (forall i :: 0 <= i < |states| && i !in targets ==> after[i] == states[i])
  }

  /**
    A redistribution field by field: the endpoints in service other than the changer get
    their fair shares, by base weight, and every other endpoint keeps its state.
   */
  lemma RedistributionIs(states: seq<ApiState>, configs: seq<ApiConfig>, changer: string, delta: int, baseSum: int, now: real)
    returns (targets: seq<nat>, weights: seq<int>, rounded: seq<int>, shares: seq<int>)
    requires |states| == |configs| && baseSum != 0
    ensures SharedOut(states, configs, changer, delta, baseSum, now,
      Redistributed(states, configs, changer, delta, baseSum, now), targets, weights, rounded, shares)
  {
    var selected := Selected(states, configs, changer, now);
    targets := Targets(selected, configs, changer, |selected|);
    weights := WeightsOf(configs, targets);
    rounded, shares := RoundedShares(delta, weights, baseSum), CorrectedShares(delta, weights, baseSum);
    TargetsShare(states, configs, changer, now);
    SharesAreFair(delta, weights, baseSum);
    ghost var after := Redistributed(states, configs, changer, delta, baseSum, now);
    forall k | 0 <= k < |targets|
      ensures Given(states[targets[k]], configs[targets[k]], shares[k], now, after[targets[k]])
    {
      assert targets[k] in targets;
      AppliedAt(selected, configs, targets, shares, now, k);
      GivenByAdapting(states[targets[k]], configs[targets[k]], shares[k], now);
    }
    forall i | 0 <= i < |states| && i !in targets
      ensures after[i] == states[i]
    {
      OthersUntouched(states, configs, changer, delta, baseSum, now, i);
    }
  }
}
