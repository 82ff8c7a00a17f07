/** Redistributing a weight change over the other live endpoints of the pool. */
module Redistribution {
  import opened RoundRobin
  import opened Scheduler

  // ----- shares and their correction -----

  /** Python's rounding of a number to the nearest integer, halves to the even one. */
  function RoundHalfEven(x: real): (n: int)
    ensures -0.5 <= n as real - x <= 0.5
  {
    var f := x.Floor;
    var frac := x - f as real;
    if frac < 0.5 then f
    else if frac > 0.5 then f + 1
    else if f % 2 == 0 then f
    else f + 1
  }

  /** The rounded share of one target. */
  function Share(delta: int, weight: int, baseSum: int): int
    requires baseSum != 0
  {
    RoundHalfEven(delta as real * (weight as real / baseSum as real))
  }

  /** The rounded share of `delta` of every target. */
  function RoundedShares(delta: int, targets: seq<int>, baseSum: int): (r: seq<int>)
    requires baseSum != 0
  {
    seq(|targets|, i requires 0 <= i < |targets| => Share(delta, targets[i], baseSum))
  }

  /** `a` is served before `b`: it is heavier, or as heavy and earlier in the pool. */
  predicate Before(weights: seq<int>, a: nat, b: nat)
    requires a < |weights| && b < |weights|
  {
    weights[a] > weights[b] || (weights[a] == weights[b] && a < b)
  }

  ghost predicate HeaviestFirstOrder(weights: seq<int>, order: seq<nat>) {
    && (forall i :: 0 <= i < |order| ==> order[i] < |weights|)
    && (forall i, j :: 0 <= i < j < |order| ==> Before(weights, order[i], order[j]))
  }

  /** Every position once, heaviest first, positions of equal weight in their given order. */
  function HeaviestFirst(weights: seq<int>): (order: seq<nat>)
    ensures |order| == |weights| && HeaviestFirstOrder(weights, order)
    ensures forall p :: p in order <==> 0 <= p < |weights|
  {
    if weights == [] then []
    else
      var n := |weights| - 1;
      var rest := HeaviestFirst(weights[..n]);
      OrderOfMore(weights, rest, n);
      InsertKeepsOrder(weights, rest, n);
      InsertByWeight(weights, rest, n)
  }

  /** A position goes in front of the lighter ones at the end. */
  function InsertByWeight(weights: seq<int>, order: seq<nat>, k: nat): (r: seq<nat>)
    requires k < |weights| && forall i :: 0 <= i < |order| ==> order[i] < |weights|
    ensures |r| == |order| + 1 && forall p :: p in r <==> p == k || p in order
  {
    if order == [] || weights[order[|order| - 1]] >= weights[k] then order + [k]
    else InsertByWeight(weights, order[..|order| - 1], k) + [order[|order| - 1]]
  }

  lemma OrderOfMore(weights: seq<int>, order: seq<nat>, n: nat)
    requires n <= |weights| && HeaviestFirstOrder(weights[..n], order)
    ensures HeaviestFirstOrder(weights, order)
  {
    forall i, j | 0 <= i < j < |order|
      ensures Before(weights, order[i], order[j])
    {
      assert Before(weights[..n], order[i], order[j]);
    }
  }

  lemma {:induction false} InsertKeepsOrder(weights: seq<int>, order: seq<nat>, k: nat)
    requires k < |weights| && HeaviestFirstOrder(weights, order)
    requires forall i :: 0 <= i < |order| ==> order[i] < k
    ensures HeaviestFirstOrder(weights, InsertByWeight(weights, order, k))
  {
    var r := InsertByWeight(weights, order, k);
    forall i | 0 <= i < |r|
      ensures r[i] < |weights|
    {
      assert r[i] in r;
    }
    var n := |order| - 1;
    if order == [] {
    } else if weights[order[n]] >= weights[k] {
      forall i | 0 <= i <= n
        ensures Before(weights, order[i], k)
      {
        assert i < n ==> Before(weights, order[i], order[n]);
      }
    } else {
      InsertKeepsOrder(weights, order[..n], k);
      InsertBeforeLast(weights, order, k);
    }
  }

  lemma InsertBeforeLast(weights: seq<int>, order: seq<nat>, k: nat)
    requires k < |weights| && order != [] && HeaviestFirstOrder(weights, order)
    requires weights[order[|order| - 1]] < weights[k]
    requires HeaviestFirstOrder(weights, InsertByWeight(weights, order[..|order| - 1], k))
    ensures HeaviestFirstOrder(weights, InsertByWeight(weights, order, k))
  {
    var n := |order| - 1;
    var front := InsertByWeight(weights, order[..n], k);
    forall i | 0 <= i < |front|
      ensures Before(weights, front[i], order[n])
    {
      assert front[i] in front;
      if front[i] != k {
        var m :| 0 <= m < n && order[..n][m] == front[i];
        assert Before(weights, order[m], order[n]);
      }
    }
  }

  /**
    The correction loop: one target after the other is raised or lowered by one until the
    residual is used up.  The residual is lowered by one in both cases.
   */
  function Compensated(rounded: seq<int>, order: seq<nat>, residual: int): (r: seq<int>)
    requires forall i :: 0 <= i < |order| ==> order[i] < |rounded|
    ensures |r| == |rounded|
    decreases |order|
  {
    if order == [] || residual == 0 then rounded
    else
      var step := if residual > 0 then 1 else -1;
      Compensated(rounded[order[0] := rounded[order[0]] + step], order[1..], residual - 1)
  }

  method Compensate(rounded: array<int>, order: seq<nat>, delta: int)
    requires forall i :: 0 <= i < |order| ==> order[i] < rounded.Length
    modifies rounded
    ensures rounded[..] == Compensated(old(rounded[..]), order, delta - Sum(old(rounded[..])))
  {
    var total := 0;
    for i := 0 to rounded.Length
      invariant total == Sum(rounded[..i])
    {
      assert rounded[..i + 1][..i] == rounded[..i];
      total := total + rounded[i];
    }
    assert rounded[..rounded.Length] == rounded[..];
    ghost var was := rounded[..];
    var residual, i := delta - total, 0;
    while i < |order| && residual != 0
      invariant 0 <= i <= |order|
      invariant Compensated(was, order, delta - total) == Compensated(rounded[..], order[i..], residual)
      decreases |order| - i
    {
      assert order[i..][1..] == order[i + 1..];
      ghost var before := rounded[..];
      if residual > 0 {
        rounded[order[i]] := rounded[order[i]] + 1;
        residual := residual - 1;
      } else {
        rounded[order[i]] := rounded[order[i]] - 1;
        residual := residual - 1;
      }
      assert rounded[..] == before[order[i] := rounded[order[i]]];
      i := i + 1;
    }
  }

  lemma {:induction false} CompensatedSum(rounded: seq<int>, order: seq<nat>, residual: int)
    requires forall i :: 0 <= i < |order| ==> order[i] < |rounded|
    ensures Sum(Compensated(rounded, order, residual)) ==
      Sum(rounded) + (if residual < 0 then -|order| else if residual <= |order| then residual else |order|)
    decreases |order|
  {
    if order != [] && residual != 0 {
      var step := if residual > 0 then 1 else -1;
      SumUpdate(rounded, order[0], rounded[order[0]] + step);
      CompensatedSum(rounded[order[0] := rounded[order[0]] + step], order[1..], residual - 1);
    }
  }

  /**
    The corrected shares add up to `delta` exactly when the residual lies between zero and
    the number of targets, or is minus the number of targets: a negative residual is never
    used up, and every target is lowered.
   */
  lemma CorrectionIsExact(rounded: seq<int>, order: seq<nat>, delta: int)
    requires forall i :: 0 <= i < |order| ==> order[i] < |rounded|
    ensures Sum(Compensated(rounded, order, delta - Sum(rounded))) == delta <==>
      0 <= delta - Sum(rounded) <= |order| || delta - Sum(rounded) == -|order|
  {
    CompensatedSum(rounded, order, delta - Sum(rounded));
  }

  /**
    Two ways to miss `delta`: with two endpoints of the default weight 80 a change of 20
    leaves the single target at 11, and with weights 1, 1 and 0 a change of 3 is rounded up
    twice, after which both targets are lowered.
   */
  lemma CorrectionCanMiss()
    ensures RoundedShares(20, [80], 160) == [10] && Compensated([10], HeaviestFirst([80]), 20 - 10) == [11]
    ensures RoundedShares(3, [1, 1], 2) == [2, 2] && Compensated([2, 2], HeaviestFirst([1, 1]), 3 - 4) == [1, 1]
  {
    assert RoundHalfEven(10.0) == 10 && RoundHalfEven(1.5) == 2;
    OrderOfOne(80);
    OrderOfTwo(1);
    CompensateOne(10, 10);
    CompensateTwo(2);
  }

  lemma OrderOfOne(w: int)
    ensures HeaviestFirst([w]) == [0]
  {
    assert [w][..0] == [];
  }

  lemma OrderOfTwo(w: int)
    ensures HeaviestFirst([w, w]) == [0, 1]
  {
    assert [w, w][..1] == [w];
    OrderOfOne(w);
  }

  lemma CompensateOne(share: int, residual: nat)
    requires residual > 0
    ensures Compensated([share], [0], residual) == [share + 1]
  {
  }

  lemma CompensateTwo(share: int)
    ensures Compensated([share, share], [0, 1], -1) == [share - 1, share - 1]
  {
    var two, order := [share, share], [0, 1];
    assert two[0 := share - 1] == [share - 1, share] && order[1..] == [1];
    assert [share - 1, share][1 := share - 1] == [share - 1, share - 1];
  }

  lemma {:induction false} CompensatedElsewhere(rounded: seq<int>, order: seq<nat>, residual: int, p: nat)
    requires forall i :: 0 <= i < |order| ==> order[i] < |rounded|
    requires p < |rounded| && p !in order
    ensures Compensated(rounded, order, residual)[p] == rounded[p]
    decreases |order|
  {
    if order != [] && residual != 0 {
      var step := if residual > 0 then 1 else -1;
      CompensatedElsewhere(rounded[order[0] := rounded[order[0]] + step], order[1..], residual - 1, p);
    }
  }

  /** Which targets are corrected: the first ones of the order get plus one, or all of them minus one. */
  lemma {:induction false} CompensatedAt(rounded: seq<int>, order: seq<nat>, residual: int, i: nat)
    requires forall k :: 0 <= k < |order| ==> order[k] < |rounded|
    requires forall j, k :: 0 <= j < k < |order| ==> order[j] != order[k]
    requires i < |order|
    ensures Compensated(rounded, order, residual)[order[i]] ==
      rounded[order[i]] + (if residual < 0 then -1 else if i < residual then 1 else 0)
    decreases |order|
  {
    if residual != 0 {
      var step := if residual > 0 then 1 else -1;
      var next := rounded[order[0] := rounded[order[0]] + step];
      if i == 0 {
        CompensatedElsewhere(next, order[1..], residual - 1, order[0]);
      } else {
        CompensatedAt(next, order[1..], residual - 1, i - 1);
      }
    }
  }

  /** A residual between zero and the number of targets goes to the heaviest targets, one each. */
  lemma HeaviestAreRaised(rounded: seq<int>, weights: seq<int>, residual: nat, p: nat, q: nat)
    requires |rounded| == |weights| && p < |weights| && q < |weights|
    ensures var r := Compensated(rounded, HeaviestFirst(weights), residual);
      && rounded[p] <= r[p] <= rounded[p] + 1
      && (r[p] == rounded[p] && r[q] == rounded[q] + 1 ==> Before(weights, q, p))
  {
    var order := HeaviestFirst(weights);
    assert forall j, k :: 0 <= j < k < |order| ==> Before(weights, order[j], order[k]);
    assert p in order && q in order;
    var i :| 0 <= i < |order| && order[i] == p;
    var j :| 0 <= j < |order| && order[j] == q;
    CompensatedAt(rounded, order, residual, i);
    CompensatedAt(rounded, order, residual, j);
    if j < i {
      assert Before(weights, order[j], order[i]);
    }
  }

  // ----- the whole redistribution -----

  /** An endpoint after it was looked at: the status of every endpoint but the changer is read. */
  function SelectedOne(s: ApiState, config: ApiConfig, changer: string, now: real): ApiState {
    if config.interfaceId != changer then Refreshed(s, config, now) else s
  }

  /** The pool after its first `n` endpoints were looked at. */
  function SelectedUpTo(states: seq<ApiState>, configs: seq<ApiConfig>, changer: string, now: real, n: nat): (r: seq<ApiState>)
    requires |states| == |configs|
  {
    seq(|states|, i requires 0 <= i < |states| => if i < n then SelectedOne(states[i], configs[i], changer, now) else states[i])
  }

  function Selected(states: seq<ApiState>, configs: seq<ApiConfig>, changer: string, now: real): (r: seq<ApiState>)
    requires |states| == |configs|
  {
    SelectedUpTo(states, configs, changer, now, |states|)
  }

  /** The positions, among the first `n`, of the endpoints that take part. */
  function Targets(selected: seq<ApiState>, configs: seq<ApiConfig>, changer: string, n: nat): (targets: seq<nat>)
    requires |selected| == |configs| && n <= |selected|
    ensures forall k :: 0 <= k < |targets| ==> targets[k] < n
  {
    if n == 0 then []
    else
      Targets(selected, configs, changer, n - 1)
      + (if configs[n - 1].interfaceId != changer && selected[n - 1].status != Stopped then [n - 1] else [])
  }

  /** The targets are in pool order, and they are exactly the endpoints in service other than the changer. */
  lemma {:induction false} TargetsAre(selected: seq<ApiState>, configs: seq<ApiConfig>, changer: string, n: nat)
    requires |selected| == |configs| && n <= |selected|
    ensures var targets := Targets(selected, configs, changer, n);
      && (forall j, k :: 0 <= j < k < |targets| ==> targets[j] < targets[k])
      && (forall i :: i in targets <==> 0 <= i < n && configs[i].interfaceId != changer && selected[i].status != Stopped)
  {
    if n > 0 {
      TargetsAre(selected, configs, changer, n - 1);
    }
  }

  function WeightsOf(configs: seq<ApiConfig>, targets: seq<nat>): (w: seq<int>)
    requires forall k :: 0 <= k < |targets| ==> targets[k] < |configs|
  {
    seq(|targets|, k requires 0 <= k < |targets| => configs[targets[k]].baseWeight)
  }

  /** The corrected share of every target. */
  function CorrectedShares(delta: int, weights: seq<int>, baseSum: int): (r: seq<int>)
    requires baseSum != 0
    ensures |r| == |weights|
  {
    var rounded := RoundedShares(delta, weights, baseSum);
    Compensated(rounded, HeaviestFirst(weights), delta - Sum(rounded))
  }

  /** The pool after each target was adapted by its share. */
  function Applied(states: seq<ApiState>, configs: seq<ApiConfig>, targets: seq<nat>, shares: seq<int>, now: real): (r: seq<ApiState>)
    requires |states| == |configs| && |targets| == |shares|
    requires forall k :: 0 <= k < |targets| ==> targets[k] < |states|
    ensures |r| == |states|
  {
    if targets == [] then states
    else
      var n := |targets| - 1;
      var before := Applied(states, configs, targets[..n], shares[..n], now);
      before[targets[n] := Adapted(before[targets[n]], configs[targets[n]], shares[n], now)]
  }

  function Redistributed(states: seq<ApiState>, configs: seq<ApiConfig>, changer: string, delta: int, baseSum: int, now: real):
    (r: seq<ApiState>)
    requires |states| == |configs|
  {
    var selected := Selected(states, configs, changer, now);
    var targets := Targets(selected, configs, changer, |selected|);
    if targets == [] || baseSum == 0 then selected
    else Applied(selected, configs, targets, CorrectedShares(delta, WeightsOf(configs, targets), baseSum), now)
  }

  predicate AnyTarget(states: seq<ApiState>, configs: seq<ApiConfig>, changer: string, now: real)
    requires |states| == |configs|
  {
    Targets(Selected(states, configs, changer, now), configs, changer, |states|) != []
  }

  /** With targets to share over, a zero sum of base weights raises a division error. */
  method Redistribute(pool: Pool, delta: int, changer: string, now: real) returns (raised: bool)
    requires pool.Valid()
    modifies pool.apis
    ensures pool.Valid()
    ensures pool.States() == Redistributed(old(pool.States()), pool.Configs(), changer, delta, pool.sumWeight, now)
    ensures raised <==> pool.sumWeight == 0 && AnyTarget(old(pool.States()), pool.Configs(), changer, now)
  {
    ghost var was := pool.States();
    var targets := SelectTargets(pool, changer, now);
    assert AnyTarget(was, pool.Configs(), changer, now) <==> targets != [];
    raised := targets != [] && pool.sumWeight == 0;
    if targets == [] || pool.sumWeight == 0 {
      return;
    }
    ShareOut(pool, targets, delta, now);
  }

  /** Computes the shares of the targets, corrects them and applies them. */
  method ShareOut(pool: Pool, targets: seq<nat>, delta: int, now: real)
    requires pool.Valid() && pool.sumWeight != 0
    requires forall k :: 0 <= k < |targets| ==> targets[k] < |pool.apis|
    modifies pool.apis
    ensures pool.States() == Applied(old(pool.States()), pool.Configs(), targets,
      CorrectedShares(delta, WeightsOf(pool.Configs(), targets), pool.sumWeight), now)
  {
    var apis := pool.apis;
    var weights := seq(|targets|, k requires 0 <= k < |targets| && targets[k] < |apis| => apis[targets[k]].config.baseWeight);
    assert weights == WeightsOf(pool.Configs(), targets);
    var shares := CorrectShares(delta, weights, pool.sumWeight);
    ApplyShares(pool, targets, shares, now);
  }

  lemma OneMoreSelected(was: seq<ApiState>, configs: seq<ApiConfig>, changer: string, now: real, i: nat)
    requires i < |was| == |configs|
    ensures var before, after := SelectedUpTo(was, configs, changer, now, i), SelectedUpTo(was, configs, changer, now, i + 1);
      && before[i] == was[i] && after == before[i := SelectedOne(was[i], configs[i], changer, now)]
      && after[i] == Selected(was, configs, changer, now)[i]
  {
  }

  /** The comprehension's condition for endpoint `i`; reading the status may change it.  `was` is the pool before the first. */
  method TakesPart(pool: Pool, ghost was: seq<ApiState>, i: nat, changer: string, now: real) returns (part: bool)
    requires pool.Valid() && i < |pool.apis| == |was| && pool.States() == SelectedUpTo(was, pool.Configs(), changer, now, i)
    modifies pool.apis
    ensures pool.Valid()
    ensures pool.States() == SelectedUpTo(was, pool.Configs(), changer, now, i + 1)
    ensures part <==>
      pool.Configs()[i].interfaceId != changer && Selected(was, pool.Configs(), changer, now)[i].status != Stopped
  {
    ghost var before := pool.States();
    var api := pool.apis[i];
    OneMoreSelected(was, pool.Configs(), changer, now, i);
    assert api.State() == was[i] && api.config == pool.Configs()[i];
    assert forall j :: 0 <= j < |pool.apis| && j != i ==> pool.apis[j] != api;
    part := false;
    if api.config.interfaceId != changer {
      var status := api.GetStatus(now);
      part := status != Stopped;
    }
    assert api.State() == SelectedOne(was[i], api.config, changer, now);
    assert pool.States() == before[i := api.State()];
  }

  lemma NextTarget(selected: seq<ApiState>, configs: seq<ApiConfig>, changer: string, i: nat, part: bool)
    requires i < |selected| == |configs|
    requires part <==> configs[i].interfaceId != changer && selected[i].status != Stopped
    ensures Targets(selected, configs, changer, i + 1) == Targets(selected, configs, changer, i) + (if part then [i] else [])
  {
  }

  /** The comprehension that picks the targets. */
  method SelectTargets(pool: Pool, changer: string, now: real) returns (targets: seq<nat>)
    requires pool.Valid()
    modifies pool.apis
    ensures pool.Valid()
    ensures pool.States() == Selected(old(pool.States()), pool.Configs(), changer, now)
    ensures targets == Targets(pool.States(), pool.Configs(), changer, |pool.apis|)
  {
    targets := [];
    ghost var was, configs := pool.States(), pool.Configs();
    assert SelectedUpTo(was, configs, changer, now, 0) == was;
    for i := 0 to |pool.apis|
      invariant pool.Valid()
      invariant pool.States() == SelectedUpTo(was, configs, changer, now, i)
      invariant targets == Targets(Selected(was, configs, changer, now), configs, changer, i)
    {
      var part := TakesPart(pool, was, i, changer, now);
      NextTarget(Selected(was, configs, changer, now), configs, changer, i, part);
      targets := targets + if part then [i] else [];
    }
  }

  method CorrectShares(delta: int, weights: seq<int>, baseSum: int) returns (shares: seq<int>)
    requires baseSum != 0
    ensures shares == CorrectedShares(delta, weights, baseSum)
  {
    var rounded := RoundedShares(delta, weights, baseSum);
    var a := new int[|rounded|](i requires 0 <= i < |rounded| => rounded[i]);
    assert a[..] == rounded;
    Compensate(a, HeaviestFirst(weights), delta);
    shares := a[..];
  }

  method ApplyShares(pool: Pool, targets: seq<nat>, shares: seq<int>, now: real)
    requires pool.Valid() && |targets| == |shares|
    requires forall k :: 0 <= k < |targets| ==> targets[k] < |pool.apis|
    modifies pool.apis
    ensures pool.States() == Applied(old(pool.States()), pool.Configs(), targets, shares, now)
  {
    ghost var was, configs := pool.States(), pool.Configs();
    for k := 0 to |targets|
      invariant pool.States() == Applied(was, configs, targets[..k], shares[..k], now)
    {
      ghost var before := pool.States();
      assert targets[..k + 1][..k] == targets[..k] && shares[..k + 1][..k] == shares[..k];
      var api := pool.apis[targets[k]];
      assert api.State() == before[targets[k]];
      assert forall j :: 0 <= j < |pool.apis| && j != targets[k] ==> pool.apis[j] != api;
      api.AdaptWeight(shares[k], now);
      assert pool.States() == before[targets[k] := api.State()];
    }
    assert targets[..|targets|] == targets && shares[..|targets|] == shares;
  }

  // ----- what a redistribution does to the total -----

  lemma {:induction false} AppliedElsewhere(states: seq<ApiState>, configs: seq<ApiConfig>, targets: seq<nat>, shares: seq<int>,
                                            now: real, p: nat)
    requires |states| == |configs| && |targets| == |shares| && p < |states|
    requires forall k :: 0 <= k < |targets| ==> targets[k] < |states| && targets[k] != p
    ensures Applied(states, configs, targets, shares, now)[p] == states[p]
  {
    if targets != [] {
      var n := |targets| - 1;
      AppliedElsewhere(states, configs, targets[..n], shares[..n], now, p);
    }
  }

  /** No target's weight falls below zero, which would break it. */
  ghost predicate NoneBreaks(states: seq<ApiState>, targets: seq<nat>, shares: seq<int>)
    requires |targets| == |shares| && forall k :: 0 <= k < |targets| ==> targets[k] < |states|
  {
    forall k :: 0 <= k < |targets| ==> states[targets[k]].dynamicWeight + shares[k] >= 0
  }

  lemma AdaptedWeight(s: ApiState, config: ApiConfig, share: int, now: real)
    requires s.dynamicWeight + share >= 0
    ensures Adapted(s, config, share, now).dynamicWeight == s.dynamicWeight + share
  {
  }

  lemma DynamicUpdate(states: seq<ApiState>, p: nat, s: ApiState)
    requires p < |states|
    ensures Sum(Dynamic(states[p := s])) == Sum(Dynamic(states)) - states[p].dynamicWeight + s.dynamicWeight
  {
    assert Dynamic(states[p := s]) == Dynamic(states)[p := s.dynamicWeight];
    SumUpdate(Dynamic(states), p, s.dynamicWeight);
  }

  lemma {:induction false} AppliedTotal(states: seq<ApiState>, configs: seq<ApiConfig>, targets: seq<nat>, shares: seq<int>, now: real)
    requires |states| == |configs| && |targets| == |shares|
    requires forall k :: 0 <= k < |targets| ==> targets[k] < |states|
    requires forall j, k :: 0 <= j < k < |targets| ==> targets[j] < targets[k]
    requires NoneBreaks(states, targets, shares)
    ensures Sum(Dynamic(Applied(states, configs, targets, shares, now))) == Sum(Dynamic(states)) + Sum(shares)
  {
    if targets != [] {
      var n := |targets| - 1;
      var before := Applied(states, configs, targets[..n], shares[..n], now);
      AppliedTotal(states, configs, targets[..n], shares[..n], now);
      AppliedElsewhere(states, configs, targets[..n], shares[..n], now, targets[n]);
      AdaptedWeight(before[targets[n]], configs[targets[n]], shares[n], now);
      DynamicUpdate(before, targets[n], Adapted(before[targets[n]], configs[targets[n]], shares[n], now));
    }
  }

  /**
    A redistribution that breaks no endpoint adds exactly `delta` to the total weight of the
    pool if and only if the rounding residual lies between zero and the number of targets,
    or is minus that number.  Nothing is taken from the endpoint that caused it.
   */
  lemma {:induction false} TotalChange(states: seq<ApiState>, configs: seq<ApiConfig>, changer: string, delta: int, baseSum: int, now: real)
    requires |states| == |configs| && baseSum != 0
    requires var selected := Selected(states, configs, changer, now);
      var targets := Targets(selected, configs, changer, |selected|);
      targets != [] && NoneBreaks(selected, targets, CorrectedShares(delta, WeightsOf(configs, targets), baseSum))
    ensures var selected := Selected(states, configs, changer, now);
      var targets := Targets(selected, configs, changer, |selected|);
      var residual := delta - Sum(RoundedShares(delta, WeightsOf(configs, targets), baseSum));
      Sum(Dynamic(Redistributed(states, configs, changer, delta, baseSum, now))) == Sum(Dynamic(selected)) + delta <==>
        0 <= residual <= |targets| || residual == -|targets|
  {
    var selected := Selected(states, configs, changer, now);
    var targets := Targets(selected, configs, changer, |selected|);
    TargetsAre(selected, configs, changer, |selected|);
    SharedTotal(selected, configs, targets, delta, baseSum, now);
  }

  lemma SharedTotal(selected: seq<ApiState>, configs: seq<ApiConfig>, targets: seq<nat>, delta: int, baseSum: int, now: real)
    requires |selected| == |configs| && baseSum != 0
    requires forall k :: 0 <= k < |targets| ==> targets[k] < |selected|
    requires forall j, k :: 0 <= j < k < |targets| ==> targets[j] < targets[k]
    requires NoneBreaks(selected, targets, CorrectedShares(delta, WeightsOf(configs, targets), baseSum))
    ensures var weights := WeightsOf(configs, targets);
      var residual := delta - Sum(RoundedShares(delta, weights, baseSum));
      Sum(Dynamic(Applied(selected, configs, targets, CorrectedShares(delta, weights, baseSum), now))) == Sum(Dynamic(selected)) + delta
      <==> 0 <= residual <= |targets| || residual == -|targets|
  {
    var weights := WeightsOf(configs, targets);
    AppliedTotal(selected, configs, targets, CorrectedShares(delta, weights, baseSum), now);
    SharesAreExact(delta, weights, baseSum);
  }

  lemma SharesAreExact(delta: int, weights: seq<int>, baseSum: int)
    requires baseSum != 0
    ensures var residual := delta - Sum(RoundedShares(delta, weights, baseSum));
      Sum(CorrectedShares(delta, weights, baseSum)) == delta <==> 0 <= residual <= |weights| || residual == -|weights|
  {
    CorrectionIsExact(RoundedShares(delta, weights, baseSum), HeaviestFirst(weights), delta);
  }

  /** The endpoint that caused the redistribution keeps its state, and so does every stopped one. */
  lemma {:induction false} OthersUntouched(states: seq<ApiState>, configs: seq<ApiConfig>, changer: string, delta: int, baseSum: int, now: real, i: nat)
    requires |states| == |configs| && i < |states|
    requires configs[i].interfaceId == changer || Refreshed(states[i], configs[i], now).status == Stopped
    ensures Redistributed(states, configs, changer, delta, baseSum, now)[i] == states[i]
  {
    var selected := Selected(states, configs, changer, now);
    var targets := Targets(selected, configs, changer, |selected|);
    TargetsAre(selected, configs, changer, |selected|);
    if targets != [] && baseSum != 0 {
      assert i !in targets;
      AppliedElsewhere(selected, configs, targets, CorrectedShares(delta, WeightsOf(configs, targets), baseSum), now, i);
    }
  }
}
