/**
  The pool scheduler of LLM endpoints: endpoint health state and the acquire turn over the
  live endpoints.
 */
module Scheduler {
  import opened RoundRobin

  datatype ApiStatus = Activated | Stopped | Recovering

  datatype ApiConfig = ApiConfig(
    interfaceId: string,
    baseWeight: int,
    decayStep: int,
    recoverStep: int,
    maxFails: int,
    coolDown: real)

  datatype ApiState = ApiState(
    status: ApiStatus,
    dynamicWeight: int,
    swrrWeight: int,
    failCount: nat,
    coolEnding: real)

  /** Reading the status moves an endpoint whose cool-down is over from stopped to recovering. */
  function Refreshed(s: ApiState, config: ApiConfig, now: real): ApiState {
    if s.status == Stopped && now > s.coolEnding then
      s.(dynamicWeight := s.dynamicWeight + config.recoverStep, coolEnding := 0.0, status := Recovering)
    else s
  }

  function Broken(s: ApiState, config: ApiConfig, now: real): ApiState {
    s.(status := Stopped, dynamicWeight := 0, coolEnding := now + config.coolDown, failCount := 0)
  }

  /** A call first breaks an unhealthy or failing endpoint, then reads its status. */
  function Called(s: ApiState, config: ApiConfig, healthy: bool, now: real): ApiState {
    var checked := if healthy && s.failCount < config.maxFails then s else Broken(s, config, now);
    Refreshed(checked, config, now)
  }

  function Adapted(s: ApiState, config: ApiConfig, delta: int, now: real): ApiState {
    var t := if delta < 0 then s.(status := Recovering) else s;
    var u := t.(dynamicWeight := t.dynamicWeight + delta);
    if u.dynamicWeight < 0 then Broken(u, config, now) else u
  }

  /** An endpoint after its status was read and, unless it is stopped, its weight raised. */
  function Lifted(s: ApiState, config: ApiConfig, now: real): ApiState {
    var r := Refreshed(s, config, now);
    if r.status == Stopped then r else r.(swrrWeight := r.swrrWeight + r.dynamicWeight)
  }

  function PaidAndCalled(s: ApiState, total: int, config: ApiConfig, healthy: bool, now: real): ApiState {
    Called(s.(swrrWeight := s.swrrWeight - total), config, healthy, now)
  }

  class Api {
    const config: ApiConfig
    var status: ApiStatus
    var dynamicWeight: int
    var swrrWeight: int
    var failCount: nat
    var coolEnding: real

    constructor (config: ApiConfig)
      ensures this.config == config
      ensures State() == ApiState(Activated, config.baseWeight, config.baseWeight, 0, 0.0)
    {
      this.config := config;
      status, failCount, coolEnding := Activated, 0, 0.0;
      dynamicWeight, swrrWeight := config.baseWeight, config.baseWeight;
    }

    function State(): ApiState
      reads this
    {
      ApiState(status, dynamicWeight, swrrWeight, failCount, coolEnding)
    }

    method GetStatus(now: real) returns (s: ApiStatus)
      modifies this
      ensures State() == Refreshed(old(State()), config, now)
      ensures s == status
    {
      if status == Stopped {
        if now > coolEnding {
          dynamicWeight := dynamicWeight + config.recoverStep;
          coolEnding := 0.0;
          status := Recovering;
        }
      }
      s := status;
    }

    /** The body of the acquire loop for one endpoint. */
    method Raise(now: real) returns (live: bool)
      modifies this
      ensures State() == Lifted(old(State()), config, now)
      ensures live <==> status != Stopped
    {
      var s := GetStatus(now);
      live := s != Stopped;
      if live {
        swrrWeight := swrrWeight + dynamicWeight;
      }
    }

    method AdaptWeight(delta: int, now: real)
      modifies this
      ensures State() == Adapted(old(State()), config, delta, now)
    {
      if delta < 0 {
        status := Recovering;
      }
      dynamicWeight := dynamicWeight + delta;
      if dynamicWeight < 0 {
        CircuitBreak(now);
      }
    }

    method CircuitBreak(now: real)
      modifies this
      ensures State() == Broken(old(State()), config, now)
    {
      status := Stopped;
      dynamicWeight := 0;
      coolEnding := now + config.coolDown;
      failCount := 0;
    }

    method RecordFail()
      modifies this
      ensures State() == old(State()).(failCount := old(failCount) + 1)
    {
      failCount := failCount + 1;
    }

    method ResetFail()
      modifies this
      ensures State() == old(State()).(failCount := 0)
    {
      failCount := 0;
    }

    /** Refuses, as the circuit breaker error does, exactly when the endpoint ends up stopped. */
    method Call(healthy: bool, now: real) returns (granted: bool)
      modifies this
      ensures State() == Called(old(State()), config, healthy, now)
      ensures granted <==> status != Stopped
    {
      if !(healthy && failCount < config.maxFails) {
        CircuitBreak(now);
      }
      var s := GetStatus(now);
      granted := s != Stopped;
    }

    /** The end of an acquire for the endpoint it picked. */
    method PayAndCall(total: int, healthy: bool, now: real) returns (granted: bool)
      modifies this
      ensures State() == PaidAndCalled(old(State()), total, config, healthy, now)
      ensures granted <==> status != Stopped
    {
      swrrWeight := swrrWeight - total;
      granted := Call(healthy, now);
    }
  }

  /** A call is refused exactly in these cases: it breaks the endpoint, or a break's cool-down is not over. */
  lemma CallRefusesExactly(s: ApiState, config: ApiConfig, healthy: bool, now: real)
    ensures Called(s, config, healthy, now).status == Stopped <==>
      if healthy && s.failCount < config.maxFails then s.status == Stopped && now <= s.coolEnding
      else config.coolDown >= 0.0
  {
  }

  datatype Grant = EmptyPayload | Granted(interfaceId: string) | CircuitBreakerError

  // ----- the pool as a value -----

  function Base(configs: seq<ApiConfig>): (w: seq<int>) {
    seq(|configs|, i requires 0 <= i < |configs| => configs[i].baseWeight)
  }

  function Swrr(states: seq<ApiState>): (w: seq<int>) {
    seq(|states|, i requires 0 <= i < |states| => states[i].swrrWeight)
  }

  function Dynamic(states: seq<ApiState>): (w: seq<int>) {
    seq(|states|, i requires 0 <= i < |states| => states[i].dynamicWeight)
  }

  function Live(states: seq<ApiState>): (w: seq<bool>) {
    seq(|states|, i requires 0 <= i < |states| => states[i].status != Stopped)
  }

  function RefreshedPool(states: seq<ApiState>, configs: seq<ApiConfig>, now: real): (r: seq<ApiState>)
    requires |states| == |configs|
  {
    seq(|states|, i requires 0 <= i < |states| => Refreshed(states[i], configs[i], now))
  }

  ghost predicate AllStopped(states: seq<ApiState>) {
    forall i :: 0 <= i < |states| ==> states[i].status == Stopped
  }

  function LiftedPool(states: seq<ApiState>, configs: seq<ApiConfig>, now: real): (r: seq<ApiState>)
    requires |states| == |configs|
  {
    seq(|states|, i requires 0 <= i < |states| => Lifted(states[i], configs[i], now))
  }

  lemma LiftedStatus(states: seq<ApiState>, configs: seq<ApiConfig>, now: real)
    requires |states| == |configs|
    ensures AllStopped(RefreshedPool(states, configs, now)) <==> AllStopped(LiftedPool(states, configs, now))
    ensures AllStopped(RefreshedPool(states, configs, now)) ==> LiftedPool(states, configs, now) == states
  {
    var before, lifted := RefreshedPool(states, configs, now), LiftedPool(states, configs, now);
    forall i | 0 <= i < |states|
      ensures Live(lifted)[i] <==> before[i].status != Stopped
    {
    }
    assert AllStopped(before) ==> forall i :: 0 <= i < |states| ==> before[i].status == Stopped && lifted[i] == states[i];
  }

  lemma LiftedIsRaised(states: seq<ApiState>, configs: seq<ApiConfig>, now: real)
    requires |states| == |configs|
    ensures var before := RefreshedPool(states, configs, now);
      && Swrr(LiftedPool(states, configs, now)) == Raised(Swrr(states), Dynamic(before), Live(before))
      && Live(LiftedPool(states, configs, now)) == Live(before)
  {
  }

  /**
    One successful acquire on the pool as a value: every endpoint is lifted, `b` is the
    first live one with the largest weight, pays the sum of the base weights and is called.
   */
  ghost predicate AcquireStep(states: seq<ApiState>, configs: seq<ApiConfig>, now: real, healthy: bool, b: nat,
                              after: seq<ApiState>)
    requires |states| == |configs|
  {
    var lifted := LiftedPool(states, configs, now);
    && b < |lifted| && FirstMax(Swrr(lifted), Live(lifted), b)
    && after == lifted[b := PaidAndCalled(lifted[b], Sum(Base(configs)), configs[b], healthy, now)]
  }

  /** Seen on the running weights alone, a successful acquire is one round-robin turn. */
  lemma AcquireIsTurn(states: seq<ApiState>, configs: seq<ApiConfig>, now: real, healthy: bool, b: nat,
                      after: seq<ApiState>)
    requires |states| == |configs| && AcquireStep(states, configs, now, healthy, b, after)
    ensures var before := RefreshedPool(states, configs, now);
      Turn(Base(configs), Dynamic(before), Live(before), Swrr(states), b, Swrr(after))
  {
    LiftedIsRaised(states, configs, now);
    var e := Swrr(LiftedPool(states, configs, now));
    assert Swrr(after) == e[b := e[b] - Sum(Base(configs))];
  }

  class Pool {
    var apis: seq<Api>
    var lastApi: Api?
    var sumWeight: int
    var adaptInterval: int
    var intervalBreakTime: real

    constructor (apis: seq<Api>)
      requires Distinct(apis)
      ensures this.apis == apis && lastApi == null && Valid()
      ensures adaptInterval == 60 && intervalBreakTime == 0.0
    {
      this.apis := apis;
      lastApi := null;
      sumWeight := 0;
      adaptInterval, intervalBreakTime := 60, 0.0;
      new;
      sumWeight := SumOfBase();
    }

    static ghost predicate Distinct(apis: seq<Api>) {
      forall i, j :: 0 <= i < j < |apis| ==> apis[i] != apis[j]
    }

    ghost predicate Valid()
      reads this`apis, this`sumWeight, this`lastApi
    {
      Distinct(apis) && (lastApi != null ==> lastApi in apis) && sumWeight == Sum(Base(Configs()))
    }

    function Configs(): (c: seq<ApiConfig>)
      reads this`apis
    {
      var pool := apis;
      seq(|pool|, i requires 0 <= i < |pool| => pool[i].config)
    }

    function States(): (s: seq<ApiState>)
      reads this`apis, apis
    {
      var pool := apis;
      seq(|pool|, i requires 0 <= i < |pool| reads pool => pool[i].State())
    }

    method Registry(api: Api)
      requires Valid() && api !in apis
      modifies this`apis, this`sumWeight
      ensures Valid() && apis == old(apis) + [api]
    {
      apis := apis + [api];
      sumWeight := SumOfBase();
    }

    method SumOfBase() returns (total: int)
      ensures total == Sum(Base(Configs()))
    {
      total := 0;
      ghost var base := Base(Configs());
      for i := 0 to |apis|
        invariant total == Sum(base[..i])
      {
        assert base[..i + 1][..i] == base[..i];
        assert base[i] == apis[i].config.baseWeight;
        total := total + apis[i].config.baseWeight;
      }
      assert base[..|apis|] == base;
    }

    /**
      One acquire.  `health` is what an endpoint answers if its health is checked.
      Over a non-empty pool the turn fails, changing nothing, exactly when every status
      read is stopped; a picked endpoint may still refuse when it is called.
     */
    method Acquire(now: real, health: Api -> bool) returns (grant: Grant, ghost picked: nat)
      requires Valid()
      modifies this`lastApi, apis
      ensures Valid()
      ensures apis == [] ==> grant == EmptyPayload && lastApi == old(lastApi)
      ensures apis != [] && AllStopped(RefreshedPool(old(States()), Configs(), now)) ==>
        grant == CircuitBreakerError && States() == old(States()) && lastApi == old(lastApi)
      ensures !AllStopped(RefreshedPool(old(States()), Configs(), now)) ==>
        && picked < |apis| && lastApi == apis[picked]
        && AcquireStep(old(States()), Configs(), now, health(apis[picked]), picked, States())
        && grant == if apis[picked].status == Stopped then CircuitBreakerError
                    else Granted(apis[picked].config.interfaceId)
    {
      picked := 0;
      if apis == [] {
        grant := EmptyPayload;
        return;
      }
      var coolDownWeight := SumOfBase();
      ghost var was := States();
      ghost var before := RefreshedPool(was, Configs(), now);
      var best: Api?;
      best, picked := RaiseLive(now);
      ghost var lifted := States();
      LiftedStatus(was, Configs(), now);
      if best == null {
        grant := CircuitBreakerError;
        return;
      }
      lastApi := best;
      var granted := CallBest(best, picked, coolDownWeight, health(best), now);
      grant := if granted then Granted(best.config.interfaceId) else CircuitBreakerError;
    }

    /** The picked endpoint pays for its turn and is called; no other one changes. */
    method CallBest(best: Api, ghost picked: nat, total: int, healthy: bool, now: real) returns (granted: bool)
      requires Valid() && picked < |apis| && best == apis[picked]
      modifies best
      ensures States() == old(States())[picked := PaidAndCalled(old(States())[picked], total, best.config, healthy, now)]
      ensures granted <==> best.status != Stopped
    {
      ghost var was := States();
      assert forall i :: 0 <= i < |apis| && i != picked ==> apis[i] != best;
      granted := best.PayAndCall(total, healthy, now);
      assert States() == was[picked := best.State()];
    }

    /** The first `n` endpoints have been looked at. */
    ghost predicate HalfRaised(was: seq<ApiState>, now: real, n: nat)
      reads this`apis, apis
      requires |was| == |apis|
    {
      forall j :: 0 <= j < |apis| ==>
        apis[j].State() == if j < n then LiftedPool(was, Configs(), now)[j] else was[j]
    }

    /** What the loop has made of the first `n` endpoints and found among them. */
    ghost predicate Found(was: seq<ApiState>, now: real, n: nat, unused: int, none: bool, b: nat)
      reads this`apis, apis
      requires |was| == |apis| && n <= |apis|
    {
      HalfRaised(was, now, n) && Scanned(LiftedPool(was, Configs(), now), n, unused, none, b)
    }

    lemma FoundNext(was: seq<ApiState>, now: real, n: nat, unused: int, none: bool, b: nat)
      requires |was| == |apis| && n < |apis| && HalfRaised(was, now, n + 1) && (!none ==> b < n)
      requires Scanned(LiftedPool(was, Configs(), now), n, unused, none, b)
      ensures if apis[n].status == Stopped then Found(was, now, n + 1, unused + 1, none, b)
              else if none || apis[n].swrrWeight > apis[b].swrrWeight then Found(was, now, n + 1, unused, false, n)
              else Found(was, now, n + 1, unused, none, b)
    {
      var lifted := LiftedPool(was, Configs(), now);
      assert apis[n].State() == lifted[n] && (!none ==> apis[b].State() == lifted[b]);
      ScanNext(lifted, n, unused, none, b);
    }

    lemma AllRaised(was: seq<ApiState>, now: real, unused: int, none: bool, b: nat)
      requires |was| == |apis| && Found(was, now, |apis|, unused, none, b)
      ensures States() == LiftedPool(was, Configs(), now)
      ensures none <==> AllStopped(States())
      ensures !none ==> FirstMax(Swrr(States()), Live(States()), b)
    {
      var lifted := LiftedPool(was, Configs(), now);
      assert States() == lifted && lifted[..|apis|] == lifted;
      if !none {
        BestIsFirstMax(lifted, b);
      }
    }

    /** One endpoint is looked at and, if it is live, raised; no other one changes. */
    method RaiseAt(i: nat, now: real, ghost was: seq<ApiState>) returns (live: bool)
      requires Valid() && i < |apis| && |was| == |apis| && HalfRaised(was, now, i)
      modifies apis[i]
      ensures HalfRaised(was, now, i + 1)
      ensures live <==> apis[i].status != Stopped
    {
      assert forall j :: 0 <= j < |apis| && j != i ==> apis[j] != apis[i];
      live := apis[i].Raise(now);
    }

    /** The loop of an acquire: raises every live endpoint and finds the first with the largest weight. */
    method RaiseLive(now: real) returns (best: Api?, ghost picked: nat)
      requires Valid() && apis != []
      modifies apis
      ensures States() == LiftedPool(old(States()), Configs(), now)
      ensures best == null <==> AllStopped(States())
      ensures best != null ==> FirstMax(Swrr(States()), Live(States()), picked) && best == apis[picked]
    {
      picked, best := 0, null;
      var unused := 0;
      ghost var was := States();
      for i := 0 to |apis|
        invariant (i == |apis| ==> unused < i) && Found(was, now, i, unused, best == null, picked)
        invariant best != null ==> picked < i && best == apis[picked]
      {
        var api := apis[i];
        var live := RaiseAt(i, now, was);
        FoundNext(was, now, i, unused, best == null, picked);
        if !live {
          unused := unused + 1;
          if unused == |apis| {
            AllRaised(was, now, unused, best == null, picked);
            return;
          }
        } else {
          if best == null || api.swrrWeight > best.swrrWeight {
            best, picked := api, i;
          }
        }
      }
      AllRaised(was, now, unused, best == null, picked);
    }
  }

  /** What the loop knows of the first `n` endpoints: whether all are stopped, and if not, which is best. */
  ghost predicate Scanned(states: seq<ApiState>, n: nat, unused: int, none: bool, b: nat)
    requires n <= |states|
  {
    && 0 <= unused <= n
    && (unused == n <==> AllStopped(states[..n])) && (none <==> AllStopped(states[..n]))
    && (!none ==> b < n && BestAmong(states, b, n))
  }

  lemma ScanNext(states: seq<ApiState>, n: nat, unused: int, none: bool, b: nat)
    requires n < |states| && Scanned(states, n, unused, none, b)
    ensures if states[n].status == Stopped then Scanned(states, n + 1, unused + 1, none, b)
            else if none || states[n].swrrWeight > states[b].swrrWeight then Scanned(states, n + 1, unused, false, n)
            else Scanned(states, n + 1, unused, none, b)
  {
    assert states[..n + 1][n] == states[n];
    assert AllStopped(states[..n + 1]) <==> AllStopped(states[..n]) && states[n].status == Stopped by {
      assert forall j :: 0 <= j < n ==> states[..n + 1][j] == states[..n][j];
    }
  }

  lemma BestIsFirstMax(states: seq<ApiState>, b: nat)
    requires b < |states| && BestAmong(states, b, |states|)
    ensures FirstMax(Swrr(states), Live(states), b)
  {
  }

  ghost predicate BestAmong(states: seq<ApiState>, b: nat, n: nat)
    requires b < n <= |states|
  {
    && states[b].status != Stopped
    && (forall j :: 0 <= j < n && states[j].status != Stopped ==> states[j].swrrWeight <= states[b].swrrWeight)
    && (forall j :: 0 <= j < b && states[j].status != Stopped ==> states[j].swrrWeight < states[b].swrrWeight)
  }

  /**
    With every endpoint active at its base weight an acquire is a turn of the fair runs,
    and if the picked endpoint answers, every endpoint is again active at its base weight.
   */
  lemma IdealTurn(states: seq<ApiState>, configs: seq<ApiConfig>, now: real, healthy: bool, b: nat, after: seq<ApiState>)
    requires |states| == |configs| && Ideal(states, configs)
    requires AcquireStep(states, configs, now, healthy, b, after)
    ensures Turn(Base(configs), Base(configs), AllLive(|configs|), Swrr(states), b, Swrr(after))
    ensures healthy && states[b].failCount < configs[b].maxFails ==> Ideal(after, configs)
  {
    AcquireIsTurn(states, configs, now, healthy, b, after);
    var before := RefreshedPool(states, configs, now);
    assert before == states;
    assert Dynamic(before) == Base(configs);
    assert Live(before) == AllLive(|configs|);
  }

  ghost predicate Ideal(states: seq<ApiState>, configs: seq<ApiConfig>)
    requires |states| == |configs|
  {
    forall i :: 0 <= i < |states| ==> states[i].status == Activated && states[i].dynamicWeight == configs[i].baseWeight
  }

  // ----- whole runs of acquires -----

  /** `pools[t]` before and `pools[t + 1]` after acquire number t, at time `nows[t]`, with every endpoint healthy. */
  ghost predicate AcquireRun(configs: seq<ApiConfig>, pools: seq<seq<ApiState>>, picks: seq<nat>, nows: seq<real>) {
    && |pools| == |picks| + 1 && |nows| == |picks|
    && (forall t :: 0 <= t < |pools| ==> |pools[t]| == |configs|)
    && (forall t :: 0 <= t < |picks| ==> AcquireAt(configs, pools, picks, nows, t))
  }

  ghost predicate AcquireAt(configs: seq<ApiConfig>, pools: seq<seq<ApiState>>, picks: seq<nat>, nows: seq<real>, t: nat)
    requires t < |picks| && |pools| == |picks| + 1 && |nows| == |picks|
    requires |pools[t]| == |pools[t + 1]| == |configs|
  {
    AcquireStep(pools[t], configs, nows[t], true, picks[t], pools[t + 1])
  }

  function FreshPool(configs: seq<ApiConfig>): (p: seq<ApiState>) {
    seq(|configs|, i requires 0 <= i < |configs| => ApiState(Activated, configs[i].baseWeight, configs[i].baseWeight, 0, 0.0))
  }

  function SwrrHistory(pools: seq<seq<ApiState>>): (cs: seq<seq<int>>) {
    seq(|pools|, t requires 0 <= t < |pools| => Swrr(pools[t]))
  }

  ghost predicate Steady(pool: seq<ApiState>, configs: seq<ApiConfig>) {
    |pool| == |configs| && Ideal(pool, configs) && forall i :: 0 <= i < |pool| ==> pool[i].failCount == 0
  }

  lemma {:induction false} StaysSteady(configs: seq<ApiConfig>, pools: seq<seq<ApiState>>, picks: seq<nat>, nows: seq<real>, t: nat)
    requires AcquireRun(configs, pools, picks, nows) && pools[0] == FreshPool(configs)
    requires forall i :: 0 <= i < |configs| ==> configs[i].maxFails > 0
    requires t <= |picks|
    ensures Steady(pools[t], configs)
  {
    if t > 0 {
      StaysSteady(configs, pools, picks, nows, t - 1);
      assert AcquireAt(configs, pools, picks, nows, t - 1);
      IdealTurn(pools[t - 1], configs, nows[t - 1], true, picks[t - 1], pools[t]);
    }
  }

  /** Acquires on a fresh pool of healthy endpoints form a fair run. */
  lemma AcquiresAreFairRun(configs: seq<ApiConfig>, pools: seq<seq<ApiState>>, picks: seq<nat>, nows: seq<real>)
    requires AcquireRun(configs, pools, picks, nows) && pools[0] == FreshPool(configs)
    requires forall i :: 0 <= i < |configs| ==> configs[i].maxFails > 0
    ensures Run(Base(configs), SwrrHistory(pools), picks) && SwrrHistory(pools)[0] == Base(configs)
  {
    var cs, base := SwrrHistory(pools), Base(configs);
    forall t | 0 <= t < |picks|
      ensures TurnAt(base, cs, picks, t)
    {
      StaysSteady(configs, pools, picks, nows, t);
      assert AcquireAt(configs, pools, picks, nows, t);
      IdealTurn(pools[t], configs, nows[t], true, picks[t], pools[t + 1]);
    }
  }

  /** The fairness promise: in any window of T acquires every endpoint is picked base-weight times. */
  lemma FairAcquires(configs: seq<ApiConfig>, pools: seq<seq<ApiState>>, picks: seq<nat>, nows: seq<real>, s: nat, i: nat)
    requires AcquireRun(configs, pools, picks, nows) && pools[0] == FreshPool(configs)
    requires forall k :: 0 <= k < |configs| ==> configs[k].maxFails > 0
    requires Weights(Base(configs)) && i < |configs| && s + Sum(Base(configs)) <= |picks|
    ensures Count(picks[s..s + Sum(Base(configs))], i) == configs[i].baseWeight
    ensures Swrr(pools[s + Sum(Base(configs))]) == Swrr(pools[s])
  {
    AcquiresAreFairRun(configs, pools, picks, nows);
    Periodic(Base(configs), SwrrHistory(pools), picks, s);
    FairWindow(Base(configs), SwrrHistory(pools), picks, s, i);
  }
}
