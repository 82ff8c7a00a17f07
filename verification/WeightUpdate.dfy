/** Reporting how a call went: failure counts, and the weight that is shared out because of it. */
module WeightUpdate {
  import opened RoundRobin
  import opened Scheduler
  import opened Redistribution

  /** The last three are the source's exceptions: no call before, a status that should not be, a zero sum of base weights. */
  datatype Outcome = Updated | NoLastApi | ImpossibleStatus | DivisionByZero

  /** The pool after a report, and the time before which no recovery is shared out again. */
  datatype Report = Report(outcome: Outcome, states: seq<ApiState>, breakTime: real)

  /** What a report does to the endpoint it is about. */
  function Reported(s: ApiState, config: ApiConfig, success: bool, now: real): ApiState {
    var r := Refreshed(s, config, now);
    r.(failCount := if success then 0 else r.failCount + 1)
  }

  function Shared(states: seq<ApiState>, configs: seq<ApiConfig>, last: nat, delta: int, baseSum: int, breakTime: real, now: real):
    Report
    requires last < |states| == |configs|
  {
    var changer := configs[last].interfaceId;
    Report(
      if baseSum == 0 && AnyTarget(states, configs, changer, now) then DivisionByZero else Updated,
      Redistributed(states, configs, changer, delta, baseSum, now),
      breakTime)
  }

  /** Failures are shared out always, successes only while recovering and once per interval. */
  function Settled(after: seq<ApiState>, configs: seq<ApiConfig>, last: nat, success: bool, baseSum: int, adaptInterval: int,
                   breakTime: real, now: real): Report
    requires last < |after| == |configs|
  {
    if !success then Shared(after, configs, last, configs[last].decayStep, baseSum, breakTime, now)
    else
      match after[last].status
      case Activated => Report(Updated, after, breakTime)
      case Stopped => Report(ImpossibleStatus, after, breakTime)
      case Recovering => Recovery(after, configs, last, baseSum, adaptInterval, breakTime, now)
  }

  function Recovery(after: seq<ApiState>, configs: seq<ApiConfig>, last: nat, baseSum: int, adaptInterval: int, breakTime: real,
                    now: real): Report
    requires last < |after| == |configs|
  {
    if now <= breakTime then Report(Updated, after, breakTime)
    else
      var r := Shared(after, configs, last, configs[last].recoverStep, baseSum, breakTime, now);
      if r.outcome == Updated then r.(breakTime := now + adaptInterval as real) else r
  }

  function Updating(states: seq<ApiState>, configs: seq<ApiConfig>, last: nat, success: bool, baseSum: int, adaptInterval: int,
                    breakTime: real, now: real): Report
    requires last < |states| == |configs|
  {
    Settled(states[last := Reported(states[last], configs[last], success, now)], configs, last, success, baseSum, adaptInterval,
      breakTime, now)
  }

  /** `last` is the position of the endpoint the last acquire picked. */
  method UpdateWeight(pool: Pool, success: bool, now: real) returns (outcome: Outcome, ghost last: nat)
    requires pool.Valid()
    modifies pool`intervalBreakTime, pool.apis
    ensures pool.Valid()
    ensures pool.lastApi == null ==>
      outcome == NoLastApi && pool.States() == old(pool.States()) && pool.intervalBreakTime == old(pool.intervalBreakTime)
    ensures pool.lastApi != null ==>
      && last < |pool.apis| && pool.apis[last] == pool.lastApi
      && Report(outcome, pool.States(), pool.intervalBreakTime) ==
         Updating(old(pool.States()), pool.Configs(), last, success, pool.sumWeight, pool.adaptInterval,
                  old(pool.intervalBreakTime), now)
  {
    last := 0;
    if pool.lastApi == null {
      return NoLastApi, last;
    }
    var api := pool.lastApi;
    last :| 0 <= last < |pool.apis| && pool.apis[last] == api;
    assert pool.Configs()[last] == api.config;
    var status := ReportTo(pool, api, last, success, now);
    var breakTime: real;
    outcome, breakTime := Settle(pool, api, last, success, status, now);
    ghost var settled := pool.States();
    pool.intervalBreakTime := breakTime;
    assert pool.States() == settled;
  }

  /** What follows the count: sharing out, if it is time to; `breakTime` is the new end of the interval. */
  method Settle(pool: Pool, api: Api, ghost last: nat, success: bool, status: ApiStatus, now: real)
    returns (outcome: Outcome, breakTime: real)
    requires pool.Valid() && last < |pool.apis| && pool.apis[last] == api && status == pool.States()[last].status
    modifies pool.apis
    ensures pool.Valid()
    ensures Report(outcome, pool.States(), breakTime) ==
      Settled(old(pool.States()), pool.Configs(), last, success, pool.sumWeight, pool.adaptInterval, pool.intervalBreakTime, now)
  {
    assert pool.Configs()[last] == api.config;
    outcome, breakTime := Updated, pool.intervalBreakTime;
    if !success {
      outcome := ShareFrom(pool, api, last, api.config.decayStep, now);
    } else if status == Recovering {
      if now > pool.intervalBreakTime {
        outcome := ShareFrom(pool, api, last, api.config.recoverStep, now);
        breakTime := if outcome == Updated then now + pool.adaptInterval as real else breakTime;
      }
    } else {
      outcome := if status == Stopped then ImpossibleStatus else Updated;
    }
  }

  method ShareFrom(pool: Pool, api: Api, ghost last: nat, delta: int, now: real) returns (outcome: Outcome)
    requires pool.Valid() && last < |pool.apis| && pool.apis[last] == api
    modifies pool.apis
    ensures pool.Valid()
    ensures var r := Shared(old(pool.States()), pool.Configs(), last, delta, pool.sumWeight, pool.intervalBreakTime, now);
      outcome == r.outcome && pool.States() == r.states && pool.intervalBreakTime == r.breakTime
  {
    assert pool.Configs()[last] == api.config;
    var raised := Redistribute(pool, delta, api.config.interfaceId, now);
    outcome := if raised then DivisionByZero else Updated;
  }

  /** Reads the status of the endpoint and counts the report. */
  method ReportTo(pool: Pool, api: Api, ghost last: nat, success: bool, now: real) returns (status: ApiStatus)
    requires pool.Valid() && last < |pool.apis| && pool.apis[last] == api
    modifies api
    ensures pool.Valid()
    ensures pool.States() == old(pool.States())[last := Reported(old(pool.States())[last], api.config, success, now)]
    ensures status == pool.States()[last].status
  {
    ghost var was := pool.States();
    assert was[last] == api.State();
    assert forall j :: 0 <= j < |pool.apis| && j != last ==> pool.apis[j] != api;
    status := api.GetStatus(now);
    if success {
      api.ResetFail();
    } else {
      api.RecordFail();
    }
    assert api.State() == Reported(was[last], api.config, success, now);
    assert pool.States() == was[last := api.State()];
  }

  // ----- what reports do -----

  /** Whatever is shared out, the endpoint a report is about only counts it. */
  lemma ReporterUntouched(states: seq<ApiState>, configs: seq<ApiConfig>, last: nat, success: bool, baseSum: int,
                          adaptInterval: int, breakTime: real, now: real)
    requires last < |states| == |configs|
    ensures Updating(states, configs, last, success, baseSum, adaptInterval, breakTime, now).states[last] ==
      Reported(states[last], configs[last], success, now)
  {
    var after := states[last := Reported(states[last], configs[last], success, now)];
    OthersUntouched(after, configs, configs[last].interfaceId, configs[last].decayStep, baseSum, now, last);
    OthersUntouched(after, configs, configs[last].interfaceId, configs[last].recoverStep, baseSum, now, last);
  }

  /**
    A success reported right after an acquire meets the status that should not be exactly
    when that acquire was refused and the cool-down of the endpoint is not over.
   */
  lemma SuccessAfterAcquire(states: seq<ApiState>, configs: seq<ApiConfig>, now: real, healthy: bool, b: nat, after: seq<ApiState>,
                            baseSum: int, adaptInterval: int, breakTime: real, later: real)
    requires |states| == |configs| && AcquireStep(states, configs, now, healthy, b, after)
    ensures b < |after| == |configs|
    ensures Updating(after, configs, b, true, baseSum, adaptInterval, breakTime, later).outcome == ImpossibleStatus <==>
      after[b].status == Stopped && later <= after[b].coolEnding
  {
  }

  /** Acquires of one endpoint by healthy calls, each reported to have failed, at times `nows`. */
  function Failing(s: ApiState, config: ApiConfig, nows: seq<real>): ApiState {
    if nows == [] then s
    else
      var now := nows[|nows| - 1];
      Reported(Called(Failing(s, config, nows[..|nows| - 1]), config, true, now), config, false, now)
  }

  /** An endpoint stays in service for `maxFails` failing calls in a row, and the next call, whenever it comes, is refused. */
  lemma {:induction false} BreaksAfterMaxFails(s: ApiState, config: ApiConfig, nows: seq<real>, next: real)
    requires s.status != Stopped && s.failCount == 0 && config.coolDown >= 0.0
    requires |nows| <= config.maxFails
    ensures var t := Failing(s, config, nows);
      && t == s.(failCount := |nows|)
      && (Called(t, config, true, next).status == Stopped <==> |nows| == config.maxFails)
  {
    if nows != [] {
      var n := |nows| - 1;
      BreaksAfterMaxFails(s, config, nows[..n], nows[n]);
    }
  }

  /**
    What a reported failure does to the total weight of the pool, if it breaks no endpoint:
    nothing is taken from the endpoint that failed, and the others get exactly `decayStep`
    if and only if the rounding residual can be corrected.
   */
  lemma FailureShares(states: seq<ApiState>, configs: seq<ApiConfig>, last: nat, baseSum: int, adaptInterval: int,
                      breakTime: real, now: real)
    requires last < |states| == |configs| && baseSum != 0
    requires var selected := Selected(states[last := Reported(states[last], configs[last], false, now)], configs,
                                      configs[last].interfaceId, now);
      var targets := Targets(selected, configs, configs[last].interfaceId, |selected|);
      targets != [] && NoneBreaks(selected, targets, CorrectedShares(configs[last].decayStep, WeightsOf(configs, targets), baseSum))
    ensures var r := Updating(states, configs, last, false, baseSum, adaptInterval, breakTime, now);
      var selected := Selected(states[last := Reported(states[last], configs[last], false, now)], configs,
                               configs[last].interfaceId, now);
      var targets := Targets(selected, configs, configs[last].interfaceId, |selected|);
      var residual := configs[last].decayStep - Sum(RoundedShares(configs[last].decayStep, WeightsOf(configs, targets), baseSum));
      && r.states[last].dynamicWeight == Refreshed(states[last], configs[last], now).dynamicWeight
      && (Sum(Dynamic(r.states)) == Sum(Dynamic(selected)) + configs[last].decayStep <==>
            0 <= residual <= |targets| || residual == -|targets|)
  {
    ReporterUntouched(states, configs, last, false, baseSum, adaptInterval, breakTime, now);
    TotalChange(states[last := Reported(states[last], configs[last], false, now)], configs, configs[last].interfaceId,
      configs[last].decayStep, baseSum, now);
  }
}
