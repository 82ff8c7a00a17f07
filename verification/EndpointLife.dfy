/**
  The life of an endpoint over a break: out of service with nothing left until the cool-down
  is over, and back with exactly its recovery step, which it earns again at every acquire.
 */
module EndpointLife {
  import opened Scheduler

  /** An endpoint after the acquires at these times have looked at it, and picked others. */
  function LookedAt(s: ApiState, config: ApiConfig, nows: seq<real>): ApiState {
    if nows == [] then s
    else Lifted(LookedAt(s, config, nows[..|nows| - 1]), config, nows[|nows| - 1])
  }

  lemma {:induction false} LookedAtLater(s: ApiState, config: ApiConfig, a: seq<real>, b: seq<real>)
    ensures LookedAt(s, config, a + b) == LookedAt(LookedAt(s, config, a), config, b)
  {
    if b == [] {
      assert a + b == a;
    } else {
      var n := |b| - 1;
      assert (a + b)[..|a + b| - 1] == a + b[..n];
      LookedAtLater(s, config, a, b[..n]);
    }
  }

  /** Out of service until `end`, with no weight and no failures; the running weight is kept. */
  predicate OutUntil(s: ApiState, swrr: int, end: real) {
    s == ApiState(Stopped, 0, swrr, 0, end)
  }

  lemma {:induction false} StaysOut(s: ApiState, config: ApiConfig, swrr: int, end: real, nows: seq<real>)
    requires OutUntil(s, swrr, end) && forall i :: 0 <= i < |nows| ==> nows[i] <= end
    ensures LookedAt(s, config, nows) == s
  {
    if nows != [] {
      StaysOut(s, config, swrr, end, nows[..|nows| - 1]);
    }
  }

  lemma {:induction false} EarnsItsWeight(s: ApiState, config: ApiConfig, nows: seq<real>)
    requires s.status != Stopped
    ensures LookedAt(s, config, nows) == s.(swrrWeight := s.swrrWeight + |nows| * s.dynamicWeight)
  {
    if nows != [] {
      EarnsItsWeight(s, config, nows[..|nows| - 1]);
    }
  }

  /**
    Whatever looks at it until the cool-down is over, a broken endpoint stays as it is.  The
    first look after that brings it back with exactly the recovery step as its weight, and
    this and every later one adds as much to its running weight.
   */
  lemma ComesBack(s: ApiState, config: ApiConfig, swrr: int, end: real, early: seq<real>, first: real, late: seq<real>)
    requires OutUntil(s, swrr, end) && (forall i :: 0 <= i < |early| ==> early[i] <= end) && end < first
    ensures LookedAt(s, config, early) == s
    ensures LookedAt(s, config, early + [first] + late) ==
      ApiState(Recovering, config.recoverStep, swrr + (1 + |late|) * config.recoverStep, 0, 0.0)
  {
    StaysOut(s, config, swrr, end, early);
    LooksOnce(s, config, swrr, end, early, first);
    LookedAtLater(s, config, early + [first], late);
    var back := ApiState(Recovering, config.recoverStep, swrr + config.recoverStep, 0, 0.0);
    EarnsItsWeight(back, config, late);
    assert swrr + config.recoverStep + |late| * config.recoverStep == swrr + (1 + |late|) * config.recoverStep;
  }

  lemma LooksOnce(s: ApiState, config: ApiConfig, swrr: int, end: real, early: seq<real>, first: real)
    requires OutUntil(s, swrr, end) && LookedAt(s, config, early) == s && end < first
    ensures LookedAt(s, config, early + [first]) == ApiState(Recovering, config.recoverStep, swrr + config.recoverStep, 0, 0.0)
  {
    assert (early + [first])[..|early|] == early;
  }

  /** The life over a break by a call: on an unhealthy endpoint, or one that has failed too often. */
  lemma LifeOverCall(s: ApiState, config: ApiConfig, healthy: bool, now: real, early: seq<real>, first: real, late: seq<real>)
    requires (!healthy || s.failCount >= config.maxFails) && config.coolDown >= 0.0
    requires (forall i :: 0 <= i < |early| ==> early[i] <= now + config.coolDown) && now + config.coolDown < first
    ensures OutUntil(LookedAt(Called(s, config, healthy, now), config, early), s.swrrWeight, now + config.coolDown)
    ensures LookedAt(Called(s, config, healthy, now), config, early + [first] + late) ==
      ApiState(Recovering, config.recoverStep, s.swrrWeight + (1 + |late|) * config.recoverStep, 0, 0.0)
  {
    ComesBack(Called(s, config, healthy, now), config, s.swrrWeight, now + config.coolDown, early, first, late);
  }

  /** The life over a break by a weight change that leaves less than nothing. */
  lemma LifeOverWeightChange(s: ApiState, config: ApiConfig, delta: int, now: real, early: seq<real>, first: real, late: seq<real>)
    requires s.dynamicWeight + delta < 0
    requires (forall i :: 0 <= i < |early| ==> early[i] <= now + config.coolDown) && now + config.coolDown < first
    ensures OutUntil(LookedAt(Adapted(s, config, delta, now), config, early), s.swrrWeight, now + config.coolDown)
    ensures LookedAt(Adapted(s, config, delta, now), config, early + [first] + late) ==
      ApiState(Recovering, config.recoverStep, s.swrrWeight + (1 + |late|) * config.recoverStep, 0, 0.0)
  {
    ComesBack(Adapted(s, config, delta, now), config, s.swrrWeight, now + config.coolDown, early, first, late);
  }

  /** A call on a healthy endpoint changes nothing but what looking at it does; with a negative cool-down a break is over at once. */
  lemma CallLeaves(s: ApiState, config: ApiConfig, healthy: bool, now: real)
    ensures Called(s, config, healthy, now) ==
      if !healthy || s.failCount >= config.maxFails then
        if config.coolDown >= 0.0 then ApiState(Stopped, 0, s.swrrWeight, 0, now + config.coolDown)
        else ApiState(Recovering, config.recoverStep, s.swrrWeight, 0, 0.0)
      else if s.status == Stopped && now > s.coolEnding then
        ApiState(Recovering, s.dynamicWeight + config.recoverStep, s.swrrWeight, s.failCount, 0.0)
      else s
  {
  }
}
