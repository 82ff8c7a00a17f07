/**
  When a task may take its next step at a host's guard, read off what has happened there so
  far and nothing else, in both directions.
 */
module GuardHistory {
  import opened Wrappers
  import opened HostLimiter

  function TaskOf(step: Step): nat {
    match step
    case Acquire(t) => t
    case TakeLock(t, _) => t
    case PassGate(t, _) => t
    case Release(t) => t
  }

  /** The last step a task has taken. */
  function LastOf(steps: seq<Step>, t: nat): (r: Option<Step>)
    ensures r.Some? ==> TaskOf(r.value) == t
  {
    if steps == [] then None
    else if TaskOf(steps[|steps| - 1]) == t then Some(steps[|steps| - 1])
    else LastOf(steps[..|steps| - 1], t)
  }

  /** How many tasks were let in and have not left. */
  function LetIn(steps: seq<Step>): int {
    if steps == [] then 0
    else
      var last := steps[|steps| - 1];
      LetIn(steps[..|steps| - 1]) + (if last.Acquire? then 1 else if last.Release? then -1 else 0)
  }

  /** A task has gone to the gate and not yet passed it. */
  predicate GateTaken(steps: seq<Step>) {
    steps != [] &&
    var last := steps[|steps| - 1];
    last.TakeLock? || (!last.PassGate? && GateTaken(steps[..|steps| - 1]))
  }

  /** When the gate opens again: an interval after it was last passed. */
  function Opening(steps: seq<Step>, cfg: Config): real {
    var gates := Gates(steps);
    if gates == [] then 0.0 else gates[|gates| - 1] + cfg.minInterval
  }

  /**
    The limiter's rule.  A task that is not at the guard is let in while fewer than the
    maximum are; one that was let in goes to the gate when nobody is there; it passes once the
    gate is open, and at once if it is; and one that has passed can leave.
   */
  predicate May(steps: seq<Step>, step: Step, cfg: Config) {
    var last := LastOf(steps, TaskOf(step));
    match step
    case Acquire(t) => (last.None? || last.value.Release?) && LetIn(steps) < cfg.maxConcurrency
    case TakeLock(t, _) => last == Some(Acquire(t)) && !GateTaken(steps)
    case PassGate(t, now) => last.Some? && last.value.TakeLock? && last.value.now <= now && Opening(steps, cfg) <= now
    case Release(t) => last.Some? && last.value.PassGate?
  }

  // ----- the limiter's state reflects the history -----

  /** What the last step of a task says of its phase. */
  ghost predicate Standing(s: HostState, t: nat, last: Option<Step>) {
    if last.None? || last.value.Release? then t !in s.phases
    else
      t in s.phases && s.phases[t] ==
        match last.value
        case Acquire(_) => Admitted
        case TakeLock(_, now) => if now < s.nextTime then Asleep(s.nextTime) else Ready(now)
        case _ => Inside
  }

  ghost predicate Reflects(steps: seq<Step>, s: HostState, cfg: Config) {
    && s.permits == cfg.maxConcurrency - LetIn(steps) && s.nextTime == Opening(steps, cfg)
    && (s.lockHolder.Some? <==> GateTaken(steps))
    && forall t :: Standing(s, t, LastOf(steps, t))
  }

  lemma StepReflects(steps: seq<Step>, s: HostState, step: Step, cfg: Config)
    requires Kept(s, cfg) && Reflects(steps, s, cfg) && Enabled(s, step)
    ensures Reflects(steps + [step], After(s, step, cfg), cfg)
  {
    var all, after := steps + [step], After(s, step, cfg);
    assert all[..|all| - 1] == steps;
    forall t
      ensures Standing(after, t, LastOf(all, t))
    {
      assert Standing(s, t, LastOf(steps, t));
    }
  }

  lemma {:induction false} RunReflects(steps: seq<Step>, cfg: Config)
    requires HostTrace(steps, cfg)
    ensures Reflects(steps, HostRun(steps, cfg), cfg)
  {
    if steps != [] {
      var n := |steps| - 1;
      RunReflects(steps[..n], cfg);
      HostKept(steps[..n], cfg);
      assert steps == steps[..n] + [steps[n]];
      StepReflects(steps[..n], HostRun(steps[..n], cfg), steps[n], cfg);
    }
  }

  /** After any steps, a task can take a step exactly if the rule lets it. */
  lemma EnabledExactly(steps: seq<Step>, step: Step, cfg: Config)
    requires HostTrace(steps, cfg)
    ensures Enabled(HostRun(steps, cfg), step) <==> May(steps, step, cfg)
  {
    RunReflects(steps, cfg);
    HostKept(steps, cfg);
    assert Standing(HostRun(steps, cfg), TaskOf(step), LastOf(steps, TaskOf(step)));
  }

  /** The event follows the rule of its host. */
  predicate Lawful(events: seq<Event>, k: nat, cfg: Config)
    requires k < |events|
  {
    May(Project(events[..k], events[k].host), events[k].step, cfg)
  }

  predicate AllLawful(events: seq<Event>, cfg: Config) {
    forall k :: 0 <= k < |events| ==> Lawful(events, k, cfg)
  }

  lemma LawfulSnoc(front: seq<Event>, e: Event, cfg: Config)
    ensures AllLawful(front + [e], cfg) <==> AllLawful(front, cfg) && May(Project(front, e.host), e.step, cfg)
  {
    var all := front + [e];
    forall k | 0 <= k < |front|
      ensures Lawful(all, k, cfg) <==> Lawful(front, k, cfg)
    {
      assert all[..k] == front[..k] && all[k] == front[k];
    }
    assert all[..|front|] == front && all[|front|] == e;
    assert Lawful(all, |front|, cfg) <==> May(Project(front, e.host), e.step, cfg);
  }

  lemma TraceSnoc(front: seq<Event>, e: Event, cfg: Config)
    ensures Trace(front + [e], cfg) <==> Trace(front, cfg) && May(Project(front, e.host), e.step, cfg)
  {
    assert (front + [e])[..|front|] == front;
    if Trace(front, cfg) {
      TraceByHost(front, cfg);
      HostsAreIndependent(front, e.host, cfg);
      EnabledExactly(Project(front, e.host), e.step, cfg);
    }
  }

  /** Over all hosts: events can happen exactly if each follows the rule of its host. */
  lemma {:induction false} TraceIsLawful(events: seq<Event>, cfg: Config)
    ensures Trace(events, cfg) <==> AllLawful(events, cfg)
  {
    if events != [] {
      var n := |events| - 1;
      assert events == events[..n] + [events[n]];
      TraceIsLawful(events[..n], cfg);
      LawfulSnoc(events[..n], events[n], cfg);
      TraceSnoc(events[..n], events[n], cfg);
    }
  }
}
