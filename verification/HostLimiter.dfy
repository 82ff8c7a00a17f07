/** The per-host limiter of concurrency and request rate, as the interleaving of its tasks' steps. */
module HostLimiter {
  import opened Wrappers

  /** One use of the guard. `Ready` tasks found the gate open at the given time; `Asleep` ones wake no earlier than theirs. */
  datatype Phase = Admitted | Ready(since: real) | Asleep(until: real) | Inside

  datatype HostState = HostState(permits: int, lockHolder: Option<nat>, nextTime: real, phases: map<nat, Phase>)

  datatype Config = Config(maxConcurrency: int, minInterval: real)

  /** The points between which a task holds on to the event loop. */
  datatype Step =
    | Acquire(task: nat)
    | TakeLock(task: nat, now: real)
    | PassGate(task: nat, now: real)
    | Release(task: nat)

  function Initial(cfg: Config): HostState {
    HostState(cfg.maxConcurrency, None, 0.0, map[])
  }

  /** Whether the task may take the step now; a blocked task takes none. */
  predicate Enabled(s: HostState, step: Step) {
    match step
    case Acquire(t) => t !in s.phases && s.permits > 0
    case TakeLock(t, _) => t in s.phases && s.phases[t] == Admitted && s.lockHolder.None?
    case PassGate(t, now) =>
      t in s.phases &&
      (match s.phases[t]
       case Ready(since) => since <= now
       case Asleep(until) => until <= now
       case _ => false)
    case Release(t) => t in s.phases && s.phases[t] == Inside
  }

  function After(s: HostState, step: Step, cfg: Config): HostState {
    match step
    case Acquire(t) => s.(permits := s.permits - 1, phases := s.phases[t := Admitted])
    case TakeLock(t, now) =>
      var wait := s.nextTime - now;
      s.(lockHolder := Some(t), phases := s.phases[t := if wait > 0.0 then Asleep(now + wait) else Ready(now)])
    case PassGate(t, now) => s.(lockHolder := None, nextTime := now + cfg.minInterval, phases := s.phases[t := Inside])
    case Release(t) => s.(permits := s.permits + 1, phases := s.phases - {t})
  }

  function HostRun(steps: seq<Step>, cfg: Config): HostState {
    if steps == [] then Initial(cfg) else After(HostRun(steps[..|steps| - 1], cfg), steps[|steps| - 1], cfg)
  }

  predicate HostTrace(steps: seq<Step>, cfg: Config) {
    steps == [] ||
    (HostTrace(steps[..|steps| - 1], cfg) && Enabled(HostRun(steps[..|steps| - 1], cfg), steps[|steps| - 1]))
  }

  // ----- what every interleaving keeps -----

  predicate HasLock(p: Phase) {
    p.Ready? || p.Asleep?
  }

  /** Permits are handed out once, and exactly the lock holder is between taking the lock and passing the gate. */
  ghost predicate Kept(s: HostState, cfg: Config) {
    && s.permits + |s.phases| == cfg.maxConcurrency
    && (s.phases != map[] ==> s.permits >= 0)
    && (forall t :: t in s.phases && HasLock(s.phases[t]) <==> s.lockHolder == Some(t))
    && (forall t :: t in s.phases ==>
          match s.phases[t]
          case Ready(since) => s.nextTime <= since
          case Asleep(until) => s.nextTime <= until
          case _ => true)
  }

  lemma StepKeeps(s: HostState, step: Step, cfg: Config)
    requires Kept(s, cfg) && Enabled(s, step)
    ensures Kept(After(s, step, cfg), cfg)
  {
    var after := After(s, step, cfg);
    match step
    case Acquire(t) => NewKey(s.phases, t, Admitted);
    case TakeLock(t, now) => SameKeys(s.phases, t, after.phases[t]);
    case PassGate(t, now) => SameKeys(s.phases, t, Inside);
    case Release(t) => LessKey(s.phases, t);
  }

  lemma NewKey(m: map<nat, Phase>, t: nat, p: Phase)
    requires t !in m
    ensures |m[t := p]| == |m| + 1
  {
    assert m[t := p].Keys == m.Keys + {t};
    assert |m.Keys| == |m| && |m[t := p].Keys| == |m[t := p]|;
  }

  lemma SameKeys(m: map<nat, Phase>, t: nat, p: Phase)
    requires t in m
    ensures |m[t := p]| == |m|
  {
    assert m[t := p].Keys == m.Keys;
    assert |m.Keys| == |m| && |m[t := p].Keys| == |m[t := p]|;
  }

  lemma LessKey(m: map<nat, Phase>, t: nat)
    requires t in m
    ensures |m - {t}| == |m| - 1
  {
    assert (m - {t}).Keys == m.Keys - {t};
    assert |m.Keys| == |m| && |(m - {t}).Keys| == |m - {t}|;
  }

  lemma {:induction false} HostKept(steps: seq<Step>, cfg: Config)
    requires HostTrace(steps, cfg)
    ensures Kept(HostRun(steps, cfg), cfg)
  {
    if steps != [] {
      HostKept(steps[..|steps| - 1], cfg);
      StepKeeps(HostRun(steps[..|steps| - 1], cfg), steps[|steps| - 1], cfg);
    }
  }

  /** The tasks that are inside the guard. */
  function Holders(s: HostState): set<nat> {
    set t | t in s.phases && s.phases[t] == Inside
  }

  /** In every interleaving at most `maxConcurrency` tasks are inside the guard of a host, and one at most is at its gate. */
  lemma AtMostMaxInside(steps: seq<Step>, cfg: Config)
    requires HostTrace(steps, cfg)
    ensures |Holders(HostRun(steps, cfg))| <= if cfg.maxConcurrency > 0 then cfg.maxConcurrency else 0
    ensures var phases := HostRun(steps, cfg).phases;
      forall t, u :: t in phases && u in phases && HasLock(phases[t]) && HasLock(phases[u]) ==> t == u
  {
    HostKept(steps, cfg);
    var s := HostRun(steps, cfg);
    SubsetSize(Holders(s), s.phases.Keys);
  }

  lemma {:induction false} SubsetSize(a: set<nat>, b: set<nat>)
    requires a <= b
    ensures |a| <= |b|
  {
    if a != {} {
      var x :| x in a;
      SubsetSize(a - {x}, b - {x});
    }
  }

  // ----- the gate -----

  /** The times at which tasks passed the gate, in order. */
  function Gates(steps: seq<Step>): seq<real> {
    if steps == [] then []
    else
      var last := steps[|steps| - 1];
      Gates(steps[..|steps| - 1]) + (if last.PassGate? then [last.now] else [])
  }

  lemma {:induction false} NextTimeIs(steps: seq<Step>, cfg: Config)
    ensures HostRun(steps, cfg).nextTime ==
      (if Gates(steps) == [] then 0.0 else Gates(steps)[|Gates(steps)| - 1] + cfg.minInterval)
  {
    if steps != [] {
      NextTimeIs(steps[..|steps| - 1], cfg);
    }
  }

  /** In every interleaving successive gate times of a host are at least the minimal interval apart. */
  lemma {:induction false} GatesApart(steps: seq<Step>, cfg: Config, i: nat)
    requires HostTrace(steps, cfg) && i + 1 < |Gates(steps)|
    ensures Gates(steps)[i + 1] - Gates(steps)[i] >= cfg.minInterval
  {
    var front, last := steps[..|steps| - 1], steps[|steps| - 1];
    if last.PassGate? && i + 1 == |Gates(front)| {
      HostKept(front, cfg);
      NextTimeIs(front, cfg);
    } else {
      GatesApart(front, cfg, i);
    }
  }

  /** Any window of the gate's times is as long as the intervals in it. */
  lemma {:induction false} RateLimited(steps: seq<Step>, cfg: Config, i: nat, j: nat)
    requires HostTrace(steps, cfg) && i <= j < |Gates(steps)|
    ensures Gates(steps)[j] - Gates(steps)[i] >= (j - i) as real * cfg.minInterval
  {
    if i < j {
      RateLimited(steps, cfg, i, j - 1);
      GatesApart(steps, cfg, j - 1);
      assert (j - i) as real * cfg.minInterval == (j - 1 - i) as real * cfg.minInterval + cfg.minInterval;
    }
  }

  /** As long as any task is at the guard, some task can take a step, given time. */
  lemma NeverStuck(steps: seq<Step>, cfg: Config) returns (step: Step)
    requires HostTrace(steps, cfg) && HostRun(steps, cfg).phases != map[]
    ensures Enabled(HostRun(steps, cfg), step) && !step.Acquire?
  {
    HostKept(steps, cfg);
    var s := HostRun(steps, cfg);
    if s.lockHolder.Some? {
      var t := s.lockHolder.value;
      step := PassGate(t, if s.phases[t].Ready? then s.phases[t].since else s.phases[t].until);
    } else {
      var t :| t in s.phases;
      step := if s.phases[t].Inside? then Release(t) else TakeLock(t, 0.0);
    }
  }

  // ----- many hosts -----

  datatype Event = Event(host: string, step: Step)

  type Hosts = map<string, HostState>

  function Of(hosts: Hosts, host: string, cfg: Config): HostState {
    if host in hosts then hosts[host] else Initial(cfg)
  }

  /** The limiter's tables after a sequence of events; a host gets its entries when first used. */
  function Run(events: seq<Event>, cfg: Config): Hosts {
    if events == [] then map[]
    else
      var hosts, e := Run(events[..|events| - 1], cfg), events[|events| - 1];
      hosts[e.host := After(Of(hosts, e.host, cfg), e.step, cfg)]
  }

  predicate Trace(events: seq<Event>, cfg: Config) {
    events == [] ||
    (var front, e := events[..|events| - 1], events[|events| - 1];
     Trace(front, cfg) && Enabled(Of(Run(front, cfg), e.host, cfg), e.step))
  }

  /** The steps one host sees. */
  function Project(events: seq<Event>, host: string): seq<Step> {
    if events == [] then []
    else
      var e := events[|events| - 1];
      Project(events[..|events| - 1], host) + (if e.host == host then [e.step] else [])
  }

  /** What happens at other hosts makes no difference to a host. */
  lemma {:induction false} HostsAreIndependent(events: seq<Event>, host: string, cfg: Config)
    ensures Of(Run(events, cfg), host, cfg) == HostRun(Project(events, host), cfg)
  {
    if events != [] {
      var front, e := events[..|events| - 1], events[|events| - 1];
      HostsAreIndependent(front, host, cfg);
      if e.host == host {
        assert (Project(front, host) + [e.step])[..|Project(front, host)|] == Project(front, host);
      } else {
        assert Project(events, host) == Project(front, host);
      }
    }
  }

  ghost predicate EveryHost(events: seq<Event>, cfg: Config) {
    forall host :: HostTrace(Project(events, host), cfg)
  }

  lemma ProjectSnoc(front: seq<Event>, e: Event, host: string)
    ensures Project(front + [e], host) == if host == e.host then Project(front, host) + [e.step] else Project(front, host)
  {
    assert (front + [e])[..|front|] == front;
    assert host != e.host ==> Project(front, host) + [] == Project(front, host);
  }

  lemma HostTraceSnoc(mine: seq<Step>, step: Step, cfg: Config)
    ensures HostTrace(mine + [step], cfg) <==> HostTrace(mine, cfg) && Enabled(HostRun(mine, cfg), step)
  {
    assert (mine + [step])[..|mine|] == mine;
  }

  lemma EveryHostSnoc(front: seq<Event>, e: Event, cfg: Config)
    ensures EveryHost(front + [e], cfg) <==>
      EveryHost(front, cfg) && Enabled(HostRun(Project(front, e.host), cfg), e.step)
  {
    forall host
      ensures HostTrace(Project(front + [e], host), cfg) <==>
        HostTrace(Project(front, host), cfg) && (host == e.host ==> Enabled(HostRun(Project(front, host), cfg), e.step))
    {
      ProjectSnoc(front, e, host);
      HostTraceSnoc(Project(front, host), e.step, cfg);
    }
  }

  /** A sequence of events can happen exactly when every host could have done its part alone. */
  lemma {:induction false} TraceByHost(events: seq<Event>, cfg: Config)
    ensures Trace(events, cfg) <==> EveryHost(events, cfg)
  {
    if events != [] {
      var front, e := events[..|events| - 1], events[|events| - 1];
      assert events == front + [e];
      TraceByHost(front, cfg);
      HostsAreIndependent(front, e.host, cfg);
      EveryHostSnoc(front, e, cfg);
    }
  }

  /** Whatever tasks of whatever hosts interleave, each host's guard keeps its own two limits. */
  lemma EveryHostIsLimited(events: seq<Event>, cfg: Config, host: string)
    requires Trace(events, cfg)
    ensures |Holders(Of(Run(events, cfg), host, cfg))| <= if cfg.maxConcurrency > 0 then cfg.maxConcurrency else 0
    ensures var gates := Gates(Project(events, host));
      forall i :: 0 <= i < |gates| - 1 ==> gates[i + 1] - gates[i] >= cfg.minInterval
  {
    TraceByHost(events, cfg);
    HostsAreIndependent(events, host, cfg);
    var steps := Project(events, host);
    assert HostTrace(steps, cfg);
    AtMostMaxInside(steps, cfg);
    forall i | 0 <= i < |Gates(steps)| - 1
      ensures Gates(steps)[i + 1] - Gates(steps)[i] >= cfg.minInterval
    {
      GatesApart(steps, cfg, i);
    }
  }

  // ----- the limiter itself -----

  /** What the three tables say of one host. */
  datatype Entry = Entry(semaphore: int, lock: Option<nat>, nextTime: real)

  datatype Tables = Tables(semaphores: map<string, int>, locks: map<string, Option<nat>>, nextTimes: map<string, real>)

  predicate HasEntry(t: Tables, host: string) {
    host in t.semaphores && host in t.locks && host in t.nextTimes
  }

  function EntryOf(s: HostState): Entry {
    Entry(s.permits, s.lockHolder, s.nextTime)
  }

  /** The tables hold, for every host used so far, what its tasks have made of them. */
  ghost predicate Agree(t: Tables, events: seq<Event>, cfg: Config) {
    && (forall h :: h in t.semaphores ==>
          HasEntry(t, h) && Entry(t.semaphores[h], t.locks[h], t.nextTimes[h]) == EntryOf(Of(Run(events, cfg), h, cfg)))
    && (forall h :: h in Run(events, cfg) ==> h in t.semaphores)
  }

  function Updated(t: Tables, host: string, e: Entry): Tables {
    Tables(t.semaphores[host := e.semaphore], t.locks[host := e.lock], t.nextTimes[host := e.nextTime])
  }

  lemma StepAgrees(t: Tables, events: seq<Event>, host: string, step: Step, cfg: Config)
    requires Trace(events, cfg) && Agree(t, events, cfg) && Enabled(Of(Run(events, cfg), host, cfg), step)
    ensures Trace(events + [Event(host, step)], cfg)
    ensures Agree(Updated(t, host, EntryOf(After(Of(Run(events, cfg), host, cfg), step, cfg))), events + [Event(host, step)], cfg)
  {
    assert (events + [Event(host, step)])[..|events|] == events;
  }

  lemma FirstUse(t: Tables, events: seq<Event>, host: string, cfg: Config)
    requires Agree(t, events, cfg) && host !in t.semaphores
    ensures Agree(Updated(t, host, Entry(cfg.maxConcurrency, None, 0.0)), events, cfg)
  {
    assert Of(Run(events, cfg), host, cfg) == Initial(cfg);
  }

  /** Each method is what a task does between two points where others may run. */
  class Limiter {
    const cfg: Config
    var tables: Tables
    ghost var events: seq<Event>

    ghost predicate Valid()
      reads this
    {
      Trace(events, cfg) && Agree(tables, events, cfg)
    }

    /** The state the tasks of a host are in. */
    ghost function State(host: string): HostState
      reads this
    {
      Of(Run(events, cfg), host, cfg)
    }

    constructor (maxConcurrency: int, minInterval: real)
      ensures Valid() && cfg == Config(maxConcurrency, minInterval) && events == []
    {
      cfg := Config(maxConcurrency, minInterval);
      tables, events := Tables(map[], map[], map[]), [];
    }

    /** The entry of a host, made on first use. */
    method Get(host: string) returns (e: Entry)
      requires Valid()
      modifies this`tables
      ensures Valid() && e == EntryOf(State(host)) && HasEntry(tables, host)
    {
      if host !in tables.semaphores {
        FirstUse(tables, events, host, cfg);
        tables := Updated(tables, host, Entry(cfg.maxConcurrency, None, 0.0));
      }
      e := Entry(tables.semaphores[host], tables.locks[host], tables.nextTimes[host]);
    }

    /** Takes a permit if there is one; a task that gets none waits and tries again. */
    method AcquireSemaphore(host: string, task: nat) returns (acquired: bool)
      requires Valid() && task !in State(host).phases
      modifies this
      ensures Valid() && (acquired <==> old(State(host)).permits > 0)
      ensures events == old(events) + if acquired then [Event(host, Acquire(task))] else []
    {
      var e := Get(host);
      acquired := e.semaphore > 0;
      if acquired {
        Take(host, Acquire(task), e.(semaphore := e.semaphore - 1));
      }
    }

    /** Takes the free lock and says how long to sleep, if at all. */
    method EnterGate(host: string, task: nat, now: real) returns (wait: real)
      requires Valid() && Enabled(State(host), TakeLock(task, now))
      modifies this
      ensures Valid() && events == old(events) + [Event(host, TakeLock(task, now))]
      ensures wait == old(State(host)).nextTime - now
    {
      var e := Get(host);
      wait := e.nextTime - now;
      Take(host, TakeLock(task, now), e.(lock := Some(task)));
    }

    /** After the sleep: books the next start and lets go of the lock. */
    method LeaveGate(host: string, task: nat, now: real)
      requires Valid() && Enabled(State(host), PassGate(task, now))
      modifies this
      ensures Valid() && events == old(events) + [Event(host, PassGate(task, now))]
    {
      var e := Get(host);
      Take(host, PassGate(task, now), Entry(e.semaphore, None, now + cfg.minInterval));
    }

    method ReleaseSemaphore(host: string, task: nat)
      requires Valid() && Enabled(State(host), Release(task))
      modifies this
      ensures Valid() && events == old(events) + [Event(host, Release(task))]
    {
      var e := Get(host);
      Take(host, Release(task), e.(semaphore := e.semaphore + 1));
    }

    /** Writes a host's entry back as a step leaves it. */
    method Take(host: string, step: Step, e: Entry)
      requires Valid() && HasEntry(tables, host)
      requires Enabled(State(host), step) && e == EntryOf(After(State(host), step, cfg))
      modifies this
      ensures Valid() && events == old(events) + [Event(host, step)]
    {
      StepAgrees(tables, events, host, step, cfg);
      tables := Updated(tables, host, e);
      events := events + [Event(host, step)];
    }
  }
}
