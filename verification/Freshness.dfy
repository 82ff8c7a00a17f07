/** Any interleaving of fetches of one URL, and how fresh what they return is. */
module Freshness {
  import opened Wrappers
  import opened HttpFetch

  /** The origin's current representation at every moment. */
  type Origin = real -> Representation

  /** A fetch between its requests, with the stale entry it loaded and the headers of its caller. */
  datatype Task = Task(cached: Option<Entry>, caller: Caller, attempt: int)

  datatype Served = Served(now: real, status: int, body: string)

  /** `served` are the responses handed out so far. */
  datatype World = World(clock: real, disk: Option<Entry>, tasks: map<nat, Task>, served: seq<Served>)

  datatype Event = Begin(task: nat, now: real, caller: Caller) | Deliver(task: nat, exchange: Attempt)

  function TimeOf(e: Event): real {
    match e
    case Begin(_, now, _) => now
    case Deliver(_, a) => a.received
  }

  function Next(w: World, e: Event, cfg: Config): World {
    match e
    case Begin(id, now, caller) =>
      if w.disk.Some? && !Stale(w.disk.value, now, cfg.ttl) then
        w.(clock := now, served := w.served + [Served(now, 200, w.disk.value.rep.body)])
      else if cfg.maxAttempts < 1 then w.(clock := now)
      else w.(clock := now, tasks := w.tasks[id := Task(w.disk, caller, 1)])
    case Deliver(id, a) =>
      if id !in w.tasks then w
      else
        var t := w.tasks[id];
        match Decide(t.cached, t.attempt, cfg.maxAttempts, a.reply)
        case Retry => w.(clock := a.received, tasks := w.tasks[id := t.(attempt := t.attempt + 1)])
        case GiveUp => w.(clock := a.received, tasks := w.tasks - {id})
        case Answer(status, body, stored) =>
          World(a.received,
            if stored.Some? then Some(Entry(stored.value, a.received)) else w.disk,
            w.tasks - {id},
            w.served + [Served(a.received, status, body)])
  }

  // ----- what the origin and the callers keep to -----

  /** Equal validators mean equal bodies, whenever the origin gave them out. */
  ghost predicate VersionUnique(origin: Origin) {
    forall t, u :: SameVersion(origin(t), origin(u)) ==> origin(t).body == origin(u).body
  }

  predicate SameVersion(a: Representation, b: Representation) {
    (a.validators.etag.Some? && a.validators.etag == b.validators.etag) ||
    (a.validators.lastModified.Some? && a.validators.lastModified == b.validators.lastModified)
  }

  /**
    Whether the origin may say that nothing was modified: it compares entity tags if any were
    sent and dates only otherwise, each for equality, and of several values under one name it
    may go by any.
   */
  predicate Matches(sent: Conditions, current: Representation) {
    var v := current.validators;
    if sent.tags != {} then v.etag.Some? && v.etag.value in sent.tags
    else v.lastModified.Some? && v.lastModified.value in sent.dates
  }

  /** The origin answers a request by its representation at the time it processes it. */
  predicate Honest(sent: Conditions, current: Representation, reply: Reply) {
    reply.Response? ==>
      (reply.status == 200 ==> reply.rep == current) && (reply.status == 304 ==> Matches(sent, current))
  }

  /**
    No conditional header of the caller's decides a revalidation. An `If-None-Match` is harmless
    if the entry has an entity tag and the caller's header is spelled as the fetcher spells it,
    so that it is overwritten, or says the same; an `If-Modified-Since` is harmless beside an
    entity tag or under the same condition on dates. The fetcher's own headers give way to any
    spelling.
   */
  predicate OwnValidators(cached: Option<Entry>, caller: Caller) {
    cached.Some? ==>
      var v := cached.value.rep.validators;
      && (forall k :: k in caller.own && SameName(k, IF_NONE_MATCH) ==>
            v.etag.Some? && (k == IF_NONE_MATCH || caller.own[k] == v.etag.value))
      && (forall k :: k in caller.own && SameName(k, IF_MODIFIED_SINCE) ==>
            v.etag.Some? || (v.lastModified.Some? && (k == IF_MODIFIED_SINCE || caller.own[k] == v.lastModified.value)))
      && (forall k :: k in caller.defaults && SameName(k, IF_NONE_MATCH) ==> v.etag.Some?)
      && (forall k :: k in caller.defaults && SameName(k, IF_MODIFIED_SINCE) ==> v.etag.Some? || v.lastModified.Some?)
  }

  /** A fetch that begins now goes to the origin. */
  predicate Requests(w: World, now: real, cfg: Config) {
    cfg.maxAttempts >= 1 && (w.disk.None? || Stale(w.disk.value, now, cfg.ttl))
  }

  /** Time does not go back, and an exchange takes at most `latency` from the origin's processing to its delivery. */
  ghost predicate Legit(w: World, e: Event, origin: Origin, latency: real, cfg: Config) {
    && w.clock <= TimeOf(e)
    && match e
       case Begin(id, now, caller) => id !in w.tasks && (Requests(w, now, cfg) ==> OwnValidators(w.disk, caller))
       case Deliver(id, a) =>
         && id in w.tasks
         && a.processed <= a.received <= a.processed + latency
         && Honest(Sent(w.tasks[id].cached, w.tasks[id].caller), origin(a.processed), a.reply)
  }

  const EMPTY_WORLD: World := World(0.0, None, map[], [])

  function Run(events: seq<Event>, cfg: Config): World {
    if events == [] then EMPTY_WORLD else Next(Run(events[..|events| - 1], cfg), events[|events| - 1], cfg)
  }

  ghost predicate Trace(events: seq<Event>, origin: Origin, latency: real, cfg: Config) {
    events == [] ||
    (Trace(events[..|events| - 1], origin, latency, cfg) &&
     Legit(Run(events[..|events| - 1], cfg), events[|events| - 1], origin, latency, cfg))
  }

  // ----- the invariant -----

  ghost predicate CurrentAt(origin: Origin, body: string, p: real) {
    origin(p).body == body
  }

  /** The body was the origin's at some moment between the two. */
  ghost predicate CurrentWithin(origin: Origin, body: string, from: real, to: real) {
    exists p :: from <= p <= to && CurrentAt(origin, body, p)
  }

  ghost predicate Is(origin: Origin, rep: Representation, u: real) {
    origin(u) == rep
  }

  ghost predicate FromOrigin(origin: Origin, rep: Representation) {
    exists u :: Is(origin, rep, u)
  }

  ghost predicate GoodEntry(e: Entry, origin: Origin, latency: real, clock: real) {
    e.fetchedAt <= clock && FromOrigin(origin, e.rep) &&
    CurrentWithin(origin, e.rep.body, e.fetchedAt - latency, e.fetchedAt)
  }

  ghost predicate GoodTask(t: Task, origin: Origin) {
    OwnValidators(t.cached, t.caller) && (t.cached.Some? ==> FromOrigin(origin, t.cached.value.rep))
  }

  ghost predicate FreshServed(s: Served, origin: Origin, latency: real, cfg: Config) {
    s.status == 200 ==> CurrentWithin(origin, s.body, s.now - cfg.ttl - latency, s.now)
  }

  ghost predicate Good(w: World, origin: Origin, latency: real, cfg: Config) {
    && (w.disk.Some? ==> GoodEntry(w.disk.value, origin, latency, w.clock))
    && (forall id :: id in w.tasks ==> GoodTask(w.tasks[id], origin))
    && (forall i :: 0 <= i < |w.served| ==> FreshServed(w.served[i], origin, latency, cfg))
  }

  /** The caller's values under a name that the entry's own validator does not overwrite. */
  function Kept(own: Headers, name: string, mine: Option<string>): set<string> {
    set k | k in own && SameName(k, name) && (mine.None? || k != name) :: own[k]
  }

  /** What a request to revalidate carries under the name of a validator. */
  lemma OutgoingAre(cached: Entry, caller: Caller, name: string)
    requires name == IF_NONE_MATCH || name == IF_MODIFIED_SINCE
    ensures var v := cached.rep.validators;
      var mine := if name == IF_NONE_MATCH then v.etag else v.lastModified;
      var own := (if mine.Some? then {mine.value} else {}) + Kept(caller.own, name, mine);
      Outgoing(Some(cached), caller, name) == if own != {} then own else Named(caller.defaults, name)
  {
    var v := cached.rep.validators;
    var mine := if name == IF_NONE_MATCH then v.etag else v.lastModified;
    assert !SameName(IF_NONE_MATCH, IF_MODIFIED_SINCE);
    UpdatedNames(caller.own, Requested(Some(cached), caller.own), name, mine);
  }

  /** An update under one spelling leaves the other spellings of the name as they were. */
  lemma UpdatedNames(own: Headers, out: Headers, name: string, mine: Option<string>)
    requires mine.Some? ==> name in out && out[name] == mine.value
    requires forall k :: SameName(k, name) && (mine.None? || k != name) ==>
      (k in out <==> k in own) && (k in out ==> out[k] == own[k])
    ensures Named(out, name) == (if mine.Some? then {mine.value} else {}) + Kept(own, name, mine)
  {
    assert SameName(name, name);
  }

  /** A 304 for the validators of an entry means that its body is current when the origin says so. */
  lemma NotModifiedMeansCurrent(origin: Origin, cached: Entry, caller: Caller, p: real)
    requires VersionUnique(origin) && FromOrigin(origin, cached.rep) && OwnValidators(Some(cached), caller)
    requires Matches(Sent(Some(cached), caller), origin(p))
    ensures origin(p).body == cached.rep.body
  {
    OutgoingAre(cached, caller, IF_NONE_MATCH);
    OutgoingAre(cached, caller, IF_MODIFIED_SINCE);
    var u :| Is(origin, cached.rep, u);
    assert SameVersion(origin(u), origin(p));
  }

  lemma AnswerIsCurrent(t: Task, a: Attempt, origin: Origin, cfg: Config)
    requires VersionUnique(origin) && GoodTask(t, origin)
    requires Honest(Sent(t.cached, t.caller), origin(a.processed), a.reply)
    requires Decide(t.cached, t.attempt, cfg.maxAttempts, a.reply).Answer?
    ensures var d := Decide(t.cached, t.attempt, cfg.maxAttempts, a.reply);
      && (d.status == 200 ==> CurrentAt(origin, d.body, a.processed))
      && (d.stored.Some? ==> d.status == 200 && d.stored.value.body == d.body && FromOrigin(origin, d.stored.value))
  {
    if a.reply.status == 304 && t.cached.Some? {
      NotModifiedMeansCurrent(origin, t.cached.value, t.caller, a.processed);
    } else if a.reply.status == 200 {
      assert Is(origin, a.reply.rep, a.processed);
    }
  }

  lemma Wider(origin: Origin, body: string, from: real, to: real, p: real)
    requires CurrentAt(origin, body, p) && from <= p <= to
    ensures CurrentWithin(origin, body, from, to)
  {
  }

  lemma BeginKeeps(w: World, e: Event, origin: Origin, latency: real, cfg: Config)
    requires cfg.ttl > 0.0 && latency >= 0.0 && e.Begin?
    requires Good(w, origin, latency, cfg) && Legit(w, e, origin, latency, cfg)
    ensures Good(Next(w, e, cfg), origin, latency, cfg)
  {
    if w.disk.Some? && !Stale(w.disk.value, e.now, cfg.ttl) {
      var entry := w.disk.value;
      var p :| entry.fetchedAt - latency <= p <= entry.fetchedAt && CurrentAt(origin, entry.rep.body, p);
      Wider(origin, entry.rep.body, e.now - cfg.ttl - latency, e.now, p);
    }
  }

  lemma DeliverKeeps(w: World, e: Event, origin: Origin, latency: real, cfg: Config)
    requires cfg.ttl > 0.0 && VersionUnique(origin) && e.Deliver?
    requires Good(w, origin, latency, cfg) && Legit(w, e, origin, latency, cfg)
    ensures Good(Next(w, e, cfg), origin, latency, cfg)
  {
    var t, a := w.tasks[e.task], e.exchange;
    var d := Decide(t.cached, t.attempt, cfg.maxAttempts, a.reply);
    if d.Answer? {
      AnswerIsCurrent(t, a, origin, cfg);
      if d.status == 200 {
        Wider(origin, d.body, a.received - latency, a.received, a.processed);
        Wider(origin, d.body, a.received - cfg.ttl - latency, a.received, a.processed);
      }
    }
  }

  lemma {:induction false} RunIsGood(events: seq<Event>, origin: Origin, latency: real, cfg: Config)
    requires cfg.ttl > 0.0 && latency >= 0.0 && VersionUnique(origin) && Trace(events, origin, latency, cfg)
    ensures Good(Run(events, cfg), origin, latency, cfg)
  {
    if events != [] {
      var front, e := events[..|events| - 1], events[|events| - 1];
      RunIsGood(front, origin, latency, cfg);
      if e.Begin? {
        BeginKeeps(Run(front, cfg), e, origin, latency, cfg);
      } else {
        DeliverKeeps(Run(front, cfg), e, origin, latency, cfg);
      }
    }
  }

  /**
    Freshness: whatever hits, revalidations, retries and failures came before and whatever
    fetches were under way, every body handed out with status 200 was the origin's current
    one at some moment no further back than the time to live and one exchange.
   */
  lemma EveryAnswerIsFresh(events: seq<Event>, origin: Origin, latency: real, cfg: Config, i: nat)
    requires cfg.ttl > 0.0 && latency >= 0.0 && VersionUnique(origin) && Trace(events, origin, latency, cfg)
    requires i < |Run(events, cfg).served| && Run(events, cfg).served[i].status == 200
    ensures var s := Run(events, cfg).served[i]; CurrentWithin(origin, s.body, s.now - cfg.ttl - latency, s.now)
  {
    RunIsGood(events, origin, latency, cfg);
  }

  // ----- what the bound depends on -----

  const OLD: Representation := Representation("old", NO_VALIDATORS)
  const NEW: Representation := Representation("new", NO_VALIDATORS)

  /** An origin that changes right after time zero. */
  function Changing(): Origin {
    t => if t <= 0.0 then OLD else NEW
  }

  /** A fetch processed at time zero and delivered `latency` later, and a second fetch at `later`. */
  function TwoFetches(latency: real, later: real): seq<Event> {
    [Begin(0, 0.0, NO_HEADERS), Deliver(0, Attempt(Response(200, OLD), 0.0, latency)), Begin(1, later, NO_HEADERS)]
  }

  lemma SecondIsServedOld(latency: real, later: real, cfg: Config)
    requires 0.0 <= latency <= later && cfg.maxAttempts >= 1
    requires cfg.ttl <= 0.0 || later - latency <= cfg.ttl
    ensures Trace(TwoFetches(latency, later), Changing(), latency, cfg)
    ensures Run(TwoFetches(latency, later), cfg).served == [Served(latency, 200, "old"), Served(later, 200, "old")]
  {
    var three := TwoFetches(latency, later);
    var two, one, none := three[..2], three[..1], three[..0];
    assert three[..|three| - 1] == two && two[..|two| - 1] == one && one[..|one| - 1] == none;
    assert Run(none, cfg) == EMPTY_WORLD && Trace(none, Changing(), latency, cfg);
    var w1 := World(0.0, None, map[0 := Task(None, NO_HEADERS, 1)], []);
    assert Run(one, cfg) == w1 && Trace(one, Changing(), latency, cfg);
    var w2 := World(latency, Some(Entry(OLD, latency)), map[], [Served(latency, 200, "old")]);
    assert w1.tasks - {0} == map[];
    assert Run(two, cfg) == w2;
    assert Legit(w1, two[1], Changing(), latency, cfg);
    assert Trace(two, Changing(), latency, cfg);
    assert !Stale(w2.disk.value, later, cfg.ttl);
  }

  lemma OldIsNotCurrent(from: real, to: real)
    requires from > 0.0
    ensures !CurrentWithin(Changing(), "old", from, to)
  {
    assert "old"[0] != "new"[0];
  }

  /** The time to live alone does not bound the age: a body as old as the exchange that fetched it may come on top. */
  lemma LatencyMatters(latency: real, cfg: Config)
    requires latency > 0.0 && cfg.ttl > 0.0 && cfg.maxAttempts >= 1
    ensures var events, later := TwoFetches(latency, latency + cfg.ttl), latency + cfg.ttl;
      && VersionUnique(Changing()) && Trace(events, Changing(), latency, cfg)
      && Run(events, cfg).served == [Served(latency, 200, "old"), Served(later, 200, "old")]
      && !CurrentWithin(Changing(), "old", later - cfg.ttl, later)
  {
    SecondIsServedOld(latency, latency + cfg.ttl, cfg);
    OldIsNotCurrent(latency, latency + cfg.ttl);
  }

  /** Without a positive time to live nothing bounds the age of what is served. */
  lemma TtlMatters(age: real, cfg: Config)
    requires cfg.ttl <= 0.0 && age > 0.0 && cfg.maxAttempts >= 1
    ensures var events := TwoFetches(0.0, 2.0 * age);
      && VersionUnique(Changing()) && Trace(events, Changing(), 0.0, cfg)
      && Run(events, cfg).served == [Served(0.0, 200, "old"), Served(2.0 * age, 200, "old")]
      && !CurrentWithin(Changing(), "old", age, 2.0 * age)
  {
    SecondIsServedOld(0.0, 2.0 * age, cfg);
    OldIsNotCurrent(age, 2.0 * age);
  }

  /** The time to live alone bounds the age of everything handed out, against every origin and over all runs. */
  ghost predicate TtlBounds(latency: real, cfg: Config) {
    forall events: seq<Event>, origin: Origin, i: nat ::
      VersionUnique(origin) && Trace(events, origin, latency, cfg) && i < |Run(events, cfg).served|
      ==> FreshServed(Run(events, cfg).served[i], origin, 0.0, cfg)
  }

  lemma {:induction false} NothingServed(events: seq<Event>, cfg: Config)
    requires cfg.maxAttempts < 1
    ensures var w := Run(events, cfg); w.disk.None? && w.tasks == map[] && w.served == []
  {
    if events != [] {
      NothingServed(events[..|events| - 1], cfg);
    }
  }

  /** Two fetches show that the bound fails. */
  lemma TtlBoundFails(latency: real, later: real, cfg: Config)
    requires 0.0 <= latency <= later && cfg.maxAttempts >= 1 && later - cfg.ttl > 0.0
    requires cfg.ttl <= 0.0 || later - latency <= cfg.ttl
    ensures !TtlBounds(latency, cfg)
  {
    SecondIsServedOld(latency, later, cfg);
    OldIsNotCurrent(later - cfg.ttl, later);
    var events := TwoFetches(latency, later);
    assert VersionUnique(Changing());
    assert !FreshServed(Run(events, cfg).served[1], Changing(), 0.0, cfg);
  }

  /** Exactly when: requests are made at all only if attempts are allowed, and then the exchange must take no time. */
  lemma TtlBoundsExactly(latency: real, cfg: Config)
    requires latency >= 0.0
    ensures TtlBounds(latency, cfg) <==> cfg.maxAttempts < 1 || (cfg.ttl > 0.0 && latency == 0.0)
  {
    if cfg.maxAttempts < 1 {
      forall events: seq<Event> ensures Run(events, cfg).served == [] {
        NothingServed(events, cfg);
      }
    } else if cfg.ttl <= 0.0 {
      TtlBoundFails(latency, latency + 1.0, cfg);
    } else if latency > 0.0 {
      TtlBoundFails(latency, latency + cfg.ttl, cfg);
    } else {
      forall events: seq<Event>, origin: Origin, i: nat |
        VersionUnique(origin) && Trace(events, origin, latency, cfg) && i < |Run(events, cfg).served|
        ensures FreshServed(Run(events, cfg).served[i], origin, 0.0, cfg)
      {
        RunIsGood(events, origin, latency, cfg);
      }
    }
  }

  /** Whatever version-unique origin gave out the entry, a 304 to this request means that the entry's body is current. */
  ghost predicate RevalidationSound(cached: Entry, caller: Caller) {
    forall origin: Origin, p: real ::
      VersionUnique(origin) && FromOrigin(origin, cached.rep) && Matches(Sent(Some(cached), caller), origin(p))
      ==> CurrentAt(origin, cached.rep.body, p)
  }

  /** An origin whose later representation carries the given validators. */
  function Replaced(rep: Representation, later: Validators): Origin {
    t => if t <= 0.0 then rep else Representation(rep.body + "!", later)
  }

  lemma ForeignValidator(cached: Entry, caller: Caller, later: Validators)
    requires !SameVersion(cached.rep, Representation(cached.rep.body + "!", later))
    requires !SameVersion(Representation(cached.rep.body + "!", later), cached.rep)
    requires Matches(Sent(Some(cached), caller), Representation(cached.rep.body + "!", later))
    ensures !RevalidationSound(cached, caller)
  {
    var origin := Replaced(cached.rep, later);
    assert Is(origin, cached.rep, 0.0);
    assert VersionUnique(origin);
    assert Matches(Sent(Some(cached), caller), origin(1.0));
    assert |origin(1.0).body| == |cached.rep.body| + 1;
    assert !CurrentAt(origin, cached.rep.body, 1.0);
  }

  lemma NoTagSent(cached: Entry, caller: Caller)
    requires cached.rep.validators.etag.None? && Sent(Some(cached), caller).tags == {}
    ensures forall k :: k in caller.own || k in caller.defaults ==> !SameName(k, IF_NONE_MATCH)
  {
    OutgoingAre(cached, caller, IF_NONE_MATCH);
    assert forall k :: k in caller.own && SameName(k, IF_NONE_MATCH) ==> caller.own[k] in Kept(caller.own, IF_NONE_MATCH, None);
    assert forall k :: k in caller.defaults && SameName(k, IF_NONE_MATCH) ==> caller.defaults[k] in Named(caller.defaults, IF_NONE_MATCH);
  }

  lemma ForeignDate(cached: Entry, caller: Caller)
    requires cached.rep.validators.etag.None? && Sent(Some(cached), caller).tags == {}
    requires !OwnValidators(Some(cached), caller)
    ensures exists x :: x in Sent(Some(cached), caller).dates && cached.rep.validators.lastModified != Some(x)
  {
    var v, sent := cached.rep.validators, Sent(Some(cached), caller);
    NoTagSent(cached, caller);
    OutgoingAre(cached, caller, IF_MODIFIED_SINCE);
    var dates := Kept(caller.own, IF_MODIFIED_SINCE, v.lastModified);
    if k :| k in caller.own && SameName(k, IF_MODIFIED_SINCE) &&
            (v.lastModified.None? || (k != IF_MODIFIED_SINCE && caller.own[k] != v.lastModified.value)) {
      assert caller.own[k] in dates && caller.own[k] in sent.dates;
    } else {
      var k :| k in caller.defaults && SameName(k, IF_MODIFIED_SINCE) && v.lastModified.None?;
      assert caller.defaults[k] in Named(caller.defaults, IF_MODIFIED_SINCE);
      assert forall k :: k in caller.own ==> !SameName(k, IF_MODIFIED_SINCE);
      assert dates == {};
    }
  }

  /** A condition that is not the entry's and decides: an entity tag, or a date where no tag is sent. */
  lemma ForeignCondition(cached: Entry, caller: Caller) returns (later: Validators)
    requires !OwnValidators(Some(cached), caller)
    ensures !SameVersion(cached.rep, Representation("", later)) && !SameVersion(Representation("", later), cached.rep)
    ensures Matches(Sent(Some(cached), caller), Representation("", later))
  {
    OutgoingAre(cached, caller, IF_NONE_MATCH);
    OutgoingAre(cached, caller, IF_MODIFIED_SINCE);
    var v, sent := cached.rep.validators, Sent(Some(cached), caller);
    var tags := Kept(caller.own, IF_NONE_MATCH, v.etag);
    if v.etag.Some? {
      var k :| k in caller.own && SameName(k, IF_NONE_MATCH) && k != IF_NONE_MATCH && caller.own[k] != v.etag.value;
      assert caller.own[k] in tags && caller.own[k] in sent.tags;
    } else if sent.tags == {} {
      ForeignDate(cached, caller);
    }
    if x :| x in sent.tags && v.etag != Some(x) {
      later := Validators(Some(x), None);
    } else {
      var x :| x in sent.dates && v.lastModified != Some(x);
      later := Validators(None, Some(x));
    }
  }

  /** Revalidation can be trusted exactly when the caller's own headers do not decide it. */
  lemma RevalidationExactly(cached: Entry, caller: Caller)
    ensures RevalidationSound(cached, caller) <==> OwnValidators(Some(cached), caller)
  {
    if OwnValidators(Some(cached), caller) {
      forall origin: Origin, p: real |
        VersionUnique(origin) && FromOrigin(origin, cached.rep) && Matches(Sent(Some(cached), caller), origin(p))
        ensures CurrentAt(origin, cached.rep.body, p)
      {
        NotModifiedMeansCurrent(origin, cached, caller, p);
      }
    } else {
      var later := ForeignCondition(cached, caller);
      ForeignValidator(cached, caller, later);
    }
  }

  /** The spelling matters: next to the entry's own entity tag the caller's goes out under another spelling. */
  lemma SpellingMatters(cached: Entry, tag: string)
    requires cached.rep.validators.etag.Some? && cached.rep.validators.etag.value != tag
    ensures RevalidationSound(cached, Caller(map[IF_NONE_MATCH := tag], map[]))
    ensures !RevalidationSound(cached, Caller(map["if-none-match" := tag], map[]))
  {
    assert SameName("if-none-match", IF_NONE_MATCH);
    assert "if-none-match"[0] != IF_NONE_MATCH[0];
    var plain, other := Caller(map[IF_NONE_MATCH := tag], map[]), Caller(map["if-none-match" := tag], map[]);
    assert !SameName(IF_NONE_MATCH, IF_MODIFIED_SINCE);
    assert "if-none-match" in other.own;
    RevalidationExactly(cached, plain);
    RevalidationExactly(cached, other);
  }

  // ----- one fetch is a run of these events -----

  function RunFrom(w: World, events: seq<Event>, cfg: Config): World
    decreases |events|
  {
    if events == [] then w else RunFrom(Next(w, events[0], cfg), events[1..], cfg)
  }

  predicate Records(before: seq<Served>, after: seq<Served>, r: FetchResult) {
    match r
    case Failed => after == before
    case Fetched(status, body) =>
      |after| == |before| + 1 && after[..|before|] == before && after[|before|].status == status && after[|before|].body == body
  }

  lemma {:induction false} TriesAreDeliveries(w: World, id: nat, store: Store, url: string, attempts: nat -> Attempt, k: nat, cfg: Config)
    returns (events: seq<Event>)
    requires id in w.tasks && w.tasks[id].attempt == k && w.disk == CachedIn(store, url)
    ensures var (r, after) := Tries(store, url, w.tasks[id].cached, attempts, k, cfg);
      k <= cfg.maxAttempts ==>
        RunFrom(w, events, cfg).disk == CachedIn(after, url) && Records(w.served, RunFrom(w, events, cfg).served, r)
    decreases cfg.maxAttempts - k
  {
    var e := Deliver(id, attempts(k));
    var t := w.tasks[id];
    events := [e];
    assert events[1..] == [];
    if k <= cfg.maxAttempts && Decide(t.cached, k, cfg.maxAttempts, attempts(k).reply).Retry? {
      var rest := TriesAreDeliveries(Next(w, e, cfg), id, store, url, attempts, k + 1, cfg);
      assert ([e] + rest)[1..] == rest;
      events := [e] + rest;
    }
  }

  /** A fetch that runs by itself does to the cache, and hands out, what its events do. */
  lemma FetchIsARun(w: World, id: nat, store: Store, url: string, now: real, caller: Caller, attempts: nat -> Attempt, cfg: Config)
    returns (events: seq<Event>)
    requires w.disk == CachedIn(store, url)
    ensures var (r, after) := Fetch(store, url, now, attempts, cfg);
      RunFrom(w, events, cfg).disk == CachedIn(after, url) && Records(w.served, RunFrom(w, events, cfg).served, r)
  {
    var e := Begin(id, now, caller);
    events := [e];
    assert events[1..] == [];
    if !(w.disk.Some? && !Stale(w.disk.value, now, cfg.ttl)) && cfg.maxAttempts >= 1 {
      var rest := TriesAreDeliveries(Next(w, e, cfg), id, store, url, attempts, 1, cfg);
      assert ([e] + rest)[1..] == rest;
      events := [e] + rest;
    }
  }
}
