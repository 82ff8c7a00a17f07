/** The disk cache and the retrying, revalidating fetcher over it. */
module HttpFetch {
  import opened Wrappers

  /** The validators of a representation; an empty header counts as absent. */
  datatype Validators = Validators(etag: Option<string>, lastModified: Option<string>)

  const NO_VALIDATORS: Validators := Validators(None, None)

  datatype Representation = Representation(body: string, validators: Validators)

  /** What the cache stores under a URL; only responses with status 200 are stored. */
  datatype Entry = Entry(rep: Representation, fetchedAt: real)

  datatype Config = Config(ttl: real, maxAttempts: int)

  predicate Stale(e: Entry, now: real, ttl: real) {
    ttl > 0.0 && now - e.fetchedAt > ttl
  }

  datatype Reply = Response(status: int, rep: Representation) | TransientError | OtherError

  /** One exchange: the origin answers at `processed`, the answer is here at `received`. */
  datatype Attempt = Attempt(reply: Reply, processed: real, received: real)

  predicate Retryable(status: int) {
    status == 429 || status == 500 || status == 502 || status == 503 || status == 504
  }

  datatype Decision = Retry | Answer(status: int, body: string, stored: Option<Representation>) | GiveUp

  /** What the fetcher makes of the reply to its `attempt`-th request; `cached` is the stale entry it revalidates. */
  function Decide(cached: Option<Entry>, attempt: int, maxAttempts: int, reply: Reply): Decision {
    match reply
    case Response(status, rep) =>
      if status == 304 && cached.Some? then Answer(200, cached.value.rep.body, Some(cached.value.rep))
      else if Retryable(status) && attempt < maxAttempts then Retry
      else Answer(status, rep.body, if status == 200 && rep.body != "" then Some(rep) else None)
    case TransientError => if attempt >= maxAttempts then GiveUp else Retry
    case OtherError => GiveUp
  }

  // ----- the request -----

  /** Header fields under their names as spelled. */
  type Headers = map<string, string>

  /** The headers a caller passes for one fetch, and those the fetcher was made with. */
  datatype Caller = Caller(own: Headers, defaults: Headers)

  const NO_HEADERS: Caller := Caller(map[], map[])

  const IF_NONE_MATCH: string := "If-None-Match"
  const IF_MODIFIED_SINCE: string := "If-Modified-Since"

  function Conditional(cached: Option<Entry>): Headers {
    if cached.None? then map[]
    else
      var v := cached.value.rep.validators;
      (if v.etag.Some? then map[IF_NONE_MATCH := v.etag.value] else map[]) +
      (if v.lastModified.Some? then map[IF_MODIFIED_SINCE := v.lastModified.value] else map[])
  }

  /** The caller's headers updated with the conditional ones: only a name spelled the same is overwritten. */
  function Requested(cached: Option<Entry>, own: Headers): Headers {
    own + Conditional(cached)
  }

  function Lower(name: string): (r: string)
    ensures |r| == |name|
  {
    seq(|name|, i requires 0 <= i < |name| => if 'A' <= name[i] <= 'Z' then name[i] - 'A' + 'a' else name[i])
  }

  /** Whoever receives a header does not tell upper from lower case in its name. */
  predicate SameName(a: string, b: string) {
    Lower(a) == Lower(b)
  }

  function Named(h: Headers, name: string): set<string> {
    set k | k in h && SameName(k, name) :: h[k]
  }

  /** The values that go out under a name: those of the request, or if it has none those of the fetcher. */
  function Outgoing(cached: Option<Entry>, caller: Caller, name: string): set<string> {
    var own := Named(Requested(cached, caller.own), name);
    if own != {} then own else Named(caller.defaults, name)
  }

  datatype Conditions = Conditions(tags: set<string>, dates: set<string>)

  /** The conditions a request puts to the origin. */
  function Sent(cached: Option<Entry>, caller: Caller): Conditions {
    Conditions(Outgoing(cached, caller, IF_NONE_MATCH), Outgoing(cached, caller, IF_MODIFIED_SINCE))
  }

  // ----- one fetch -----

  datatype FetchResult = Fetched(status: int, body: string) | Failed

  type Store = map<string, Entry>

  function CachedIn(store: Store, url: string): Option<Entry> {
    if url in store then Some(store[url]) else None
  }

  /** The attempts of a fetch from number `k` on, and the store they leave. */
  function Tries(store: Store, url: string, cached: Option<Entry>, attempts: nat -> Attempt, k: nat, cfg: Config): (FetchResult, Store)
    decreases cfg.maxAttempts - k
  {
    if k > cfg.maxAttempts then (Failed, store)
    else
      match Decide(cached, k, cfg.maxAttempts, attempts(k).reply)
      case Retry => Tries(store, url, cached, attempts, k + 1, cfg)
      case GiveUp => (Failed, store)
      case Answer(status, body, stored) =>
        (Fetched(status, body), if stored.Some? then store[url := Entry(stored.value, attempts(k).received)] else store)
  }

  function Fetch(store: Store, url: string, now: real, attempts: nat -> Attempt, cfg: Config): (FetchResult, Store) {
    var cached := CachedIn(store, url);
    if cached.Some? && !Stale(cached.value, now, cfg.ttl) then (Fetched(200, cached.value.rep.body), store)
    else Tries(store, url, cached, attempts, 1, cfg)
  }

  /** Request `n` is the first that is not followed by another. */
  ghost predicate EndsAt(cached: Option<Entry>, attempts: nat -> Attempt, n: nat, cfg: Config) {
    && 1 <= n <= cfg.maxAttempts
    && !Decide(cached, n, cfg.maxAttempts, attempts(n).reply).Retry?
    && forall k :: 1 <= k < n ==> Decide(cached, k, cfg.maxAttempts, attempts(k).reply).Retry?
  }

  /** A fetch makes at least one and at most `maxAttempts` requests, and the last one alone decides. */
  lemma {:induction false} LastTryDecides(store: Store, url: string, cached: Option<Entry>, attempts: nat -> Attempt, k: nat, cfg: Config)
    returns (n: nat)
    requires 1 <= k <= cfg.maxAttempts
    requires forall j :: 1 <= j < k ==> Decide(cached, j, cfg.maxAttempts, attempts(j).reply).Retry?
    ensures n >= k && EndsAt(cached, attempts, n, cfg)
    ensures Tries(store, url, cached, attempts, k, cfg) == Tries(store, url, cached, attempts, n, cfg)
    decreases cfg.maxAttempts - k
  {
    n := k;
    if Decide(cached, k, cfg.maxAttempts, attempts(k).reply).Retry? {
      n := LastTryDecides(store, url, cached, attempts, k + 1, cfg);
    }
  }

  /**
    A stale or missing entry is fetched with success exactly when the deciding request was
    answered: a transient error decides only on the last of the allowed requests, and a
    retryable status is handed out only then.
   */
  lemma FetchedExactly(store: Store, url: string, now: real, attempts: nat -> Attempt, cfg: Config) returns (n: nat)
    requires cfg.maxAttempts >= 1
    requires CachedIn(store, url).None? || Stale(store[url], now, cfg.ttl)
    ensures EndsAt(CachedIn(store, url), attempts, n, cfg)
    ensures Fetch(store, url, now, attempts, cfg).0.Fetched? <==> attempts(n).reply.Response?
    ensures attempts(n).reply.TransientError? ==> n == cfg.maxAttempts
    ensures attempts(n).reply.Response? && Retryable(attempts(n).reply.status) ==> n == cfg.maxAttempts
    ensures Fetch(store, url, now, attempts, cfg).1 != store ==>
      Fetch(store, url, now, attempts, cfg).0.Fetched? && Fetch(store, url, now, attempts, cfg).0.status == 200
  {
    n := LastTryDecides(store, url, CachedIn(store, url), attempts, 1, cfg);
  }

  // ----- what a fetch comes to -----

  /** A reply that is not taken while attempts are left: a passing error, or one of five statuses. */
  predicate Passing(reply: Reply) {
    match reply
    case TransientError => true
    case OtherError => false
    case Response(status, _) => status in {429, 500, 502, 503, 504}
  }

  /** The reply to request `n` is the one taken: it is the first that does not pass, or the last allowed. */
  ghost predicate Deciding(attempts: nat -> Attempt, n: nat, maxAttempts: int) {
    && 1 <= n <= maxAttempts
    && (n < maxAttempts ==> !Passing(attempts(n).reply))
    && forall k :: 1 <= k < n ==> Passing(attempts(k).reply)
  }

  /** The whole outcome of a fetch whose deciding exchange was `a`; `held` is the entry it had, which is stale. */
  ghost predicate Settles(held: Option<Entry>, store: Store, url: string, a: Attempt, r: FetchResult, after: Store) {
    match a.reply
    case Response(status, rep) =>
      if status == 304 && held.Some? then
        r == Fetched(200, held.value.rep.body) && after == store[url := Entry(held.value.rep, a.received)]
      else if status == 200 && rep.body != "" then
        r == Fetched(200, rep.body) && after == store[url := Entry(rep, a.received)]
      else r == Fetched(status, rep.body) && after == store
    case TransientError => r == Failed && after == store
    case OtherError => r == Failed && after == store
  }

  lemma {:induction false} DecidingExists(attempts: nat -> Attempt, k: nat, maxAttempts: int) returns (n: nat)
    requires 1 <= k <= maxAttempts && forall j :: 1 <= j < k ==> Passing(attempts(j).reply)
    ensures n >= k && Deciding(attempts, n, maxAttempts)
    decreases maxAttempts - k
  {
    n := k;
    if k < maxAttempts && Passing(attempts(k).reply) {
      n := DecidingExists(attempts, k + 1, maxAttempts);
    }
  }

  lemma {:induction false} TriesSettle(store: Store, url: string, cached: Option<Entry>, attempts: nat -> Attempt, k: nat, n: nat, cfg: Config)
    requires 1 <= k <= n && Deciding(attempts, n, cfg.maxAttempts)
    ensures var (r, after) := Tries(store, url, cached, attempts, k, cfg); Settles(cached, store, url, attempts(n), r, after)
    decreases n - k
  {
    if k < n {
      assert Passing(attempts(k).reply);
      TriesSettle(store, url, cached, attempts, k + 1, n, cfg);
    }
  }

  /**
    What every fetch comes to.  An entry that is not stale is answered with no request.
    Otherwise one of the allowed requests decides, and its reply alone: a 304 to a stale entry
    hands out the entry's body and stamps it anew, a 200 with a body replaces it, anything else
    is handed out, or fails, and leaves the store as it is.
   */
  lemma FetchSettles(store: Store, url: string, now: real, attempts: nat -> Attempt, cfg: Config)
    ensures var (r, after) := Fetch(store, url, now, attempts, cfg);
      if url in store && (cfg.ttl <= 0.0 || now <= store[url].fetchedAt + cfg.ttl) then
        r == Fetched(200, store[url].rep.body) && after == store
      else if cfg.maxAttempts < 1 then r == Failed && after == store
      else
        exists n :: Deciding(attempts, n, cfg.maxAttempts) &&
          Settles(if url in store then Some(store[url]) else None, store, url, attempts(n), r, after)
  {
    if !(url in store && (cfg.ttl <= 0.0 || now <= store[url].fetchedAt + cfg.ttl)) && cfg.maxAttempts >= 1 {
      var n := DecidingExists(attempts, 1, cfg.maxAttempts);
      TriesSettle(store, url, CachedIn(store, url), attempts, 1, n, cfg);
    }
  }

  /** There is only one deciding request, so that is all a fetch can come to. */
  lemma DecidingIsUnique(attempts: nat -> Attempt, m: nat, n: nat, maxAttempts: int)
    requires Deciding(attempts, m, maxAttempts) && Deciding(attempts, n, maxAttempts)
    ensures m == n
  {
  }

  class DiskCache {
    const ttl: real
    var store: Store

    constructor (ttl: real)
      ensures this.ttl == ttl && store == map[]
    {
      this.ttl, store := ttl, map[];
    }

    method Load(url: string, now: real) returns (e: Option<Entry>, stale: bool)
      ensures e == CachedIn(store, url) && (stale <==> e.Some? && Stale(e.value, now, ttl))
    {
      if url !in store {
        return None, false;
      }
      e := Some(store[url]);
      stale := ttl > 0.0 && now - store[url].fetchedAt > ttl;
    }

    method Save(url: string, rep: Representation, now: real)
      modifies this
      ensures store == old(store)[url := Entry(rep, now)]
    {
      store := store[url := Entry(rep, now)];
    }
  }

  class HttpFetcher {
    const cache: DiskCache
    const maxAttempts: int

    constructor (cache: DiskCache, maxAttempts: int)
      ensures this.cache == cache && this.maxAttempts == maxAttempts
    {
      this.cache, this.maxAttempts := cache, maxAttempts;
    }

    /** `attempts(k)` is the exchange the `k`-th request would have. */
    method FetchUrl(url: string, now: real, attempts: nat -> Attempt) returns (r: FetchResult)
      modifies cache
      ensures (r, cache.store) == Fetch(old(cache.store), url, now, attempts, Config(cache.ttl, maxAttempts))
    {
      ghost var cfg, before := Config(cache.ttl, maxAttempts), cache.store;
      var cached, stale := cache.Load(url, now);
      if cached.Some? && !stale {
        return Fetched(200, cached.value.rep.body);
      }
      var attempt: nat := 1;
      while attempt <= maxAttempts
        invariant cache.store == before
        invariant Fetch(before, url, now, attempts, cfg) == Tries(before, url, cached, attempts, attempt, cfg)
        decreases maxAttempts - attempt
      {
        var reply := attempts(attempt).reply;
        match reply {
          case Response(status, rep) =>
            if status == 304 && cached.Some? {
              cache.Save(url, cached.value.rep, attempts(attempt).received);
              return Fetched(200, cached.value.rep.body);
            }
            if !(Retryable(status) && attempt < maxAttempts) {
              if status == 200 && rep.body != "" {
                cache.Save(url, rep, attempts(attempt).received);
              }
              return Fetched(status, rep.body);
            }
          case TransientError =>
            if attempt >= maxAttempts {
              break;
            }
          case OtherError =>
            break;
        }
        attempt := attempt + 1;
      }
      r := Failed;
    }
  }
}
