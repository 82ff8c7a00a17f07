/** The result cache: least recently used first out, with expiry, against the history of its uses. */
module ResultCache {
  import opened Wrappers

  datatype Entry<B> = Entry(bundle: B, expiresAt: real)

  /** The ordered dictionary, oldest first. */
  type Items<B> = seq<(string, Entry<B>)>

  function Find<B>(items: Items<B>, key: string): (i: int)
    ensures -1 <= i < |items|
    ensures i >= 0 ==> items[i].0 == key
    ensures i < 0 ==> forall j :: 0 <= j < |items| ==> items[j].0 != key
  {
    if items == [] then -1
    else if items[|items| - 1].0 == key then |items| - 1
    else Find(items[..|items| - 1], key)
  }

  function Without<B>(items: Items<B>, i: int): Items<B>
    requires i < |items|
  {
    if i < 0 then items else items[..i] + items[i + 1..]
  }

  /** The newest `max` items. */
  function Newest<B>(items: Items<B>, max: nat): Items<B> {
    if |items| > max then items[|items| - max..] else items
  }

  datatype Op<B> = Get(key: string, now: real) | Put(key: string, entry: Entry<B>) | Clear

  /** What an operation does to the items of a cache that keeps at most `max` of them. */
  function Next<B>(items: Items<B>, op: Op<B>, max: nat): Items<B> {
    match op
    case Get(key, now) =>
      var i := Find(items, key);
      if i < 0 then items
      else if items[i].1.expiresAt < now then Without(items, i)
      else Without(items, i) + [items[i]]
    case Put(key, entry) => Newest(Without(items, Find(items, key)) + [(key, entry)], max)
    case Clear => []
  }

  function Answer<B>(items: Items<B>, key: string, now: real): Option<B> {
    var i := Find(items, key);
    if i < 0 || items[i].1.expiresAt < now then None else Some(items[i].1.bundle)
  }

  // ----- the history -----

  datatype Event<B> = Got(key: string, now: real, found: Option<B>) | Stored(key: string, entry: Entry<B>) | Cleared

  type History<B> = seq<Event<B>>

  function EventOf<B>(items: Items<B>, op: Op<B>): Event<B> {
    match op
    case Get(key, now) => Got(key, now, Answer(items, key, now))
    case Put(key, entry) => Stored(key, entry)
    case Clear => Cleared
  }

  /** The latest put of a key since the cache was last cleared. */
  function LatestPut<B>(h: History<B>, key: string): Option<Entry<B>> {
    if h == [] then None
    else
      match h[|h| - 1]
      case Cleared => None
      case Stored(k, entry) => if k == key then Some(entry) else LatestPut(h[..|h| - 1], key)
      case Got(_, _, _) => LatestPut(h[..|h| - 1], key)
  }

  /** The key an event put or hit. */
  function Touched<B>(e: Event<B>): Option<string> {
    match e
    case Stored(k, _) => Some(k)
    case Got(k, _, found) => if found.Some? then Some(k) else None
    case Cleared => None
  }

  /** The distinct other keys put or hit since the key itself was last put or hit. */
  function Others<B>(h: History<B>, key: string): set<string> {
    if h == [] || h[|h| - 1].Cleared? || Touched(h[|h| - 1]) == Some(key) then {}
    else if Touched(h[|h| - 1]).None? then Others(h[..|h| - 1], key)
    else Others(h[..|h| - 1], key) + {Touched(h[|h| - 1]).value}
  }

  /** The event asks for a key whose latest put has expired. */
  predicate AsksExpired<B>(before: History<B>, e: Event<B>) {
    e.Got? && LatestPut(before, e.key).Some? && LatestPut(before, e.key).value.expiresAt < e.now
  }

  /** The key was asked for after its latest put had expired. */
  predicate AskedExpired<B>(h: History<B>, key: string) {
    if h == [] then false
    else
      var e, before := h[|h| - 1], h[..|h| - 1];
      if e.Cleared? || (e.Stored? && e.key == key) then false
      else (e.Got? && e.key == key && AsksExpired(before, e)) || AskedExpired(before, key)
  }

  /** Since the cache was last cleared no expired key was asked for. */
  predicate NothingExpired<B>(h: History<B>) {
    h == [] || h[|h| - 1].Cleared? || (!AsksExpired(h[..|h| - 1], h[|h| - 1]) && NothingExpired(h[..|h| - 1]))
  }

  // ----- the invariant -----

  ghost predicate DistinctKeys<B>(items: Items<B>) {
    forall i, j :: 0 <= i < j < |items| ==> items[i].0 != items[j].0
  }

  /** Every item is the latest put of its key. */
  ghost predicate Current<B>(h: History<B>, items: Items<B>) {
    forall i :: 0 <= i < |items| ==> LatestPut(h, items[i].0) == Some(items[i].1)
  }

  /** Every newer item was put or hit after every older one. */
  ghost predicate ByRecency<B>(h: History<B>, items: Items<B>) {
    forall i, j :: 0 <= i < j < |items| ==> items[j].0 in Others(h, items[i].0)
  }

  predicate HasItem<B>(items: Items<B>, key: string, from: nat) {
    exists j :: from <= j < |items| && items[j].0 == key
  }

  /** Whatever was put or hit after an item is held behind it. */
  ghost predicate Tight<B>(h: History<B>, items: Items<B>) {
    forall i, k :: 0 <= i < |items| && k in Others(h, items[i].0) ==> HasItem(items, k, i + 1)
  }

  /** A key that was put and is not held has expired or been crowded out. */
  ghost predicate LostForCause<B>(h: History<B>, items: Items<B>, max: nat) {
    forall k :: LatestPut(h, k).Some? && !HasItem(items, k, 0) ==> AskedExpired(h, k) || |Others(h, k)| >= max
  }

  ghost predicate Agrees<B>(h: History<B>, items: Items<B>, max: nat) {
    |items| <= max && Holds(h, items) && LostForCause(h, items, max)
  }

  ghost predicate Holds<B>(h: History<B>, items: Items<B>) {
    DistinctKeys(items) && Current(h, items) && ByRecency(h, items) && (NothingExpired(h) ==> Tight(h, items))
  }

  /** The items after a sequence of operations on an empty cache, and the history they wrote. */
  function Run<B>(ops: seq<Op<B>>, max: nat): (Items<B>, History<B>) {
    if ops == [] then ([], [])
    else
      var (items, h), op := Run(ops[..|ops| - 1], max), ops[|ops| - 1];
      (Next(items, op, max), h + [EventOf(items, op)])
  }

  // ----- every operation keeps it -----

  lemma Snoc<B>(h: History<B>, e: Event<B>)
    ensures (h + [e])[..|h + [e]| - 1] == h && (h + [e])[|h + [e]| - 1] == e
  {
  }

  /** An event that touches nothing. */
  lemma MissKeeps<B>(h: History<B>, items: Items<B>, max: nat, key: string, now: real)
    requires Agrees(h, items, max) && !HasItem(items, key, 0)
    ensures Agrees(h + [Got(key, now, None)], items, max)
  {
    var e: Event<B> := Got(key, now, None);
    Snoc(h, e);
    assert forall k :: LatestPut(h + [e], k) == LatestPut(h, k) && Others(h + [e], k) == Others(h, k);
    assert forall k :: AskedExpired(h, k) ==> AskedExpired(h + [e], k);
  }

  lemma DropKeeps<B>(h: History<B>, items: Items<B>, max: nat, i: nat, now: real)
    requires Agrees(h, items, max) && i < |items| && items[i].1.expiresAt < now
    ensures Agrees(h + [Got(items[i].0, now, None)], Without(items, i), max)
  {
    var e, rest: Items<B> := Got(items[i].0, now, None), Without(items, i);
    Snoc(h, e);
    assert forall k :: LatestPut(h + [e], k) == LatestPut(h, k) && Others(h + [e], k) == Others(h, k);
    assert forall a :: 0 <= a < |rest| ==> rest[a] == items[if a < i then a else a + 1];
    assert AskedExpired(h + [e], items[i].0);
    forall k | LatestPut(h + [e], k).Some? && !HasItem(rest, k, 0)
      ensures AskedExpired(h + [e], k) || |Others(h + [e], k)| >= max
    {
      StillHeld(items, i, k, 0);
    }
  }

  /** Taking one item out keeps the others, and their order. */
  lemma StillHeld<B>(items: Items<B>, i: int, k: string, from: nat)
    requires i < |items|
    ensures HasItem(items, k, from) && (i < 0 || k != items[i].0) ==> HasItem(Without(items, i), k, if 0 <= i < from then from - 1 else from)
  {
    if HasItem(items, k, from) && 0 <= i && k != items[i].0 {
      var j :| from <= j < |items| && items[j].0 == k;
      assert Without(items, i)[if j < i then j else j - 1].0 == k;
    }
  }

  // what a touch of `key` by event `e` does to the history of every key
  lemma TouchInHistory<B>(h: History<B>, e: Event<B>, key: string, k: string)
    requires Touched(e) == Some(key)
    ensures k != key ==> Others(h + [e], k) == Others(h, k) + {key} && LatestPut(h + [e], k) == LatestPut(h, k)
    ensures k != key && AskedExpired(h, k) ==> AskedExpired(h + [e], k)
    ensures Others(h + [e], key) == {}
  {
    Snoc(h, e);
  }

  /** Items as they are after the item of `key`, if any, has been put at the end. */
  function AtEnd<B>(items: Items<B>, key: string, entry: Entry<B>): Items<B> {
    Without(items, Find(items, key)) + [(key, entry)]
  }

  lemma AtEndIndex<B>(items: Items<B>, key: string, entry: Entry<B>, a: nat)
    requires a < |AtEnd(items, key, entry)| - 1
    ensures var i := Find(items, key);
      var b := if i < 0 || a < i then a else a + 1; b < |items| && b != i && AtEnd(items, key, entry)[a] == items[b]
  {
    var i := Find(items, key);
    var rest := Without(items, i);
    assert AtEnd(items, key, entry)[a] == rest[a];
    if 0 <= i <= a {
      assert rest[a] == items[i + 1..][a - i];
    }
  }

  lemma TouchDistinct<B>(items: Items<B>, key: string, entry: Entry<B>)
    requires DistinctKeys(items)
    ensures DistinctKeys(AtEnd(items, key, entry))
  {
    var after, i := AtEnd(items, key, entry), Find(items, key);
    forall a, b | 0 <= a < b < |after|
      ensures after[a].0 != after[b].0
    {
      AtEndIndex(items, key, entry, a);
      if b < |after| - 1 {
        AtEndIndex(items, key, entry, b);
      }
    }
  }

  lemma TouchCurrent<B>(h: History<B>, items: Items<B>, e: Event<B>, key: string, entry: Entry<B>)
    requires Current(h, items) && Touched(e) == Some(key) && LatestPut(h + [e], key) == Some(entry) && DistinctKeys(items)
    ensures Current(h + [e], AtEnd(items, key, entry))
  {
    var after := AtEnd(items, key, entry);
    forall a | 0 <= a < |after|
      ensures LatestPut(h + [e], after[a].0) == Some(after[a].1)
    {
      if a < |after| - 1 {
        AtEndIndex(items, key, entry, a);
        TouchInHistory(h, e, key, after[a].0);
      }
    }
  }

  lemma TouchByRecency<B>(h: History<B>, items: Items<B>, e: Event<B>, key: string, entry: Entry<B>)
    requires ByRecency(h, items) && Touched(e) == Some(key) && DistinctKeys(items)
    ensures ByRecency(h + [e], AtEnd(items, key, entry))
  {
    var after := AtEnd(items, key, entry);
    forall a, b | 0 <= a < b < |after|
      ensures after[b].0 in Others(h + [e], after[a].0)
    {
      AtEndIndex(items, key, entry, a);
      TouchInHistory(h, e, key, after[a].0);
      if b < |after| - 1 {
        AtEndIndex(items, key, entry, b);
      }
    }
  }

  lemma TouchTight<B>(h: History<B>, items: Items<B>, e: Event<B>, key: string, entry: Entry<B>)
    requires DistinctKeys(items) && Tight(h, items) && Touched(e) == Some(key)
    ensures Tight(h + [e], AtEnd(items, key, entry))
  {
    var after, i := AtEnd(items, key, entry), Find(items, key);
    forall a, k | 0 <= a < |after| && k in Others(h + [e], after[a].0)
      ensures HasItem(after, k, a + 1)
    {
      TouchInHistory(h, e, key, after[a].0);
      if k == key {
        assert after[|after| - 1].0 == k;
      } else {
        AtEndIndex(items, key, entry, a);
        var b := if i < 0 || a < i then a else a + 1;
        assert HasItem(items, k, b + 1);
        StillHeld(items, i, k, b + 1);
        var j :| a + 1 <= j < |after| - 1 && Without(items, i)[j].0 == k;
        assert after[j].0 == k;
      }
    }
  }

  lemma AtEndHas<B>(items: Items<B>, key: string, entry: Entry<B>, k: string)
    ensures k == key || HasItem(items, k, 0) ==> HasItem(AtEnd(items, key, entry), k, 0)
  {
    var after, i := AtEnd(items, key, entry), Find(items, key);
    assert after[|after| - 1].0 == key;
    if k != key && HasItem(items, k, 0) {
      StillHeld(items, i, k, 0);
      var j :| 0 <= j < |after| - 1 && Without(items, i)[j].0 == k;
      assert after[j].0 == k;
    }
  }

  lemma TouchLost<B>(h: History<B>, items: Items<B>, e: Event<B>, key: string, entry: Entry<B>, max: nat)
    requires LostForCause(h, items, max) && Touched(e) == Some(key)
    ensures LostForCause(h + [e], AtEnd(items, key, entry), max)
  {
    var after := AtEnd(items, key, entry);
    forall k | LatestPut(h + [e], k).Some? && !HasItem(after, k, 0)
      ensures AskedExpired(h + [e], k) || |Others(h + [e], k)| >= max
    {
      AtEndHas(items, key, entry, k);
      TouchInHistory(h, e, key, k);
      SizeGrows(Others(h, k), key);
    }
  }

  lemma SizeGrows(s: set<string>, x: string)
    ensures |s + {x}| >= |s|
  {
    if x in s {
      assert s + {x} == s;
    }
  }

  // ----- dropping the oldest -----

  lemma {:induction false} KeysCount<B>(items: Items<B>, s: set<string>)
    requires DistinctKeys(items) && forall i :: 0 <= i < |items| ==> items[i].0 in s
    ensures |s| >= |items|
  {
    if items != [] {
      var n := |items| - 1;
      KeysCount(items[..n], s - {items[n].0});
    }
  }

  /** Dropping the oldest of more than `max` items: that many others have been used since it was. */
  lemma EvictKeeps<B>(h: History<B>, items: Items<B>, max: nat)
    requires Holds(h, items) && LostForCause(h, items, max) && |items| == max + 1
    ensures Agrees(h, items[1..], max)
  {
    var rest := items[1..];
    assert forall a :: 0 <= a < |rest| ==> rest[a] == items[a + 1];
    KeysCount(rest, Others(h, items[0].0));
    forall k | LatestPut(h, k).Some? && !HasItem(rest, k, 0)
      ensures AskedExpired(h, k) || |Others(h, k)| >= max
    {
      if k != items[0].0 && HasItem(items, k, 0) {
        StillHeld(items, 0, k, 0);
      }
      assert Without(items, 0) == rest;
    }
    if NothingExpired(h) {
      forall a, k | 0 <= a < |rest| && k in Others(h, rest[a].0)
        ensures HasItem(rest, k, a + 1)
      {
        var j :| a + 2 <= j < |items| && items[j].0 == k;
        assert rest[j - 1].0 == k;
      }
    }
  }

  // ----- all runs -----

  lemma GetKeeps<B>(h: History<B>, items: Items<B>, key: string, now: real, max: nat)
    requires Agrees(h, items, max)
    ensures Agrees(h + [EventOf(items, Get(key, now))], Next(items, Get(key, now), max), max)
  {
    var i := Find(items, key);
    if i < 0 {
      MissKeeps(h, items, max, key, now);
    } else if items[i].1.expiresAt < now {
      DropKeeps(h, items, max, i, now);
    } else {
      var e, entry := EventOf(items, Get(key, now)), items[i].1;
      Snoc(h, e);
      TouchKeeps(h, items, e, key, entry, max);
      assert AtEnd(items, key, entry) == Without(items, i) + [items[i]];
      HitFits(items, i);
    }
  }

  lemma HitFits<B>(items: Items<B>, i: nat)
    requires i < |items|
    ensures |Without(items, i) + [items[i]]| == |items|
  {
  }

  /** A touched key goes to the end; at most one item more than before is held. */
  lemma TouchKeeps<B>(h: History<B>, items: Items<B>, e: Event<B>, key: string, entry: Entry<B>, max: nat)
    requires Agrees(h, items, max) && Touched(e) == Some(key) && LatestPut(h + [e], key) == Some(entry)
    requires NothingExpired(h + [e]) ==> NothingExpired(h)
    ensures var after := AtEnd(items, key, entry);
      Holds(h + [e], after) && LostForCause(h + [e], after, max) && |after| <= max + 1
  {
    TouchDistinct(items, key, entry);
    TouchCurrent(h, items, e, key, entry);
    TouchByRecency(h, items, e, key, entry);
    TouchLost(h, items, e, key, entry, max);
    if NothingExpired(h) {
      TouchTight(h, items, e, key, entry);
    }
  }

  lemma {:induction false} PutKeeps<B>(h: History<B>, items: Items<B>, key: string, entry: Entry<B>, max: nat)
    requires Agrees(h, items, max)
    ensures Agrees(h + [Stored(key, entry)], Next(items, Put(key, entry), max), max)
  {
    var e, after := Stored(key, entry), AtEnd(items, key, entry);
    Snoc(h, e);
    TouchKeeps(h, items, e, key, entry, max);
    if |after| > max {
      EvictKeeps(h + [e], after, max);
      assert Newest(after, max) == after[1..];
    }
  }

  lemma OpKeeps<B>(h: History<B>, items: Items<B>, op: Op<B>, max: nat)
    requires Agrees(h, items, max)
    ensures Agrees(h + [EventOf(items, op)], Next(items, op, max), max)
  {
    match op
    case Get(key, now) => GetKeeps(h, items, key, now, max);
    case Put(key, entry) => PutKeeps(h, items, key, entry, max);
    case Clear => Snoc(h, EventOf(items, op));
  }

  /** After any sequence of operations the items agree with the history, and there are at most `max` of them. */
  lemma {:induction false} RunAgrees<B>(ops: seq<Op<B>>, max: nat)
    ensures var (items, h) := Run(ops, max); Agrees(h, items, max)
  {
    if ops != [] {
      var front := ops[..|ops| - 1];
      RunAgrees(front, max);
      var (items, h) := Run(front, max);
      OpKeeps(h, items, ops[|ops| - 1], max);
    }
  }

  /** No get of the history was later than `now`. */
  ghost predicate NotBefore<B>(h: History<B>, now: real) {
    forall i :: 0 <= i < |h| && h[i].Got? ==> h[i].now <= now
  }

  lemma {:induction false} AskedMeansExpired<B>(h: History<B>, key: string, now: real)
    requires AskedExpired(h, key) && NotBefore(h, now)
    ensures LatestPut(h, key).Some? && LatestPut(h, key).value.expiresAt < now
  {
    var e, before := h[|h| - 1], h[..|h| - 1];
    assert forall i :: 0 <= i < |before| ==> before[i] == h[i];
    if !(e.Got? && e.key == key && AsksExpired(before, e)) {
      AskedMeansExpired(before, key, now);
    }
  }

  /** What a get returns is the latest put of the key since the last clear, and it has not expired. */
  lemma GetIsSound<B>(ops: seq<Op<B>>, max: nat, key: string, now: real)
    ensures var (items, h) := Run(ops, max);
      Answer(items, key, now).Some? ==>
        LatestPut(h, key).Some? && LatestPut(h, key).value.bundle == Answer(items, key, now).value &&
        LatestPut(h, key).value.expiresAt >= now
  {
    RunAgrees(ops, max);
  }

  /**
    The latest put, while it has not expired, is returned whenever fewer than `max` distinct
    other keys were put or hit since the key itself last was.
   */
  lemma GetIsComplete<B>(ops: seq<Op<B>>, max: nat, key: string, now: real)
    requires var (_, h) := Run(ops, max);
      NotBefore(h, now) && LatestPut(h, key).Some? && LatestPut(h, key).value.expiresAt >= now && |Others(h, key)| < max
    ensures var (items, h) := Run(ops, max); Answer(items, key, now) == Some(LatestPut(h, key).value.bundle)
  {
    RunAgrees(ops, max);
    var (items, h) := Run(ops, max);
    if AskedExpired(h, key) {
      AskedMeansExpired(h, key, now);
    }
    assert HasItem(items, key, 0);
  }

  lemma {:induction false} SmallerThanItems<B>(s: set<string>, items: Items<B>)
    requires forall k :: k in s ==> HasItem(items, k, 0)
    ensures |s| <= |items|
  {
    if s != {} {
      var k :| k in s;
      assert HasItem(items, k, 0);
      var j :| 0 <= j < |items| && items[j].0 == k;
      forall x | x in s - {k}
        ensures HasItem(Without(items, j), x, 0)
      {
        StillHeld(items, j, x, 0);
      }
      SmallerThanItems(s - {k}, Without(items, j));
    }
  }

  lemma {:induction false} HeldMeansRecent<B>(h: History<B>, items: Items<B>, max: nat, i: nat)
    requires Agrees(h, items, max) && Tight(h, items) && i < |items|
    ensures |Others(h, items[i].0)| < max
  {
    var rest := items[i + 1..];
    forall k | k in Others(h, items[i].0)
      ensures HasItem(rest, k, 0)
    {
      var j :| i + 1 <= j < |items| && items[j].0 == k;
      assert rest[j - i - 1].0 == k;
    }
    SmallerThanItems(Others(h, items[i].0), rest);
  }

  /**
    As long as no expired key was asked for, the cache is exactly least recently used first
    out: a get returns the unexpired latest put if and only if fewer than `max` distinct other
    keys were put or hit since.
   */
  lemma GetIsExact<B>(ops: seq<Op<B>>, max: nat, key: string, now: real)
    requires var (_, h) := Run(ops, max);
      NothingExpired(h) && NotBefore(h, now) && LatestPut(h, key).Some? && LatestPut(h, key).value.expiresAt >= now
    ensures var (items, h) := Run(ops, max);
      Answer(items, key, now) == (if |Others(h, key)| < max then Some(LatestPut(h, key).value.bundle) else None)
  {
    var (items, h) := Run(ops, max);
    RunAgrees(ops, max);
    if |Others(h, key)| < max {
      GetIsComplete(ops, max, key, now);
    } else if Find(items, key) >= 0 {
      HeldMeansRecent(h, items, max, Find(items, key));
    }
  }

  lemma WithoutHas<B>(items: Items<B>, i: int, k: string)
    requires i < |items| && HasItem(Without(items, i), k, 0)
    ensures HasItem(items, k, 0)
  {
    if i >= 0 {
      var j :| 0 <= j < |Without(items, i)| && Without(items, i)[j].0 == k;
      assert Without(items, i)[j] == items[if j < i then j else j + 1];
    }
  }

  lemma EndHas<B>(front: Items<B>, last: (string, Entry<B>), k: string)
    requires HasItem(front + [last], k, 0)
    ensures HasItem(front, k, 0) || last.0 == k
  {
    var j :| 0 <= j < |front| + 1 && (front + [last])[j].0 == k;
    if j < |front| {
      assert front[j].0 == k;
    }
  }

  lemma NewestHas<B>(items: Items<B>, max: nat, k: string)
    requires HasItem(Newest(items, max), k, 0)
    ensures HasItem(items, k, 0)
  {
    var j :| 0 <= j < |Newest(items, max)| && Newest(items, max)[j].0 == k;
    assert Newest(items, max)[j] == items[if |items| > max then |items| - max + j else j];
  }

  /** Only what is put comes into the cache. */
  lemma NothingElseAppears<B>(items: Items<B>, op: Op<B>, max: nat, k: string)
    requires HasItem(Next(items, op, max), k, 0)
    ensures HasItem(items, k, 0) || (op.Put? && op.key == k)
  {
    match op
    case Get(key, now) =>
      var i := Find(items, key);
      if i >= 0 {
        if items[i].1.expiresAt >= now {
          EndHas(Without(items, i), items[i], k);
        }
        if HasItem(Without(items, i), k, 0) {
          WithoutHas(items, i, k);
        }
      }
    case Put(key, entry) =>
      var rest := Without(items, Find(items, key));
      NewestHas(rest + [(key, entry)], max, k);
      EndHas(rest, (key, entry), k);
      if HasItem(rest, k, 0) {
        WithoutHas(items, Find(items, key), k);
      }
    case Clear =>
  }

  lemma GoneWithout<B>(items: Items<B>, i: nat)
    requires DistinctKeys(items) && i < |items|
    ensures !HasItem(Without(items, i), items[i].0, 0)
  {
    var rest := Without(items, i);
    forall j | 0 <= j < |rest|
      ensures rest[j].0 != items[i].0
    {
      var k := if j < i then j else j + 1;
      assert rest[j] == items[k];
      assert items[if k < i then k else i].0 != items[if k < i then i else k].0;
    }
  }

  lemma DropsExpired<B>(h: History<B>, items: Items<B>, op: Op<B>, max: nat, k: string)
    requires Agrees(h, items, max) && (AskedExpired(h, k) ==> !HasItem(items, k, 0))
    requires AskedExpired(h + [EventOf(items, op)], k)
    ensures !HasItem(Next(items, op, max), k, 0)
  {
    Snoc(h, EventOf(items, op));
    if AskedExpired(h, k) {
      if HasItem(Next(items, op, max), k, 0) {
        NothingElseAppears(items, op, max, k);
      }
    } else {
      var i := Find(items, k);
      if i >= 0 {
        assert LatestPut(h, items[i].0) == Some(items[i].1);
        GoneWithout(items, i);
      }
    }
  }

  /** A key that was asked for after it had expired is held no more, until it is put again. */
  lemma {:induction false} ExpiredIsDropped<B>(ops: seq<Op<B>>, max: nat, key: string)
    requires var (_, h) := Run(ops, max); AskedExpired(h, key)
    ensures var (items, _) := Run(ops, max); !HasItem(items, key, 0)
  {
    if ops != [] {
      var front := ops[..|ops| - 1];
      var (items, h) := Run(front, max);
      RunAgrees(front, max);
      if AskedExpired(h, key) {
        ExpiredIsDropped(front, max, key);
      }
      DropsExpired(h, items, ops[|ops| - 1], max, key);
    }
  }

  // ----- the cache itself -----

  class Cache<B> {
    const ttlS: real
    const maxEntries: int
    var items: Items<B>
    ghost var history: History<B>

    /** The items agree with the history; a cache with a negative limit never holds anything. */
    ghost predicate Valid()
      reads this
    {
      if maxEntries >= 0 then Agrees(history, items, maxEntries) else items == []
    }

    constructor (ttlS: real, maxEntries: int)
      ensures Valid() && this.ttlS == ttlS && this.maxEntries == maxEntries && items == [] && history == []
    {
      this.ttlS, this.maxEntries, items, history := ttlS, maxEntries, [], [];
    }

    method Get(key: string, now: real) returns (r: Option<B>)
      requires Valid()
      modifies this
      ensures Valid() && history == old(history) + [Got(key, now, r)]
      ensures r == Answer(old(items), key, now)
      ensures maxEntries >= 0 ==> items == Next(old(items), Op.Get(key, now), maxEntries)
    {
      if maxEntries >= 0 {
        GetKeeps(history, items, key, now, maxEntries);
      }
      var i := Find(items, key);
      if i < 0 {
        history := history + [Got(key, now, None)];
        return None;
      }
      var entry := items[i].1;
      if entry.expiresAt < now {
        items := items[..i] + items[i + 1..];
        history := history + [Got(key, now, None)];
        return None;
      }
      items := items[..i] + items[i + 1..] + [items[i]];
      r := Some(entry.bundle);
      history := history + [Got(key, now, r)];
    }

    /** With a negative limit popping the empty dictionary raises. */
    method Put(key: string, bundle: B, now: real, ttl: Option<real>) returns (raised: bool)
      requires Valid()
      modifies this
      ensures Valid() && (raised <==> maxEntries < 0)
      ensures var entry := Entry(bundle, now + if ttl.None? then ttlS else ttl.value);
        !raised ==> history == old(history) + [Stored(key, entry)] && items == Next(old(items), Op.Put(key, entry), maxEntries)
      ensures raised ==> history == old(history) && items == []
    {
      var entry := Entry(bundle, now + if ttl.None? then ttlS else ttl.value);
      if maxEntries >= 0 {
        PutKeeps(history, items, key, entry, maxEntries);
      }
      var i := Find(items, key);
      if i < 0 {
        items := items + [(key, entry)];
      } else {
        items := items[i := (key, entry)];
        items := items[..i] + items[i + 1..] + [items[i]];
      }
      assert items == Without(old(items), i) + [(key, entry)];
      raised := PopOldest();
      if !raised {
        history := history + [Stored(key, entry)];
      }
    }

    method PopOldest() returns (raised: bool)
      modifies this`items
      ensures raised <==> maxEntries < 0
      ensures items == if raised then [] else Newest(old(items), maxEntries)
    {
      while |items| > maxEntries
        invariant |items| <= |old(items)| && items == old(items)[|old(items)| - |items|..]
        invariant maxEntries >= 0 ==> |items| >= maxEntries || items == old(items)
      {
        if items == [] {
          return true;
        }
        items := items[1..];
      }
      raised := false;
    }

    method Clear()
      requires Valid()
      modifies this
      ensures Valid() && items == [] && history == old(history) + [Cleared]
    {
      items := [];
      history := history + [Cleared];
      Snoc(old(history), Cleared);
    }
  }

  // ----- keys -----

  function MakeKey(parts: seq<string>): string {
    if parts == [] then ""
    else if |parts| == 1 then parts[0]
    else parts[0] + "|" + MakeKey(parts[1..])
  }

  predicate NoBar(parts: seq<string>) {
    forall i :: 0 <= i < |parts| ==> '|' !in parts[i]
  }

  /** Keys made of the same number of parts, none with a bar in it, are equal only when the parts are. */
  lemma {:induction false} KeysAreDistinct(a: seq<string>, b: seq<string>)
    requires |a| == |b| && NoBar(a) && NoBar(b) && MakeKey(a) == MakeKey(b)
    ensures a == b
  {
    if |a| > 1 {
      var key := MakeKey(a);
      assert key[|a[0]|] == '|' && key[|b[0]|] == '|';
      assert forall i :: 0 <= i < |a[0]| ==> key[i] == a[0][i];
      assert forall i :: 0 <= i < |b[0]| ==> key[i] == b[0][i];
      assert |a[0]| == |b[0]|;
      assert a[0] == key[..|a[0]|] && b[0] == key[..|b[0]|];
      assert MakeKey(a[1..]) == key[|a[0]| + 1..] && MakeKey(b[1..]) == key[|b[0]| + 1..];
      KeysAreDistinct(a[1..], b[1..]);
      assert a == [a[0]] + a[1..] && b == [b[0]] + b[1..];
    }
  }

  lemma KeyOfThree(x: string, y: string, z: string, rest: seq<string>)
    requires rest != []
    ensures MakeKey([x, y, z] + rest) == x + "|" + (y + "|" + (z + "|" + MakeKey(rest)))
  {
    var three, two, one := [x, y, z] + rest, [y, z] + rest, [z] + rest;
    assert three[1..] == two && two[1..] == one && one[1..] == rest;
    assert MakeKey(one) == z + "|" + MakeKey(rest);
    assert MakeKey(two) == y + "|" + MakeKey(one);
    assert MakeKey(three) == x + "|" + MakeKey(two);
  }

  /** A bar inside a part can make the keys of different requests equal. */
  lemma KeysCollide(auth: string, rest: seq<string>)
    requires rest != []
    ensures ["a|b", "", auth] + rest != ["a", "b", "|" + auth] + rest
    ensures MakeKey(["a|b", "", auth] + rest) == MakeKey(["a", "b", "|" + auth] + rest)
  {
    assert (["a|b", "", auth] + rest)[0] != (["a", "b", "|" + auth] + rest)[0];
    KeyOfThree("a|b", "", auth, rest);
    KeyOfThree("a", "b", "|" + auth, rest);
    assert "a|b" + "|" + ("" + "|" + (auth + "|" + MakeKey(rest))) == "a" + "|" + ("b" + "|" + ("|" + auth + "|" + MakeKey(rest)));
  }
}
