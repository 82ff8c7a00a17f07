/** Open browser pages as values: expiry, eviction by a stable sort, and what any run keeps. */
module BrowserPages {
  import opened Wrappers

  datatype Page = Page(ref: string, ttl: int, last: real)

  predicate Expired(p: Page, now: real) {
    p.ttl > 0 && now - p.last > p.ttl as real
  }

  /** The position of a page, or -1. */
  function Find(pages: seq<Page>, ref: string): (i: int)
    ensures -1 <= i < |pages|
    ensures i >= 0 ==> pages[i].ref == ref
    ensures i < 0 ==> forall j :: 0 <= j < |pages| ==> pages[j].ref != ref
  {
    if pages == [] then -1
    else if pages[|pages| - 1].ref == ref then |pages| - 1
    else Find(pages[..|pages| - 1], ref)
  }

  function Refs(pages: seq<Page>): (refs: seq<string>)
    ensures |refs| == |pages|
  {
    seq(|pages|, i requires 0 <= i < |pages| => pages[i].ref)
  }

  /** The dictionary without a key; the others keep their order. */
  function Without(pages: seq<Page>, ref: string): seq<Page> {
    var i := Find(pages, ref);
    if i < 0 then pages else pages[..i] + pages[i + 1..]
  }

  function WithoutAll(pages: seq<Page>, refs: seq<string>): seq<Page> {
    if refs == [] then pages else Without(WithoutAll(pages, refs[..|refs| - 1]), refs[|refs| - 1])
  }

  function ExpiredRefs(pages: seq<Page>, now: real): seq<string> {
    if pages == [] then []
    else
      var last := pages[|pages| - 1];
      ExpiredRefs(pages[..|pages| - 1], now) + (if Expired(last, now) then [last.ref] else [])
  }

  /** A page goes behind all that were not accessed later. */
  function Insert(sorted: seq<Page>, p: Page): seq<Page> {
    if sorted == [] || sorted[|sorted| - 1].last <= p.last then sorted + [p]
    else Insert(sorted[..|sorted| - 1], p) + [sorted[|sorted| - 1]]
  }

  /** The stable sort by last access. */
  function Sorted(pages: seq<Page>): seq<Page> {
    if pages == [] then [] else Insert(Sorted(pages[..|pages| - 1]), pages[|pages| - 1])
  }

  /** The pages to evict so that `max` remain: those accessed longest ago. */
  function Victims(pages: seq<Page>, max: nat): seq<string> {
    SortedLength(pages);
    if |pages| <= max then [] else Refs(Sorted(pages)[..|pages| - max])
  }

  lemma {:induction false} InsertLength(sorted: seq<Page>, p: Page)
    ensures multiset(Insert(sorted, p)) == multiset(sorted) + multiset{p}
    ensures |Insert(sorted, p)| == |sorted| + 1
  {
    if !(sorted == [] || sorted[|sorted| - 1].last <= p.last) {
      InsertLength(sorted[..|sorted| - 1], p);
      assert sorted == sorted[..|sorted| - 1] + [sorted[|sorted| - 1]];
    }
  }

  lemma {:induction false} SortedLength(pages: seq<Page>)
    ensures multiset(Sorted(pages)) == multiset(pages) && |Sorted(pages)| == |pages|
  {
    if pages != [] {
      SortedLength(pages[..|pages| - 1]);
      InsertLength(Sorted(pages[..|pages| - 1]), pages[|pages| - 1]);
      assert pages == pages[..|pages| - 1] + [pages[|pages| - 1]];
    }
  }

  ghost predicate Ordered(s: seq<Page>) {
    forall i, j :: 0 <= i < j < |s| ==> s[i].last <= s[j].last
  }

  lemma {:induction false} InsertOrdered(sorted: seq<Page>, p: Page)
    requires Ordered(sorted)
    ensures Ordered(Insert(sorted, p))
  {
    if !(sorted == [] || sorted[|sorted| - 1].last <= p.last) {
      var front, last := sorted[..|sorted| - 1], sorted[|sorted| - 1];
      InsertOrdered(front, p);
      InsertLength(front, p);
      forall x | x in Insert(front, p)
        ensures x.last <= last.last
      {
        assert x in multiset(Insert(front, p));
      }
    }
  }

  lemma {:induction false} SortedOrdered(pages: seq<Page>)
    ensures Ordered(Sorted(pages))
  {
    if pages != [] {
      SortedOrdered(pages[..|pages| - 1]);
      InsertOrdered(Sorted(pages[..|pages| - 1]), pages[|pages| - 1]);
    }
  }

  // ----- operations and runs -----

  /** `closed` logs every page closed, in order; `registered` every page ever registered. */
  datatype State = State(pages: seq<Page>, closed: seq<string>, registered: seq<string>)

  datatype Op = Register(ref: string, ttl: int, now: real) | Get(ref: string, now: real) | Close(ref: string) | Sweep(now: real) | CloseAll

  /** Takes pages out of the dictionary and closes each. */
  function Drop(s: State, refs: seq<string>): State {
    s.(pages := WithoutAll(s.pages, refs), closed := s.closed + refs)
  }

  function Touch(pages: seq<Page>, i: nat, now: real): seq<Page>
    requires i < |pages|
  {
    pages[i := pages[i].(last := now)]
  }

  function Next(s: State, op: Op, max: nat): State {
    match op
    case Register(ref, ttl, now) =>
      var swept := Drop(s, ExpiredRefs(s.pages, now));
      var added := swept.(pages := swept.pages + [Page(ref, ttl, now)], registered := swept.registered + [ref]);
      Drop(added, Victims(added.pages, max))
    case Get(ref, now) =>
      var i := Find(s.pages, ref);
      if i < 0 then s
      else if Expired(s.pages[i], now) then Drop(s, [ref])
      else s.(pages := Touch(s.pages, i, now))
    case Close(ref) => if Find(s.pages, ref) < 0 then s else Drop(s, [ref])
    case Sweep(now) => Drop(s, ExpiredRefs(s.pages, now))
    case CloseAll => State([], s.closed + Refs(s.pages), s.registered)
  }

  function Run(ops: seq<Op>, max: nat): State {
    if ops == [] then State([], [], []) else Next(Run(ops[..|ops| - 1], max), ops[|ops| - 1], max)
  }

  ghost predicate Unique(m: multiset<string>) {
    forall x :: m[x] <= 1
  }

  /** The refs of all held pages. */
  function Held(pages: seq<Page>): multiset<string> {
    multiset(Refs(pages))
  }

  /** Every page ever registered is either held or closed, exactly once, and never both. */
  ghost predicate Accounted(s: State) {
    Unique(multiset(s.registered)) && multiset(s.registered) == Held(s.pages) + multiset(s.closed)
  }

  // ----- taking pages out -----

  lemma HeldSnoc(pages: seq<Page>)
    requires pages != []
    ensures Held(pages) == Held(pages[..|pages| - 1]) + multiset{pages[|pages| - 1].ref}
  {
    assert Refs(pages) == Refs(pages[..|pages| - 1]) + [pages[|pages| - 1].ref];
  }

  lemma HeldConcat(a: seq<Page>, b: seq<Page>)
    ensures Held(a + b) == Held(a) + Held(b)
  {
    assert Refs(a + b) == Refs(a) + Refs(b);
  }

  lemma HeldMember(pages: seq<Page>, ref: string)
    ensures ref in Held(pages) <==> Find(pages, ref) >= 0
  {
    var i := Find(pages, ref);
    if i >= 0 {
      assert Refs(pages)[i] == ref;
    }
  }

  lemma WithoutOne(pages: seq<Page>, ref: string)
    requires ref in Held(pages)
    ensures Held(Without(pages, ref)) == Held(pages) - multiset{ref} && |Without(pages, ref)| == |pages| - 1
  {
    HeldMember(pages, ref);
    var i := Find(pages, ref);
    var a, b := pages[..i], pages[i + 1..];
    assert pages == a + [pages[i]] + b;
    HeldConcat(a, b);
    HeldConcat(a, [pages[i]]);
    HeldConcat(a + [pages[i]], b);
    HeldSnoc([pages[i]]);
  }

  lemma {:induction false} WithoutMany(pages: seq<Page>, refs: seq<string>)
    requires multiset(refs) <= Held(pages)
    ensures Held(WithoutAll(pages, refs)) == Held(pages) - multiset(refs) && |WithoutAll(pages, refs)| == |pages| - |refs|
  {
    if refs != [] {
      var front, last := refs[..|refs| - 1], refs[|refs| - 1];
      assert refs == front + [last];
      WithoutMany(pages, front);
      WithoutOne(WithoutAll(pages, front), last);
    }
  }

  /** Dropping held pages moves them from the held to the closed. */
  lemma DropKeeps(s: State, refs: seq<string>)
    requires Accounted(s) && multiset(refs) <= Held(s.pages)
    ensures Accounted(Drop(s, refs)) && |Drop(s, refs).pages| == |s.pages| - |refs|
  {
    WithoutMany(s.pages, refs);
    assert multiset(s.closed + refs) == multiset(s.closed) + multiset(refs);
  }

  lemma {:induction false} ExpiredAreHeld(pages: seq<Page>, now: real)
    ensures multiset(ExpiredRefs(pages, now)) <= Held(pages)
  {
    if pages != [] {
      ExpiredAreHeld(pages[..|pages| - 1], now);
      HeldSnoc(pages);
    }
  }

  lemma {:induction false} InsertHeld(sorted: seq<Page>, p: Page)
    ensures Held(Insert(sorted, p)) == Held(sorted) + multiset{p.ref}
  {
    HeldSnoc(sorted + [p]);
    assert (sorted + [p])[..|sorted|] == sorted;
    if !(sorted == [] || sorted[|sorted| - 1].last <= p.last) {
      var front, last := sorted[..|sorted| - 1], sorted[|sorted| - 1];
      InsertHeld(front, p);
      HeldSnoc(sorted);
      HeldSnoc(Insert(front, p) + [last]);
      assert (Insert(front, p) + [last])[..|Insert(front, p)|] == Insert(front, p);
    }
  }

  lemma {:induction false} SortedHeld(pages: seq<Page>)
    ensures Held(Sorted(pages)) == Held(pages)
  {
    if pages != [] {
      SortedHeld(pages[..|pages| - 1]);
      InsertHeld(Sorted(pages[..|pages| - 1]), pages[|pages| - 1]);
      HeldSnoc(pages);
    }
  }

  lemma VictimsAreHeld(pages: seq<Page>, max: nat)
    ensures multiset(Victims(pages, max)) <= Held(pages)
    ensures |Victims(pages, max)| == if |pages| <= max then 0 else |pages| - max
  {
    SortedLength(pages);
    SortedHeld(pages);
    if |pages| > max {
      var k := |pages| - max;
      HeldConcat(Sorted(pages)[..k], Sorted(pages)[k..]);
      assert Sorted(pages) == Sorted(pages)[..k] + Sorted(pages)[k..];
    }
  }

  // ----- any run -----

  lemma RegisterKeeps(s: State, ref: string, ttl: int, now: real, max: nat)
    requires Accounted(s) && ref !in s.registered
    ensures var after := Next(s, Register(ref, ttl, now), max); Accounted(after) && |after.pages| <= max
  {
    ExpiredAreHeld(s.pages, now);
    var swept := Drop(s, ExpiredRefs(s.pages, now));
    DropKeeps(s, ExpiredRefs(s.pages, now));
    var added := swept.(pages := swept.pages + [Page(ref, ttl, now)], registered := swept.registered + [ref]);
    HeldSnoc(added.pages);
    assert added.pages[..|swept.pages|] == swept.pages;
    VictimsAreHeld(added.pages, max);
    DropKeeps(added, Victims(added.pages, max));
  }

  lemma TouchHeld(pages: seq<Page>, i: nat, now: real)
    requires i < |pages|
    ensures Refs(Touch(pages, i, now)) == Refs(pages)
  {
  }

  lemma OpKeeps(s: State, op: Op, max: nat)
    requires Accounted(s) && |s.pages| <= max && (op.Register? ==> op.ref !in s.registered)
    ensures Accounted(Next(s, op, max)) && |Next(s, op, max).pages| <= max
  {
    match op
    case Register(ref, ttl, now) => RegisterKeeps(s, ref, ttl, now, max);
    case Get(ref, now) =>
      HeldMember(s.pages, ref);
      var i := Find(s.pages, ref);
      if i >= 0 {
        if Expired(s.pages[i], now) {
          DropKeeps(s, [ref]);
        } else {
          TouchHeld(s.pages, i, now);
        }
      }
    case Close(ref) =>
      HeldMember(s.pages, ref);
      if Find(s.pages, ref) >= 0 {
        DropKeeps(s, [ref]);
      }
    case Sweep(now) =>
      ExpiredAreHeld(s.pages, now);
      DropKeeps(s, ExpiredRefs(s.pages, now));
    case CloseAll =>
      assert multiset(s.closed + Refs(s.pages)) == multiset(s.closed) + Held(s.pages);
  }

  /** No page is registered under a ref used before. */
  predicate FreshRefs(ops: seq<Op>, max: nat) {
    ops == [] || (FreshRefs(ops[..|ops| - 1], max) &&
                  (ops[|ops| - 1].Register? ==> ops[|ops| - 1].ref !in Run(ops[..|ops| - 1], max).registered))
  }

  /** Over any run every registered page is held or closed, exactly once, and at most `max` are held. */
  lemma {:induction false} RunAccounted(ops: seq<Op>, max: nat)
    requires FreshRefs(ops, max)
    ensures Accounted(Run(ops, max)) && |Run(ops, max).pages| <= max
  {
    if ops != [] {
      RunAccounted(ops[..|ops| - 1], max);
      OpKeeps(Run(ops[..|ops| - 1], max), ops[|ops| - 1], max);
    }
  }

  // ----- who is evicted -----

  /** The page at `j` comes before the page at `i`: accessed earlier, or as long ago and registered earlier. */
  predicate Before(pages: seq<Page>, j: nat, i: nat)
    requires j < |pages| && i < |pages|
  {
    pages[j].last < pages[i].last || (pages[j].last == pages[i].last && j < i)
  }

  /** How many of the first `n` pages come before the page at `i`. */
  function Rank(pages: seq<Page>, n: nat, i: nat): nat
    requires n <= |pages| && i < |pages|
  {
    if n == 0 then 0 else Rank(pages, n - 1, i) + (if Before(pages, n - 1, i) then 1 else 0)
  }

  function AtMost(pages: seq<Page>, x: real): nat {
    if pages == [] then 0
    else AtMost(pages[..|pages| - 1], x) + (if pages[|pages| - 1].last <= x then 1 else 0)
  }

  lemma {:induction false} InsertAtMost(sorted: seq<Page>, p: Page, x: real)
    ensures AtMost(Insert(sorted, p), x) == AtMost(sorted, x) + (if p.last <= x then 1 else 0)
  {
    assert (sorted + [p])[..|sorted|] == sorted;
    if !(sorted == [] || sorted[|sorted| - 1].last <= p.last) {
      var front, last := sorted[..|sorted| - 1], sorted[|sorted| - 1];
      InsertAtMost(front, p, x);
      assert (Insert(front, p) + [last])[..|Insert(front, p)|] == Insert(front, p);
    }
  }

  lemma {:induction false} SortedAtMost(pages: seq<Page>, x: real)
    ensures AtMost(Sorted(pages), x) == AtMost(pages, x)
  {
    if pages != [] {
      SortedAtMost(pages[..|pages| - 1], x);
      InsertAtMost(Sorted(pages[..|pages| - 1]), pages[|pages| - 1], x);
    }
  }

  lemma {:induction false} AtMostBound(pages: seq<Page>, x: real)
    ensures AtMost(pages, x) <= |pages|
    ensures (forall i :: 0 <= i < |pages| ==> pages[i].last <= x) ==> AtMost(pages, x) == |pages|
  {
    if pages != [] {
      AtMostBound(pages[..|pages| - 1], x);
      assert forall i :: 0 <= i < |pages| - 1 ==> pages[..|pages| - 1][i] == pages[i];
    }
  }

  /** In an ordered list the pages accessed by time `x` are the first ones. */
  lemma {:induction false} AtMostPrefix(s: seq<Page>, x: real, i: nat)
    requires Ordered(s) && i < |s|
    ensures s[i].last <= x <==> i < AtMost(s, x)
  {
    var n := |s| - 1;
    if s[n].last <= x {
      AtMostBound(s, x);
    } else if i < n {
      AtMostPrefix(s[..n], x, i);
    } else {
      AtMostBound(s[..n], x);
    }
  }

  lemma {:induction false} InsertAt(sorted: seq<Page>, p: Page)
    requires Ordered(sorted)
    ensures AtMost(sorted, p.last) <= |sorted|
    ensures Insert(sorted, p) == sorted[..AtMost(sorted, p.last)] + [p] + sorted[AtMost(sorted, p.last)..]
  {
    AtMostBound(sorted, p.last);
    if sorted == [] || sorted[|sorted| - 1].last <= p.last {
      assert sorted[..|sorted|] == sorted;
    } else {
      InsertAt(sorted[..|sorted| - 1], p);
    }
  }

  lemma {:induction false} RankOfNew(pages: seq<Page>, p: Page, n: nat)
    requires n <= |pages|
    ensures Rank(pages + [p], n, |pages|) == AtMost(pages[..n], p.last)
  {
    if n > 0 {
      RankOfNew(pages, p, n - 1);
      assert pages[..n][..n - 1] == pages[..n - 1];
    }
  }

  lemma {:induction false} RankOfOld(pages: seq<Page>, p: Page, n: nat, i: nat)
    requires n <= |pages| && i < |pages|
    ensures Rank(pages + [p], n, i) == Rank(pages, n, i)
  {
    if n > 0 {
      RankOfOld(pages, p, n - 1, i);
    }
  }

  lemma {:induction false} SortedSnoc(pages: seq<Page>, p: Page)
    ensures var c := AtMost(pages, p.last);
      c <= |pages| == |Sorted(pages)| && Sorted(pages + [p]) == Sorted(pages)[..c] + [p] + Sorted(pages)[c..]
  {
    assert (pages + [p])[..|pages|] == pages;
    SortedLength(pages);
    SortedOrdered(pages);
    SortedAtMost(pages, p.last);
    InsertAt(Sorted(pages), p);
  }

  lemma RankStep(pages: seq<Page>, p: Page, i: nat)
    requires i < |pages|
    ensures Rank(pages + [p], |pages| + 1, i) == Rank(pages, |pages|, i) + (if p.last < pages[i].last then 1 else 0)
  {
    RankOfOld(pages, p, |pages|, i);
  }

  lemma RankStepNew(pages: seq<Page>, p: Page)
    ensures Rank(pages + [p], |pages| + 1, |pages|) == AtMost(pages, p.last)
  {
    RankOfNew(pages, p, |pages|);
    assert pages[..|pages|] == pages;
  }

  lemma InsertedIndex(s: seq<Page>, c: nat, p: Page, r: nat)
    requires c <= |s| && r < |s|
    ensures (s[..c] + [p] + s[c..])[if r < c then r else r + 1] == s[r]
  {
    if r < c {
      assert (s[..c] + [p] + s[c..])[r] == s[..c][r];
    } else {
      assert (s[..c] + [p] + s[c..])[r + 1] == s[c..][r - c];
    }
  }

  lemma SortedByRankOld(pages: seq<Page>, p: Page, i: nat)
    requires i < |pages|
    requires Rank(pages, |pages|, i) < |pages| && |Sorted(pages)| == |pages| && Sorted(pages)[Rank(pages, |pages|, i)] == pages[i]
    ensures var r := Rank(pages + [p], |pages| + 1, i);
      r < |pages| + 1 && |Sorted(pages + [p])| == |pages| + 1 && Sorted(pages + [p])[r] == pages[i]
  {
    var sorted, c, r := Sorted(pages), AtMost(pages, p.last), Rank(pages, |pages|, i);
    SortedSnoc(pages, p);
    RankStep(pages, p, i);
    assert p.last < sorted[r].last <==> c <= r by {
      SortedOrdered(pages);
      SortedAtMost(pages, p.last);
      AtMostPrefix(sorted, p.last, r);
    }
    InsertedIndex(sorted, c, p, r);
  }

  /** The sort puts every page at its rank. */
  lemma {:induction false} SortedByRank(pages: seq<Page>, i: nat)
    requires i < |pages|
    ensures Rank(pages, |pages|, i) < |pages| && |Sorted(pages)| == |pages| && Sorted(pages)[Rank(pages, |pages|, i)] == pages[i]
  {
    var n := |pages| - 1;
    var front, p := pages[..n], pages[n];
    assert pages == front + [p];
    if i == n {
      SortedSnoc(front, p);
      RankStepNew(front, p);
    } else {
      SortedByRank(front, i);
      SortedByRankOld(front, p, i);
    }
  }

  lemma UniqueIndex(pages: seq<Page>, a: nat, b: nat)
    requires Unique(Held(pages)) && a < |pages| && b < |pages| && pages[a].ref == pages[b].ref
    ensures a == b
  {
    if a != b {
      TwiceIn(Refs(pages), if a < b then a else b, if a < b then b else a);
    }
  }

  lemma FirstRefs(sorted: seq<Page>, k: nat, r: nat)
    requires k <= |sorted| && r < |sorted| && Unique(Held(sorted))
    ensures sorted[r].ref in Refs(sorted[..k]) <==> r < k
  {
    var refs := Refs(sorted[..k]);
    if r < k {
      assert refs[r] == sorted[r].ref;
    }
    if sorted[r].ref in refs {
      var a :| 0 <= a < k && refs[a] == sorted[r].ref;
      UniqueIndex(sorted, a, r);
    }
  }

  /** A page is evicted exactly when fewer pages come before it than have to go. */
  lemma VictimsExactly(pages: seq<Page>, max: nat, i: nat)
    requires i < |pages| && Unique(Held(pages))
    ensures pages[i].ref in Victims(pages, max) <==> Rank(pages, |pages|, i) + max < |pages|
  {
    SortedByRank(pages, i);
    VictimsByIndex(pages, max, i, Rank(pages, |pages|, i));
  }

  lemma VictimsByIndex(pages: seq<Page>, max: nat, i: nat, r: nat)
    requires i < |pages| && Unique(Held(pages))
    requires r < |Sorted(pages)| == |pages| && Sorted(pages)[r] == pages[i]
    ensures pages[i].ref in Victims(pages, max) <==> r + max < |pages|
  {
    if |pages| > max {
      var k := |pages| - max;
      assert Victims(pages, max) == Refs(Sorted(pages)[..k]);
      SortedHeld(pages);
      FirstVictims(pages, Sorted(pages), k, r, i);
    }
  }

  lemma FirstVictims(pages: seq<Page>, sorted: seq<Page>, k: nat, r: nat, i: nat)
    requires Unique(Held(pages)) && Held(sorted) == Held(pages)
    requires k <= |sorted| && r < |sorted| && i < |pages| && sorted[r] == pages[i]
    ensures pages[i].ref in Refs(sorted[..k]) <==> r < k
  {
    FirstRefs(sorted, k, r);
  }

  lemma TwiceIn(s: seq<string>, a: nat, b: nat)
    requires a < b < |s| && s[a] == s[b]
    ensures multiset(s)[s[a]] >= 2
  {
    assert s == s[..b] + [s[b]] + s[b + 1..];
    assert s[a] in s[..b];
  }

  lemma {:induction false} RankMonotone(pages: seq<Page>, n: nat, j: nat, i: nat)
    requires n <= |pages| && i < |pages| && j < |pages| && Before(pages, j, i)
    ensures Rank(pages, n, j) + (if j < n then 1 else 0) <= Rank(pages, n, i)
  {
    if n > 0 {
      RankMonotone(pages, n - 1, j, i);
    }
  }

  /** No evicted page was accessed later than a survivor; between equals the one registered earlier goes. */
  lemma EvictedBefore(pages: seq<Page>, max: nat, i: nat, j: nat)
    requires i < |pages| && j < |pages| && Unique(Held(pages))
    requires pages[i].ref in Victims(pages, max) && pages[j].ref !in Victims(pages, max)
    ensures Before(pages, i, j)
  {
    VictimsExactly(pages, max, i);
    VictimsExactly(pages, max, j);
    if !Before(pages, i, j) && i != j {
      RankMonotone(pages, |pages|, j, i);
    }
  }

  // ----- the page just registered -----

  lemma WithoutStays(pages: seq<Page>, ref: string, p: Page)
    ensures p in pages && p.ref != ref ==> p in Without(pages, ref)
    ensures p in Without(pages, ref) ==> p in pages
  {
    var i := Find(pages, ref);
    if i >= 0 {
      assert pages == pages[..i] + [pages[i]] + pages[i + 1..];
    }
  }

  lemma {:induction false} SurvivorStays(pages: seq<Page>, refs: seq<string>, p: Page)
    ensures p in pages && p.ref !in refs ==> p in WithoutAll(pages, refs)
    ensures p in WithoutAll(pages, refs) ==> p in pages
  {
    if refs != [] {
      SurvivorStays(pages, refs[..|refs| - 1], p);
      WithoutStays(WithoutAll(pages, refs[..|refs| - 1]), refs[|refs| - 1], p);
    }
  }

  lemma {:induction false} RankOfLast(pages: seq<Page>, n: nat)
    requires pages != [] && n < |pages|
    requires forall j :: 0 <= j < |pages| ==> pages[j].last <= pages[|pages| - 1].last
    ensures Rank(pages, n, |pages| - 1) == n
  {
    if n > 0 {
      RankOfLast(pages, n - 1);
    }
  }

  /** A page added last and accessed no earlier than the others is not evicted. */
  lemma {:induction false} NewestSurvives(pages: seq<Page>, max: nat)
    requires pages != [] && max > 0 && Unique(Held(pages))
    requires forall j :: 0 <= j < |pages| ==> pages[j].last <= pages[|pages| - 1].last
    ensures pages[|pages| - 1] in WithoutAll(pages, Victims(pages, max))
  {
    var n := |pages| - 1;
    RankOfLast(pages, n);
    VictimsExactly(pages, max, n);
    SurvivorStays(pages, Victims(pages, max), pages[n]);
  }

  function TimeOf(op: Op): Option<real> {
    match op
    case Register(_, _, now) => Some(now)
    case Get(_, now) => Some(now)
    case Sweep(now) => Some(now)
    case _ => None
  }

  /** The clock read no operation later than `now`. */
  ghost predicate NotBefore(ops: seq<Op>, now: real) {
    forall i :: 0 <= i < |ops| && TimeOf(ops[i]).Some? ==> TimeOf(ops[i]).value <= now
  }

  lemma AccessedAfterOp(s: State, op: Op, max: nat, now: real)
    requires forall p :: p in s.pages ==> p.last <= now
    requires TimeOf(op).Some? ==> TimeOf(op).value <= now
    ensures forall p :: p in Next(s, op, max).pages ==> p.last <= now
  {
    forall p | p in Next(s, op, max).pages
      ensures p.last <= now
    {
      match op
      case Register(ref, ttl, t) =>
        var swept := WithoutAll(s.pages, ExpiredRefs(s.pages, t));
        var added := swept + [Page(ref, ttl, t)];
        SurvivorStays(added, Victims(added, max), p);
        SurvivorStays(s.pages, ExpiredRefs(s.pages, t), p);
      case Get(ref, t) => SurvivorStays(s.pages, [ref], p);
      case Close(ref) => SurvivorStays(s.pages, [ref], p);
      case Sweep(t) => SurvivorStays(s.pages, ExpiredRefs(s.pages, t), p);
      case CloseAll =>
    }
  }

  lemma {:induction false} AccessedByNow(ops: seq<Op>, max: nat, now: real)
    requires NotBefore(ops, now)
    ensures forall p :: p in Run(ops, max).pages ==> p.last <= now
  {
    if ops != [] {
      var front := ops[..|ops| - 1];
      assert forall i :: 0 <= i < |front| ==> front[i] == ops[i];
      AccessedByNow(front, max, now);
      AccessedAfterOp(Run(front, max), ops[|ops| - 1], max, now);
    }
  }

  /** After any run on a clock that does not go back, a page just registered is held. */
  lemma {:induction false} RegisteredIsHeld(ops: seq<Op>, max: nat, ref: string, ttl: int, now: real)
    requires max > 0 && FreshRefs(ops, max) && ref !in Run(ops, max).registered && NotBefore(ops, now)
    ensures Page(ref, ttl, now) in Next(Run(ops, max), Register(ref, ttl, now), max).pages
  {
    RunAccounted(ops, max);
    AccessedByNow(ops, max, now);
    AddedIsHeld(Run(ops, max), max, ref, ttl, now);
  }

  lemma AddedIsHeld(s: State, max: nat, ref: string, ttl: int, now: real)
    requires max > 0 && Accounted(s) && ref !in s.registered && forall p :: p in s.pages ==> p.last <= now
    ensures Page(ref, ttl, now) in Next(s, Register(ref, ttl, now), max).pages
  {
    var refs := ExpiredRefs(s.pages, now);
    ExpiredAreHeld(s.pages, now);
    WithoutMany(s.pages, refs);
    var swept := WithoutAll(s.pages, refs);
    var added := swept + [Page(ref, ttl, now)];
    AddedIsUnique(s, swept, Page(ref, ttl, now));
    forall j | 0 <= j < |swept|
      ensures swept[j].last <= now
    {
      SurvivorStays(s.pages, refs, swept[j]);
    }
    NewestSurvives(added, max);
  }

  lemma AddedIsUnique(s: State, swept: seq<Page>, p: Page)
    requires Accounted(s) && p.ref !in s.registered && Held(swept) <= Held(s.pages)
    ensures Unique(Held(swept + [p]))
  {
    HeldSnoc(swept + [p]);
    assert (swept + [p])[..|swept|] == swept;
    NewRefIsUnique(s, Held(swept), p.ref);
  }

  lemma NewRefIsUnique(s: State, held: multiset<string>, ref: string)
    requires Accounted(s) && ref !in s.registered && held <= Held(s.pages)
    ensures Unique(held + multiset{ref})
  {
    forall x
      ensures (held + multiset{ref})[x] <= 1
    {
      assert held[x] <= multiset(s.registered)[x];
    }
  }
}
