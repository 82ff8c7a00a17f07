/**
  The life of a page in the registry, told by the operations so far: when it was last used,
  and exactly which operation ends it.
 */
module PageLife {
  import opened Wrappers
  import opened BrowserPages

  // ----- taking pages out, as filters -----

  /** The pages not used for longer than their time to live; zero or less is for ever. */
  function Idle(now: real): Page -> bool {
    (p: Page) => p.ttl > 0 && now > p.last + p.ttl as real
  }

  function Fresh(now: real): Page -> bool {
    (p: Page) => p.ttl <= 0 || now <= p.last + p.ttl as real
  }

  function Apart(refs: seq<string>): Page -> bool {
    (p: Page) => p.ref !in refs
  }

  lemma {:induction false} FilterMember(pages: seq<Page>, keep: Page -> bool, p: Page)
    ensures p in Filter(pages, keep) <==> p in pages && keep(p)
  {
    if pages != [] {
      FilterMember(pages[..|pages| - 1], keep, p);
      assert pages == pages[..|pages| - 1] + [pages[|pages| - 1]];
    }
  }

  lemma {:induction false} FilterConcat(a: seq<Page>, b: seq<Page>, keep: Page -> bool)
    ensures Filter(a + b, keep) == Filter(a, keep) + Filter(b, keep)
  {
    if b == [] {
      assert a + b == a;
    } else {
      var n := |b| - 1;
      assert (a + b)[..|a + b| - 1] == a + b[..n];
      FilterConcat(a, b[..n], keep);
    }
  }

  lemma {:induction false} FilterAll(pages: seq<Page>, keep: Page -> bool)
    requires forall i :: 0 <= i < |pages| ==> keep(pages[i])
    ensures Filter(pages, keep) == pages
  {
    if pages != [] {
      var n := |pages| - 1;
      assert forall i :: 0 <= i < n ==> pages[..n][i] == pages[i];
      FilterAll(pages[..n], keep);
      assert pages == pages[..n] + [pages[n]];
    }
  }

  lemma {:induction false} FilterTwice(pages: seq<Page>, one: Page -> bool, two: Page -> bool, both: Page -> bool)
    requires forall p :: p in pages ==> (both(p) <==> one(p) && two(p))
    ensures Filter(Filter(pages, one), two) == Filter(pages, both)
  {
    if pages != [] {
      var front, last := pages[..|pages| - 1], pages[|pages| - 1];
      FilterTwice(front, one, two, both);
      FilterConcat(Filter(front, one), [last], two);
      assert Filter(pages, one) == if one(last) then Filter(front, one) + [last] else Filter(front, one);
      FilterConcat([], [last], two);
    }
  }

  lemma {:induction false} FilterSame(pages: seq<Page>, one: Page -> bool, two: Page -> bool)
    requires forall p :: p in pages ==> (one(p) <==> two(p))
    ensures Filter(pages, one) == Filter(pages, two)
  {
    if pages != [] {
      FilterSame(pages[..|pages| - 1], one, two);
    }
  }

  lemma {:induction false} FilterHeld(pages: seq<Page>, keep: Page -> bool)
    ensures Held(Filter(pages, keep)) <= Held(pages)
  {
    if pages != [] {
      var front, last := pages[..|pages| - 1], pages[|pages| - 1];
      FilterHeld(front, keep);
      HeldSnoc(pages);
      HeldConcat(Filter(front, keep), [last]);
      HeldSnoc([last]);
      assert Filter(front, keep) + [] == Filter(front, keep);
    }
  }

  lemma OthersApart(pages: seq<Page>)
    requires Unique(Held(pages)) && pages != []
    ensures var n := |pages| - 1; forall k :: 0 <= k < n ==> pages[..n][k].ref != pages[n].ref
  {
    var n := |pages| - 1;
    forall k | 0 <= k < n
      ensures pages[..n][k].ref != pages[n].ref
    {
      if pages[k].ref == pages[n].ref {
        UniqueIndex(pages, k, n);
      }
    }
  }

  lemma FrontUnique(pages: seq<Page>)
    requires Unique(Held(pages)) && pages != []
    ensures Unique(Held(pages[..|pages| - 1]))
  {
    HeldSnoc(pages);
    var held, front := Held(pages), Held(pages[..|pages| - 1]);
    forall x
      ensures front[x] <= 1
    {
      assert front[x] <= held[x] <= 1;
    }
  }

  lemma FilterSnoc(front: seq<Page>, last: Page, keep: Page -> bool)
    ensures Filter(front + [last], keep) == if keep(last) then Filter(front, keep) + [last] else Filter(front, keep)
  {
    assert (front + [last])[..|front|] == front;
  }

  lemma LastTakenOut(front: seq<Page>, last: Page)
    requires forall k :: 0 <= k < |front| ==> front[k].ref != last.ref
    ensures Filter(front + [last], Apart([last.ref])) == front
  {
    FilterSnoc(front, last, Apart([last.ref]));
    FilterAll(front, Apart([last.ref]));
  }

  lemma WithoutSnoc(front: seq<Page>, last: Page, ref: string)
    ensures Without(front + [last], ref) == if last.ref == ref then front else Without(front, ref) + [last]
  {
    var pages := front + [last];
    assert pages[..|front|] == front;
    if last.ref != ref {
      var i := Find(front, ref);
      if i >= 0 {
        assert pages[..i] == front[..i] && pages[i + 1..] == front[i + 1..] + [last];
      }
    }
  }

  /** Where refs differ, taking one out keeps exactly the pages of other refs, in order. */
  lemma {:induction false} WithoutIs(pages: seq<Page>, ref: string)
    requires Unique(Held(pages))
    ensures Without(pages, ref) == Filter(pages, Apart([ref]))
  {
    if pages != [] {
      var n := |pages| - 1;
      var front, last := pages[..n], pages[n];
      assert pages == front + [last];
      WithoutSnoc(front, last, ref);
      if last.ref == ref {
        OthersApart(pages);
        LastTakenOut(front, last);
      } else {
        FrontUnique(pages);
        WithoutIs(front, ref);
        FilterSnoc(front, last, Apart([ref]));
      }
    }
  }

  lemma {:induction false} WithoutAllIs(pages: seq<Page>, refs: seq<string>)
    requires Unique(Held(pages))
    ensures WithoutAll(pages, refs) == Filter(pages, Apart(refs))
  {
    if refs == [] {
      FilterAll(pages, Apart(refs));
    } else {
      var front, last := refs[..|refs| - 1], refs[|refs| - 1];
      assert refs == front + [last];
      WithoutAllIs(pages, front);
      FilterHeld(pages, Apart(front));
      WithoutIs(Filter(pages, Apart(front)), last);
      FilterTwice(pages, Apart(front), Apart([last]), Apart(refs));
    }
  }

  lemma {:induction false} ExpiredAre(pages: seq<Page>, now: real)
    ensures ExpiredRefs(pages, now) == Refs(Filter(pages, Idle(now)))
  {
    if pages != [] {
      var front, last := pages[..|pages| - 1], pages[|pages| - 1];
      ExpiredAre(front, now);
      assert Refs(Filter(front, Idle(now)) + [last]) == Refs(Filter(front, Idle(now))) + [last.ref];
    }
  }

  /** A sweep keeps exactly the fresh pages, in order. */
  lemma SweptAre(pages: seq<Page>, now: real)
    requires Unique(Held(pages))
    ensures WithoutAll(pages, ExpiredRefs(pages, now)) == Filter(pages, Fresh(now))
  {
    var expired := ExpiredRefs(pages, now);
    WithoutAllIs(pages, expired);
    ExpiredAre(pages, now);
    forall p | p in pages
      ensures Apart(expired)(p) <==> Fresh(now)(p)
    {
      RefOfFiltered(pages, Idle(now), p);
    }
    FilterSame(pages, Apart(expired), Fresh(now));
  }

  lemma RefOfFiltered(pages: seq<Page>, keep: Page -> bool, p: Page)
    requires Unique(Held(pages)) && p in pages
    ensures p.ref in Refs(Filter(pages, keep)) <==> keep(p)
  {
    var kept := Filter(pages, keep);
    FilterMember(pages, keep, p);
    if p in kept {
      var i :| 0 <= i < |kept| && kept[i] == p;
      assert Refs(kept)[i] == p.ref;
    }
    if p.ref in Refs(kept) {
      var i :| 0 <= i < |kept| && Refs(kept)[i] == p.ref;
      FilterMember(pages, keep, kept[i]);
      var a :| 0 <= a < |pages| && pages[a] == p;
      var b :| 0 <= b < |pages| && pages[b] == kept[i];
      UniqueIndex(pages, a, b);
    }
  }

  // ----- one operation -----

  /** What a sweep leaves, and with a new page at the end. */
  function Fitting(pages: seq<Page>, now: real): seq<Page> {
    Filter(pages, Fresh(now))
  }

  /** What each operation does to the pages held and to the log of those closed. */
  ghost predicate Does(s: State, op: Op, max: nat, after: State) {
    match op
    case Register(ref, ttl, now) =>
      var kept := Fitting(s.pages, now) + [Page(ref, ttl, now)];
      && after.registered == s.registered + [ref]
      && after.pages == Filter(kept, Apart(Victims(kept, max)))
      && after.closed == s.closed + Refs(Filter(s.pages, Idle(now))) + Victims(kept, max)
    case Sweep(now) =>
      after == State(Fitting(s.pages, now), s.closed + Refs(Filter(s.pages, Idle(now))), s.registered)
    case Close(ref) =>
      after == State(Filter(s.pages, Apart([ref])), s.closed + (if ref in Refs(s.pages) then [ref] else []), s.registered)
    case CloseAll => after == State([], s.closed + Refs(s.pages), s.registered)
    case Get(ref, now) =>
      if exists p :: p in s.pages && p.ref == ref && Idle(now)(p) then
        after == State(Filter(s.pages, Apart([ref])), s.closed + [ref], s.registered)
      else
        && after.closed == s.closed && after.registered == s.registered && |after.pages| == |s.pages|
        && forall i :: 0 <= i < |s.pages| ==>
             after.pages[i] == if s.pages[i].ref == ref then s.pages[i].(last := now) else s.pages[i]
  }

  lemma AccountedUnique(s: State)
    requires Accounted(s)
    ensures Unique(Held(s.pages))
    ensures forall p :: p in s.pages ==> p.ref in s.registered
  {
    forall x
      ensures Held(s.pages)[x] <= 1
    {
      assert multiset(s.registered)[x] == Held(s.pages)[x] + multiset(s.closed)[x];
    }
    forall p | p in s.pages
      ensures p.ref in s.registered
    {
      var i :| 0 <= i < |s.pages| && s.pages[i] == p;
      assert Refs(s.pages)[i] == p.ref;
      assert p.ref in multiset(s.registered);
    }
  }

  /** The pages a new one is added to are still apart from it and each other. */
  lemma AddedUnique(pages: seq<Page>, added: Page)
    requires Unique(Held(pages)) && forall p :: p in pages ==> p.ref != added.ref
    ensures Unique(Held(pages + [added]))
  {
    HeldConcat(pages, [added]);
    HeldSnoc([added]);
    HeldMember(pages, added.ref);
  }

  lemma FittingUnique(pages: seq<Page>, now: real, added: Page)
    requires Unique(Held(pages)) && forall p :: p in pages ==> p.ref != added.ref
    ensures Unique(Held(Fitting(pages, now) + [added]))
  {
    FilterHeld(pages, Fresh(now));
    forall p | p in Fitting(pages, now)
      ensures p.ref != added.ref
    {
      FilterMember(pages, Fresh(now), p);
    }
    AddedUnique(Fitting(pages, now), added);
  }

  lemma RegisterDoes(s: State, ref: string, ttl: int, now: real, max: nat)
    requires Accounted(s) && ref !in s.registered
    ensures Does(s, Register(ref, ttl, now), max, Next(s, Register(ref, ttl, now), max))
  {
    AccountedUnique(s);
    SweptAre(s.pages, now);
    ExpiredAre(s.pages, now);
    var kept := Fitting(s.pages, now) + [Page(ref, ttl, now)];
    FittingUnique(s.pages, now, Page(ref, ttl, now));
    WithoutAllIs(kept, Victims(kept, max));
  }

  lemma GetDoes(s: State, ref: string, now: real, max: nat)
    requires Accounted(s)
    ensures Does(s, BrowserPages.Get(ref, now), max, Next(s, BrowserPages.Get(ref, now), max))
  {
    AccountedUnique(s);
    var i := Find(s.pages, ref);
    WithoutIs(s.pages, ref);
    assert WithoutAll(s.pages, [ref]) == Without(s.pages, ref);
    forall k | 0 <= k < |s.pages| && s.pages[k].ref == ref
      ensures k == i
    {
      UniqueIndex(s.pages, k, i);
    }
  }

  lemma CloseDoes(s: State, ref: string, max: nat)
    requires Accounted(s)
    ensures Does(s, Close(ref), max, Next(s, Close(ref), max))
  {
    AccountedUnique(s);
    WithoutIs(s.pages, ref);
    assert WithoutAll(s.pages, [ref]) == Without(s.pages, ref);
    HeldMember(s.pages, ref);
  }

  lemma SweepDoes(s: State, now: real, max: nat)
    requires Accounted(s)
    ensures Does(s, Sweep(now), max, Next(s, Sweep(now), max))
  {
    AccountedUnique(s);
    SweptAre(s.pages, now);
    ExpiredAre(s.pages, now);
  }

  lemma NextDoes(s: State, op: Op, max: nat)
    requires Accounted(s) && (op.Register? ==> op.ref !in s.registered)
    ensures Does(s, op, max, Next(s, op, max))
  {
    match op
    case Register(ref, ttl, now) => RegisterDoes(s, ref, ttl, now, max);
    case Get(ref, now) => GetDoes(s, ref, now, max);
    case Close(ref) => CloseDoes(s, ref, max);
    case Sweep(now) => SweepDoes(s, now, max);
    case CloseAll =>
  }

  // ----- what is held, told by the operations -----

  /** When a page was last registered or asked for. */
  function LastUse(ops: seq<Op>, ref: string): Option<real> {
    if ops == [] then None
    else
      match ops[|ops| - 1]
      case Register(r, _, now) => if r == ref then Some(now) else LastUse(ops[..|ops| - 1], ref)
      case Get(r, now) => if r == ref then Some(now) else LastUse(ops[..|ops| - 1], ref)
      case _ => LastUse(ops[..|ops| - 1], ref)
  }

  /** The time to live a page was registered with. */
  function TtlOf(ops: seq<Op>, ref: string): Option<int> {
    if ops == [] then None
    else
      var last := ops[|ops| - 1];
      if last.Register? && last.ref == ref then Some(last.ttl) else TtlOf(ops[..|ops| - 1], ref)
  }

  ghost predicate Told(ops: seq<Op>, p: Page) {
    LastUse(ops, p.ref) == Some(p.last) && TtlOf(ops, p.ref) == Some(p.ttl)
  }

  ghost predicate AllTold(ops: seq<Op>, pages: seq<Page>) {
    forall p :: p in pages ==> Told(ops, p)
  }

  /** The page has not been used for longer than its time to live. */
  predicate Lapsed(ops: seq<Op>, ref: string, now: real) {
    var ttl, last := TtlOf(ops, ref), LastUse(ops, ref);
    ttl.Some? && last.Some? && ttl.value > 0 && now > last.value + ttl.value as real
  }

  /** Of these pages, fewer come before this one than are too many. */
  ghost predicate CrowdedOut(pages: seq<Page>, ref: string, max: nat) {
    exists i :: 0 <= i < |pages| && pages[i].ref == ref && Rank(pages, |pages|, i) + max < |pages|
  }

  /** What ends a page: closing it, a look at it or a sweep after it has lapsed, and being crowded out. */
  ghost predicate Ends(ops: seq<Op>, op: Op, ref: string, max: nat) {
    match op
    case Close(r) => r == ref
    case CloseAll => true
    case Get(r, now) => r == ref && Lapsed(ops, ref, now)
    case Sweep(now) => Lapsed(ops, ref, now)
    case Register(r, ttl, now) =>
      Lapsed(ops, ref, now) || CrowdedOut(Fitting(Run(ops, max).pages, now) + [Page(r, ttl, now)], ref, max)
  }

  lemma RefKept(pages: seq<Page>, keep: Page -> bool, ref: string)
    ensures ref in Refs(Filter(pages, keep)) <==> exists p :: p in pages && p.ref == ref && keep(p)
  {
    var kept := Filter(pages, keep);
    if ref in Refs(kept) {
      var i :| 0 <= i < |kept| && Refs(kept)[i] == ref;
      FilterMember(pages, keep, kept[i]);
    }
    forall p | p in pages && p.ref == ref && keep(p)
      ensures ref in Refs(kept)
    {
      FilterMember(pages, keep, p);
      var i :| 0 <= i < |kept| && kept[i] == p;
      assert Refs(kept)[i] == ref;
    }
  }

  lemma RefHeld(pages: seq<Page>, ref: string)
    ensures ref in Refs(pages) <==> exists p :: p in pages && p.ref == ref
  {
    FilterAll(pages, (p: Page) => true);
    RefKept(pages, (p: Page) => true, ref);
  }

  /** A held page is idle exactly if it has lapsed. */
  lemma IdleIsLapsed(ops: seq<Op>, pages: seq<Page>, p: Page, now: real)
    requires AllTold(ops, pages) && p in pages
    ensures Idle(now)(p) <==> Lapsed(ops, p.ref, now)
    ensures Fresh(now)(p) <==> !Lapsed(ops, p.ref, now)
  {
    assert Told(ops, p);
  }

  lemma UnusedIsTold(ops: seq<Op>, op: Op, p: Page)
    requires Told(ops, p) && (op.Register? || op.Get? ==> op.ref != p.ref)
    ensures Told(ops + [op], p)
  {
    assert (ops + [op])[..|ops|] == ops;
  }

  lemma UseIsTold(ops: seq<Op>, op: Op, p: Page)
    requires (op.Get? && op.ref == p.ref && op.now == p.last && TtlOf(ops, p.ref) == Some(p.ttl)) || op == Register(p.ref, p.ttl, p.last)
    ensures Told(ops + [op], p)
  {
    assert (ops + [op])[..|ops|] == ops;
  }

  lemma StepTold(ops: seq<Op>, s: State, op: Op, max: nat, after: State)
    requires Accounted(s) && AllTold(ops, s.pages) && Does(s, op, max, after)
    requires op.Register? ==> op.ref !in s.registered
    ensures AllTold(ops + [op], after.pages)
  {
    AccountedUnique(s);
    forall p | p in after.pages
      ensures Told(ops + [op], p)
    {
      match op
      case Register(ref, ttl, now) =>
        var kept := Fitting(s.pages, now) + [Page(ref, ttl, now)];
        FilterMember(kept, Apart(Victims(kept, max)), p);
        if p == Page(ref, ttl, now) {
          UseIsTold(ops, op, p);
        } else {
          FilterMember(s.pages, Fresh(now), p);
          UnusedIsTold(ops, op, p);
        }
      case Get(ref, now) => GetTold(ops, s, ref, now, max, after, p);
      case Close(ref) =>
        FilterMember(s.pages, Apart([ref]), p);
        UnusedIsTold(ops, op, p);
      case Sweep(now) =>
        FilterMember(s.pages, Fresh(now), p);
        UnusedIsTold(ops, op, p);
      case CloseAll =>
    }
  }

  lemma GetTold(ops: seq<Op>, s: State, ref: string, now: real, max: nat, after: State, p: Page)
    requires AllTold(ops, s.pages) && Does(s, BrowserPages.Get(ref, now), max, after) && p in after.pages
    ensures Told(ops + [BrowserPages.Get(ref, now)], p)
  {
    var op := BrowserPages.Get(ref, now);
    if exists q :: q in s.pages && q.ref == ref && Idle(now)(q) {
      FilterMember(s.pages, Apart([ref]), p);
      UnusedIsTold(ops, op, p);
    } else {
      var i :| 0 <= i < |s.pages| && p == after.pages[i];
      assert Told(ops, s.pages[i]);
      if s.pages[i].ref == ref {
        UseIsTold(ops, op, p);
      } else {
        UnusedIsTold(ops, op, p);
      }
    }
  }

  lemma FreshFront(ops: seq<Op>, op: Op, max: nat)
    requires FreshRefs(ops + [op], max)
    ensures FreshRefs(ops, max) && (op.Register? ==> op.ref !in Run(ops, max).registered)
    ensures Run(ops + [op], max) == Next(Run(ops, max), op, max)
  {
    assert (ops + [op])[..|ops|] == ops;
  }

  /** Over any run a held page was last used, and is to live, as the operations say. */
  lemma {:induction false} RunTold(ops: seq<Op>, max: nat)
    requires FreshRefs(ops, max)
    ensures AllTold(ops, Run(ops, max).pages)
  {
    if ops != [] {
      var front, op := ops[..|ops| - 1], ops[|ops| - 1];
      assert ops == front + [op];
      FreshFront(front, op, max);
      RunTold(front, max);
      RunAccounted(front, max);
      var s := Run(front, max);
      NextDoes(s, op, max);
      StepTold(front, s, op, max, Next(s, op, max));
    }
  }

  /**
    An operation keeps exactly the pages it does not end, and that with the one it registers
    is all that is held after it.
   */
  lemma HeldExactly(ops: seq<Op>, op: Op, ref: string, max: nat)
    requires FreshRefs(ops + [op], max)
    ensures ref in Refs(Run(ops + [op], max).pages) <==>
      (ref in Refs(Run(ops, max).pages) || (op.Register? && op.ref == ref)) && !Ends(ops, op, ref, max)
  {
    FreshFront(ops, op, max);
    RunTold(ops, max);
    RunAccounted(ops, max);
    var s := Run(ops, max);
    NextDoes(s, op, max);
    AccountedUnique(s);
    match op
    case Register(r, ttl, now) => RegisterEnds(ops, s, r, ttl, now, ref, max, Next(s, op, max));
    case Get(r, now) => GetEnds(ops, s, r, now, ref, max, Next(s, op, max));
    case Close(r) =>
      RefKept(s.pages, Apart([r]), ref);
      RefHeld(s.pages, ref);
    case Sweep(now) => FittingHeld(ops, s.pages, now, ref);
    case CloseAll =>
  }

  lemma FittingHeld(ops: seq<Op>, pages: seq<Page>, now: real, ref: string)
    requires AllTold(ops, pages)
    ensures ref in Refs(Fitting(pages, now)) <==> ref in Refs(pages) && !Lapsed(ops, ref, now)
  {
    RefKept(pages, Fresh(now), ref);
    RefHeld(pages, ref);
    forall p | p in pages && p.ref == ref
      ensures Fresh(now)(p) <==> !Lapsed(ops, ref, now)
    {
      IdleIsLapsed(ops, pages, p, now);
    }
  }

  lemma GetEnds(ops: seq<Op>, s: State, r: string, now: real, ref: string, max: nat, after: State)
    requires AllTold(ops, s.pages) && Does(s, BrowserPages.Get(r, now), max, after)
    ensures ref in Refs(after.pages) <==> ref in Refs(s.pages) && !(r == ref && Lapsed(ops, ref, now))
  {
    RefKept(s.pages, Apart([r]), ref);
    RefHeld(s.pages, ref);
    if p :| p in s.pages && p.ref == r && Idle(now)(p) {
      IdleIsLapsed(ops, s.pages, p, now);
    } else {
      assert Refs(after.pages) == Refs(s.pages);
      forall p | p in s.pages && p.ref == r
        ensures !Lapsed(ops, r, now)
      {
        IdleIsLapsed(ops, s.pages, p, now);
      }
    }
  }

  lemma RegisterEnds(ops: seq<Op>, s: State, r: string, ttl: int, now: real, ref: string, max: nat, after: State)
    requires s == Run(ops, max) && AllTold(ops, s.pages) && Accounted(s) && r !in s.registered
    requires Does(s, Register(r, ttl, now), max, after)
    ensures ref in Refs(after.pages) <==>
      (ref in Refs(s.pages) || r == ref) && !Ends(ops, Register(r, ttl, now), ref, max)
  {
    AccountedUnique(s);
    FittingUnique(s.pages, now, Page(r, ttl, now));
    FittingHeld(ops, s.pages, now, ref);
    var kept := Fitting(s.pages, now) + [Page(r, ttl, now)];
    Survives(kept, ref, max);
    assert Refs(kept) == Refs(Fitting(s.pages, now)) + [r];
    NeverUsed(ops, max, r, now);
  }

  /** Of the pages kept those stay that are not crowded out. */
  lemma Survives(kept: seq<Page>, ref: string, max: nat)
    requires Unique(Held(kept))
    ensures ref in Refs(Filter(kept, Apart(Victims(kept, max)))) <==> ref in Refs(kept) && !CrowdedOut(kept, ref, max)
  {
    RefKept(kept, Apart(Victims(kept, max)), ref);
    RefHeld(kept, ref);
    forall i | 0 <= i < |kept| && kept[i].ref == ref
      ensures ref in Victims(kept, max) <==> Rank(kept, |kept|, i) + max < |kept|
    {
      VictimsExactly(kept, max, i);
    }
  }

  lemma NeverUsed(ops: seq<Op>, max: nat, ref: string, now: real)
    requires ref !in Run(ops, max).registered
    ensures !Lapsed(ops, ref, now)
  {
    NeverRegistered(ops, max, ref);
  }

  lemma {:induction false} NeverRegistered(ops: seq<Op>, max: nat, ref: string)
    requires ref !in Run(ops, max).registered
    ensures TtlOf(ops, ref).None?
  {
    if ops != [] {
      NeverRegistered(ops[..|ops| - 1], max, ref);
    }
  }
}
