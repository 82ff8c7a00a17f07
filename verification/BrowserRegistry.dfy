/** The registry of open browser pages, with handles that it updates in place. */
module BrowserRegistry {
  import opened Wrappers
  import opened BrowserPages

  class Handle {
    const pageRef: string
    const ttlS: int
    var lastAccessedAt: real

    constructor (pageRef: string, ttlS: int, now: real)
      ensures this.pageRef == pageRef && this.ttlS == ttlS && lastAccessedAt == now
    {
      this.pageRef, this.ttlS, lastAccessedAt := pageRef, ttlS, now;
    }

    function Value(): Page
      reads this
    {
      Page(pageRef, ttlS, lastAccessedAt)
    }
  }

  /** The handles are, position by position, the given pages. */
  ghost predicate Mirrors(handles: seq<Handle>, pages: seq<Page>)
    reads handles
  {
    |handles| == |pages| && forall i :: 0 <= i < |handles| ==> handles[i].Value() == pages[i]
  }

  /** The position of a handle by its ref, or -1. */
  function Position(handles: seq<Handle>, ref: string): (i: int)
    ensures -1 <= i < |handles|
  {
    if handles == [] then -1
    else if handles[|handles| - 1].pageRef == ref then |handles| - 1
    else Position(handles[..|handles| - 1], ref)
  }

  lemma {:induction false} PositionIsFind(handles: seq<Handle>, pages: seq<Page>, ref: string)
    requires |handles| == |pages| && forall i :: 0 <= i < |handles| ==> handles[i].pageRef == pages[i].ref
    ensures Position(handles, ref) == Find(pages, ref)
  {
    if handles != [] && handles[|handles| - 1].pageRef != ref {
      PositionIsFind(handles[..|handles| - 1], pages[..|pages| - 1], ref);
    }
  }

  class BrowserPageRegistry {
    const maxOpenPages: nat
    const defaultTtlS: int
    /** The values of the dictionary, in the order the pages were registered. */
    var handles: seq<Handle>
    /** The pages the handles stand for, with the log of closed pages and of all pages ever registered. */
    ghost var state: State

    ghost predicate Synced()
      reads this, handles
    {
      Mirrors(handles, state.pages)
    }

    ghost predicate Valid()
      reads this, handles
    {
      Synced() && maxOpenPages >= 1 && Accounted(state) && |handles| <= maxOpenPages
    }

    constructor (maxOpenPages: int, defaultTtlS: int)
      ensures Valid() && state == State([], [], []) && this.defaultTtlS == defaultTtlS
      ensures this.maxOpenPages == if maxOpenPages > 1 then maxOpenPages else 1
    {
      this.maxOpenPages := if maxOpenPages > 1 then maxOpenPages else 1;
      this.defaultTtlS := defaultTtlS;
      handles, state := [], State([], [], []);
    }

    /** Closes page and context, whatever errors that meets. */
    method CloseHandle(h: Handle)
      modifies this`state
      ensures state == old(state).(closed := old(state).closed + [h.pageRef])
    {
      state := state.(closed := state.closed + [h.pageRef]);
    }

    method PopAndClose(ref: string)
      requires Synced() && Find(state.pages, ref) >= 0
      modifies this
      ensures Synced() && state == Drop(old(state), [ref])
      ensures forall h :: h in handles ==> h in old(handles)
    {
      PositionIsFind(handles, state.pages, ref);
      var i := Position(handles, ref);
      var h := handles[i];
      DropOne(state, ref);
      assert Without(state.pages, ref) == state.pages[..i] + state.pages[i + 1..];
      MirrorsRest(handles, state.pages, i);
      handles := handles[..i] + handles[i + 1..];
      state := state.(pages := Without(state.pages, ref));
      CloseHandle(h);
    }

    /** Pops and closes held pages one by one. */
    method PopAndCloseAll(refs: seq<string>)
      requires Synced() && multiset(refs) <= Held(state.pages)
      modifies this
      ensures Synced() && state == Drop(old(state), refs)
      ensures forall h :: h in handles ==> h in old(handles)
    {
      ghost var s := state;
      DropNone(s);
      for k := 0 to |refs|
        invariant Synced() && state == Drop(s, refs[..k])
        invariant forall h :: h in handles ==> h in old(handles)
      {
        NextIsHeld(s.pages, refs, k);
        PopAndClose(refs[k]);
        DropNext(s, refs, k);
      }
      assert refs[..|refs|] == refs;
    }

    method Sweep(now: real) returns (n: nat)
      requires Synced()
      modifies this
      ensures Synced() && state == Drop(old(state), ExpiredRefs(old(state).pages, now))
      ensures n == |ExpiredRefs(old(state).pages, now)|
      ensures forall h :: h in handles ==> h in old(handles)
    {
      var expired: seq<string> := [];
      for k := 0 to |handles|
        invariant expired == ExpiredRefs(state.pages[..k], now)
      {
        assert state.pages[..k + 1][..k] == state.pages[..k];
        if Expired(handles[k].Value(), now) {
          expired := expired + [handles[k].pageRef];
        }
      }
      assert state.pages[..|handles|] == state.pages;
      ExpiredAreHeld(state.pages, now);
      PopAndCloseAll(expired);
      n := |expired|;
    }

    method EvictIfNeeded()
      requires Synced()
      modifies this
      ensures Synced() && state == Drop(old(state), Victims(old(state).pages, maxOpenPages))
    {
      var overflow := |handles| - maxOpenPages;
      if overflow <= 0 {
        DropNone(state);
        return;
      }
      var pages := seq(|handles|, i requires 0 <= i < |handles| reads this, handles => handles[i].Value());
      assert pages == state.pages;
      SortedLength(pages);
      var refs := Refs(Sorted(pages)[..overflow]);
      assert refs == Victims(pages, maxOpenPages);
      VictimsAreHeld(pages, maxOpenPages);
      PopAndCloseAll(refs);
    }

    /** Sweeps, adds the page and evicts what no longer fits. */
    method Register(ref: string, ttlS: Option<int>, now: real) returns (h: Handle)
      requires Valid() && ref !in state.registered
      modifies this
      ensures Valid() && fresh(h)
      ensures state == Next(old(state), Op.Register(ref, if ttlS.None? then defaultTtlS else ttlS.value, now), maxOpenPages)
    {
      var ttl := if ttlS.None? then defaultTtlS else ttlS.value;
      ghost var s := state;
      var n := Sweep(now);
      h := new Handle(ref, ttl, now);
      handles := handles + [h];
      state := state.(pages := state.pages + [Page(ref, ttl, now)], registered := state.registered + [ref]);
      EvictIfNeeded();
      assert Accounted(state) && |state.pages| <= maxOpenPages by {
        assert state == Next(s, Op.Register(ref, ttl, now), maxOpenPages);
        RegisterKeeps(s, ref, ttl, now, maxOpenPages);
      }
    }

    /** Hands out a page unless it is unknown or has expired; an expired page is closed on the way. */
    method Get(ref: string, now: real) returns (h: Handle?)
      requires Valid()
      modifies this, handles
      ensures Valid() && state == Next(old(state), Op.Get(ref, now), maxOpenPages)
      ensures h != null <==> var i := Find(old(state).pages, ref); i >= 0 && !Expired(old(state).pages[i], now)
      ensures h != null ==> h in handles && h.pageRef == ref && h.lastAccessedAt == now
    {
      OpKeeps(state, Op.Get(ref, now), maxOpenPages);
      PositionIsFind(handles, state.pages, ref);
      var i := Position(handles, ref);
      if i < 0 {
        return null;
      }
      if Expired(handles[i].Value(), now) {
        PopAndClose(ref);
        return null;
      }
      DifferentRefs(state, i);
      h := handles[i];
      h.lastAccessedAt := now;
      state := state.(pages := Touch(state.pages, i, now));
    }

    method Close(ref: string) returns (found: bool)
      requires Valid()
      modifies this
      ensures Valid() && state == Next(old(state), Op.Close(ref), maxOpenPages)
      ensures found <==> Find(old(state).pages, ref) >= 0
    {
      OpKeeps(state, Op.Close(ref), maxOpenPages);
      PositionIsFind(handles, state.pages, ref);
      found := Position(handles, ref) >= 0;
      if found {
        PopAndClose(ref);
      }
    }

    method SweepExpired(now: real) returns (n: nat)
      requires Valid()
      modifies this
      ensures Valid() && state == Next(old(state), Op.Sweep(now), maxOpenPages)
      ensures n == |ExpiredRefs(old(state).pages, now)|
    {
      OpKeeps(state, Op.Sweep(now), maxOpenPages);
      n := Sweep(now);
    }

    method CloseAll()
      requires Valid()
      modifies this
      ensures Valid() && state == Next(old(state), Op.CloseAll, maxOpenPages)
    {
      ghost var s := state;
      var all := handles;
      handles, state := [], s.(pages := []);
      CloseEach(all, s.pages);
      assert Accounted(state) by {
        assert state == Next(s, Op.CloseAll, maxOpenPages);
        OpKeeps(s, Op.CloseAll, maxOpenPages);
      }
    }

    method CloseEach(all: seq<Handle>, ghost pages: seq<Page>)
      requires Mirrors(all, pages)
      modifies this`state
      ensures state == old(state).(closed := old(state).closed + Refs(pages))
    {
      for k := 0 to |all|
        invariant state == old(state).(closed := old(state).closed + Refs(pages)[..k])
      {
        CloseHandle(all[k]);
      }
    }
  }

  lemma MirrorsRest(handles: seq<Handle>, pages: seq<Page>, i: nat)
    requires Mirrors(handles, pages) && i < |pages|
    ensures Mirrors(handles[..i] + handles[i + 1..], pages[..i] + pages[i + 1..])
  {
  }

  lemma DropOne(s: State, ref: string)
    ensures Drop(s, [ref]) == State(Without(s.pages, ref), s.closed + [ref], s.registered)
  {
    var one := [ref];
    assert one[..|one| - 1] == [];
    assert WithoutAll(s.pages, one) == Without(WithoutAll(s.pages, one[..|one| - 1]), ref);
  }

  lemma DropNone(s: State)
    ensures Drop(s, []) == s
  {
  }

  lemma DropNext(s: State, refs: seq<string>, k: nat)
    requires k < |refs|
    ensures Drop(Drop(s, refs[..k]), [refs[k]]) == Drop(s, refs[..k + 1])
  {
    DropOne(Drop(s, refs[..k]), refs[k]);
    assert refs[..k + 1] == refs[..k] + [refs[k]];
    assert refs[..k + 1][..k] == refs[..k];
  }

  /** The next of the pages to be popped has not been popped yet. */
  lemma NextIsHeld(pages: seq<Page>, refs: seq<string>, k: nat)
    requires k < |refs| && multiset(refs) <= Held(pages)
    ensures Find(WithoutAll(pages, refs[..k]), refs[k]) >= 0
  {
    assert refs == refs[..k] + [refs[k]] + refs[k + 1..];
    WithoutMany(pages, refs[..k]);
    HeldMember(WithoutAll(pages, refs[..k]), refs[k]);
  }

  lemma DifferentRefs(s: State, i: nat)
    requires Accounted(s) && i < |s.pages|
    ensures forall j :: 0 <= j < |s.pages| && j != i ==> s.pages[j].ref != s.pages[i].ref
  {
    var refs := Refs(s.pages);
    assert forall x :: multiset(refs)[x] <= multiset(s.registered)[x];
    forall j | 0 <= j < |s.pages| && j != i
      ensures s.pages[j].ref != s.pages[i].ref
    {
      if refs[j] == refs[i] {
        TwiceIn(refs, if i < j then i else j, if i < j then j else i);
      }
    }
  }
}
