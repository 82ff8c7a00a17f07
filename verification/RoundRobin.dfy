/**
  Smooth weighted round robin, on plain numbers.

  One turn raises the running weight of every live entry by its own weight, picks the
  first entry whose raised weight is largest, and takes the sum of all base weights off
  the picked entry.  The fairness results below are about every run of such turns.
 */
module RoundRobin {

  function Sum(s: seq<int>): int {
    if s == [] then 0 else Sum(s[..|s| - 1]) + s[|s| - 1]
  }

  /** The running weights after every live entry has been raised by its weight. */
  function Raised(c: seq<int>, weights: seq<int>, live: seq<bool>): (e: seq<int>)
    requires |c| == |weights| == |live|
  {
    seq(|c|, i requires 0 <= i < |c| => if live[i] then c[i] + weights[i] else c[i])
  }

  /** `b` is the first live position whose value no other live position exceeds. */
  ghost predicate FirstMax(e: seq<int>, live: seq<bool>, b: nat)
    requires |e| == |live|
  {
    && b < |e| && live[b]
    && (forall j :: 0 <= j < |e| && live[j] ==> e[j] <= e[b])
    && (forall j :: 0 <= j < b && live[j] ==> e[j] < e[b])
  }

  /** One scheduling turn: `b` is picked and the running weights go from `c` to `d`. */
  ghost predicate Turn(base: seq<int>, weights: seq<int>, live: seq<bool>, c: seq<int>, b: nat, d: seq<int>) {
    && |base| == |weights| == |live| == |c| == |d|
    && var e := Raised(c, weights, live);
    && FirstMax(e, live, b)
    && d == e[b := e[b] - Sum(base)]
  }

  function AllLive(n: nat): seq<bool> {
    seq(n, _ => true)
  }

  /** A run in which every entry is live and is raised by its base weight. */
  ghost predicate Run(base: seq<int>, cs: seq<seq<int>>, picks: seq<nat>) {
    && |cs| == |picks| + 1
    && forall t :: 0 <= t < |picks| ==> TurnAt(base, cs, picks, t)
  }

  ghost predicate TurnAt(base: seq<int>, cs: seq<seq<int>>, picks: seq<nat>, t: nat)
    requires t < |picks| && |cs| == |picks| + 1
  {
    Turn(base, base, AllLive(|base|), cs[t], picks[t], cs[t + 1])
  }

  /** How often `i` was picked. */
  function Count(picks: seq<nat>, i: nat): nat {
    if picks == [] then 0
    else Count(picks[..|picks| - 1], i) + (if picks[|picks| - 1] == i then 1 else 0)
  }

  ghost predicate Weights(base: seq<int>) {
    (forall i :: 0 <= i < |base| ==> base[i] >= 0) && Sum(base) > 0
  }

  // ----- sums -----

  lemma {:induction false} SumUpdate(s: seq<int>, k: nat, v: int)
    requires k < |s|
    ensures Sum(s[k := v]) == Sum(s) - s[k] + v
  {
    var n := |s| - 1;
    if k == n {
      assert s[k := v][..n] == s[..n];
    } else {
      assert s[k := v][..n] == s[..n][k := v];
      SumUpdate(s[..n], k, v);
    }
  }

  lemma {:induction false} SumBounds(s: seq<int>, t: seq<int>)
    requires |s| == |t| && forall i :: 0 <= i < |s| ==> s[i] <= t[i]
    ensures Sum(s) <= Sum(t)
    ensures Sum(s) == Sum(t) ==> s == t
  {
    if s != [] {
      var n := |s| - 1;
      SumBounds(s[..n], t[..n]);
      if Sum(s) == Sum(t) {
        assert s == s[..n] + [s[n]];
        assert t == t[..n] + [t[n]];
      }
    }
  }

  lemma {:induction false} SumNonNegative(s: seq<int>, i: nat)
    requires i < |s| && forall j :: 0 <= j < |s| ==> s[j] >= 0
    ensures 0 <= s[i] <= Sum(s)
  {
    var n := |s| - 1;
    var zeros := seq(n, _ => 0);
    SumZeros(n);
    SumBounds(zeros, s[..n]);
    if i < n {
      SumNonNegative(s[..n], i);
    }
  }

  lemma {:induction false} SumZeros(n: nat)
    ensures Sum(seq(n, _ => 0)) == 0
  {
    if n > 0 {
      assert seq(n, _ => 0)[..n - 1] == seq(n - 1, _ => 0);
      SumZeros(n - 1);
    }
  }

  lemma {:induction false} SomePositive(s: seq<int>) returns (k: nat)
    requires Sum(s) > 0
    ensures k < |s| && s[k] > 0
  {
    var n := |s| - 1;
    if s[n] > 0 {
      k := n;
    } else {
      k := SomePositive(s[..n]);
    }
  }

  /** The sum of the weights of the live entries. */
  function LiveSum(weights: seq<int>, live: seq<bool>): int
    requires |weights| == |live|
  {
    Sum(seq(|weights|, i requires 0 <= i < |weights| => if live[i] then weights[i] else 0))
  }

  lemma {:induction false} SumRaised(c: seq<int>, weights: seq<int>, live: seq<bool>)
    requires |c| == |weights| == |live|
    ensures Sum(Raised(c, weights, live)) == Sum(c) + LiveSum(weights, live)
  {
    if c != [] {
      var n := |c| - 1;
      var w := seq(|weights|, i requires 0 <= i < |weights| => if live[i] then weights[i] else 0);
      var w' := seq(n, i requires 0 <= i < n => if live[..n][i] then weights[..n][i] else 0);
      SumRaised(c[..n], weights[..n], live[..n]);
      assert Raised(c, weights, live)[..n] == Raised(c[..n], weights[..n], live[..n]);
      assert w[..n] == w';
    }
  }

  // ----- one turn -----

  /** What one turn does to the total: it is kept exactly when the live weights add up to the base weights. */
  lemma {:induction false} TurnDrift(base: seq<int>, weights: seq<int>, live: seq<bool>, c: seq<int>, b: nat, d: seq<int>)
    requires Turn(base, weights, live, c, b, d)
    ensures Sum(d) == Sum(c) + LiveSum(weights, live) - Sum(base)
    ensures Sum(d) == Sum(c) <==> LiveSum(weights, live) == Sum(base)
  {
    var e := Raised(c, weights, live);
    SumRaised(c, weights, live);
    SumUpdate(e, b, e[b] - Sum(base));
  }

  lemma AllLiveSum(base: seq<int>)
    ensures LiveSum(base, AllLive(|base|)) == Sum(base)
  {
    var live := AllLive(|base|);
    assert seq(|base|, i requires 0 <= i < |base| => if live[i] then base[i] else 0) == base;
  }

  lemma TurnKeepsSum(base: seq<int>, c: seq<int>, b: nat, d: seq<int>)
    requires Turn(base, base, AllLive(|base|), c, b, d)
    ensures Sum(d) == Sum(c)
  {
    TurnDrift(base, base, AllLive(|base|), c, b, d);
    AllLiveSum(base);
  }

  /** The picked entry had a positive raised weight, and no entry had a larger one. */
  lemma {:induction false} PickedIsLargest(base: seq<int>, c: seq<int>, b: nat, d: seq<int>)
    requires Turn(base, base, AllLive(|base|), c, b, d)
    requires Sum(base) > 0 && Sum(c) == Sum(base)
    ensures c[b] + base[b] > 0
    ensures forall j :: 0 <= j < |c| ==> c[j] + base[j] <= c[b] + base[b]
  {
    var live := AllLive(|base|);
    var e := Raised(c, base, live);
    SumRaised(c, base, live);
    AllLiveSum(base);
    var k := SomePositive(e);
    assert live[k] && e[k] <= e[b];
    forall j | 0 <= j < |c|
      ensures c[j] + base[j] <= c[b] + base[b]
    {
      assert live[j] && e[j] <= e[b];
    }
  }

  lemma TurnIsDeterministic(base: seq<int>, c: seq<int>, b: nat, d: seq<int>, b': nat, d': seq<int>)
    requires Turn(base, base, AllLive(|base|), c, b, d)
    requires Turn(base, base, AllLive(|base|), c, b', d')
    ensures b == b' && d == d'
  {
    assert AllLive(|base|)[b] && AllLive(|base|)[b'];
  }

  // ----- whole runs -----

  lemma RunPrefix(base: seq<int>, cs: seq<seq<int>>, picks: seq<nat>)
    requires Run(base, cs, picks) && picks != []
    ensures Run(base, cs[..|picks|], picks[..|picks| - 1])
    ensures TurnAt(base, cs, picks, |picks| - 1)
  {
    var cs', picks' := cs[..|picks|], picks[..|picks| - 1];
    forall t | 0 <= t < |picks'|
      ensures TurnAt(base, cs', picks', t)
    {
      assert TurnAt(base, cs, picks, t);
    }
  }

  lemma RunTo(base: seq<int>, cs: seq<seq<int>>, picks: seq<nat>, n: nat)
    requires Run(base, cs, picks) && n <= |picks|
    ensures Run(base, cs[..n + 1], picks[..n])
  {
    var cs', picks' := cs[..n + 1], picks[..n];
    forall t | 0 <= t < n
      ensures TurnAt(base, cs', picks', t)
    {
      assert TurnAt(base, cs, picks, t);
    }
  }

  /** Every running weight is its share of the turns minus what its picks have cost. */
  lemma {:induction false} ClosedForm(base: seq<int>, cs: seq<seq<int>>, picks: seq<nat>, i: nat)
    requires Run(base, cs, picks) && cs[0] == base && i < |base|
    ensures |cs[|picks|]| == |base|
    ensures cs[|picks|][i] == (|picks| + 1) * base[i] - Sum(base) * Count(picks, i)
  {
    var n := |picks|;
    if n > 0 {
      RunPrefix(base, cs, picks);
      ClosedForm(base, cs[..n], picks[..n - 1], i);
      var before, after := Count(picks[..n - 1], i), Count(picks, i);
      assert (n + 1) * base[i] == n * base[i] + base[i];
      if picks[n - 1] == i {
        assert after == before + 1;
        assert Sum(base) * (before + 1) == Sum(base) * before + Sum(base);
      }
    }
  }

  lemma {:induction false} ClosedFormAt(base: seq<int>, cs: seq<seq<int>>, picks: seq<nat>, t: nat, i: nat)
    requires Run(base, cs, picks) && cs[0] == base && i < |base| && t <= |picks|
    ensures |cs[t]| == |base|
    ensures cs[t][i] == (t + 1) * base[i] - Sum(base) * Count(picks[..t], i)
  {
    RunTo(base, cs, picks, t);
    ClosedForm(base, cs[..t + 1], picks[..t], i);
  }

  /** The running weights always add up to the base weights. */
  lemma {:induction false} SumIsInvariant(base: seq<int>, cs: seq<seq<int>>, picks: seq<nat>)
    requires Run(base, cs, picks) && cs[0] == base
    ensures Sum(cs[|picks|]) == Sum(base)
  {
    var n := |picks|;
    if n > 0 {
      RunPrefix(base, cs, picks);
      SumIsInvariant(base, cs[..n], picks[..n - 1]);
      TurnKeepsSum(base, cs[n - 1], picks[n - 1], cs[n]);
    }
  }

  /** No running weight ever falls to minus the sum of the base weights. */
  lemma {:induction false} NeverStarved(base: seq<int>, cs: seq<seq<int>>, picks: seq<nat>)
    requires Run(base, cs, picks) && cs[0] == base && Weights(base)
    ensures |cs[|picks|]| == |base|
    ensures forall i :: 0 <= i < |base| ==> cs[|picks|][i] > -Sum(base)
  {
    var n := |picks|;
    if n > 0 {
      RunPrefix(base, cs, picks);
      NeverStarved(base, cs[..n], picks[..n - 1]);
      SumIsInvariant(base, cs[..n], picks[..n - 1]);
      PickedIsLargest(base, cs[n - 1], picks[n - 1], cs[n]);
    }
  }

  lemma {:induction false} CountsAddUp(picks: seq<nat>, n: nat)
    requires forall t :: 0 <= t < |picks| ==> picks[t] < n
    ensures Sum(seq(n, i requires 0 <= i < n => Count(picks, i))) == |picks|
  {
    var counts := seq(n, i requires 0 <= i < n => Count(picks, i));
    if picks == [] {
      assert counts == seq(n, _ => 0);
      SumZeros(n);
    } else {
      var m := |picks| - 1;
      var before := seq(n, i requires 0 <= i < n => Count(picks[..m], i));
      CountsAddUp(picks[..m], n);
      assert counts == before[picks[m] := before[picks[m]] + 1];
      SumUpdate(before, picks[m], before[picks[m]] + 1);
    }
  }

  lemma PicksInRange(base: seq<int>, cs: seq<seq<int>>, picks: seq<nat>)
    requires Run(base, cs, picks)
    ensures forall t :: 0 <= t < |picks| ==> picks[t] < |base|
  {
    forall t | 0 <= t < |picks|
      ensures picks[t] < |base|
    {
      assert TurnAt(base, cs, picks, t);
    }
  }

  lemma SpentEntryIsLow(base: seq<int>, cs: seq<seq<int>>, picks: seq<nat>, i: nat)
    requires Run(base, cs, picks) && cs[0] == base && Weights(base)
    requires |picks| < Sum(base) && i < |base| && Count(picks, i) == base[i]
    ensures |cs[|picks|]| == |base|
    ensures |picks| + 1 < Sum(base) ==> cs[|picks|][i] + base[i] <= 0
    ensures |picks| + 1 == Sum(base) ==> cs[|picks|][i] + base[i] == base[i]
  {
    ClosedForm(base, cs, picks, i);
    SpentEntry(|picks| + 1, Sum(base), base[i]);
  }

  lemma BehindEntryIsHigh(base: seq<int>, cs: seq<seq<int>>, picks: seq<nat>, i: nat)
    requires Run(base, cs, picks) && cs[0] == base && Weights(base)
    requires |picks| + 1 == Sum(base) && i < |base| && Count(picks, i) < base[i]
    ensures |cs[|picks|]| == |base|
    ensures cs[|picks|][i] + base[i] >= Sum(base) + base[i]
  {
    ClosedForm(base, cs, picks, i);
    BehindEntry(|picks|, Sum(base), base[i], Count(picks, i));
  }

  lemma SpentEntryIsNotLargest(base: seq<int>, cs: seq<seq<int>>, picks: seq<nat>, b: nat)
    requires Run(base, cs, picks) && cs[0] == base && Weights(base)
    requires |picks| < Sum(base) && b < |base| && Count(picks, b) == base[b]
    ensures |cs[|picks|]| == |base|
    ensures cs[|picks|][b] + base[b] > 0 ==>
      exists j :: 0 <= j < |base| && cs[|picks|][j] + base[j] > cs[|picks|][b] + base[b]
  {
    SpentEntryIsLow(base, cs, picks, b);
    if |picks| + 1 == Sum(base) {
      PicksInRange(base, cs, picks);
      var j := SomeoneBehind(base, picks);
      BehindEntryIsHigh(base, cs, picks, j);
      SumNonNegative(base, b);
      SumNonNegative(base, j);
      assert Count(picks, j) >= 0;
    }
  }

  /** An entry that has used up its quota is not picked again within the first T turns. */
  lemma QuotaIsKept(base: seq<int>, cs: seq<seq<int>>, picks: seq<nat>)
    requires Run(base, cs, picks) && cs[0] == base && Weights(base)
    requires 0 < |picks| <= Sum(base)
    requires forall i :: 0 <= i < |base| ==> Count(picks[..|picks| - 1], i) <= base[i]
    ensures picks[|picks| - 1] < |base|
    ensures Count(picks[..|picks| - 1], picks[|picks| - 1]) < base[picks[|picks| - 1]]
  {
    var n := |picks| - 1;
    var b, earlier, before := picks[n], cs[..n + 1], picks[..n];
    RunPrefix(base, cs, picks);
    SumIsInvariant(base, earlier, before);
    PickedIsLargest(base, cs[n], b, cs[n + 1]);
    if Count(before, b) == base[b] {
      SpentEntryIsNotLargest(base, earlier, before, b);
    }
  }

  lemma Distribute(a: int, b: int, c: int)
    ensures (a + b) * c == a * c + b * c
  {
  }

  lemma {:induction false} SpentEntry(m: int, total: int, w: nat)
    requires m <= total
    ensures m < total ==> m * w - total * w + w <= 0
    ensures m == total ==> m * w - total * w + w == w
  {
    if m < total {
      Distribute(m, total - m, w);
      ScaleUp(w, total - m);
      assert (total - m) * w == w * (total - m);
    }
  }

  lemma {:induction false} BehindEntry(n: nat, total: int, w: nat, k: nat)
    requires n + 1 == total && k < w
    ensures (n + 1) * w - total * k + w >= total + w
  {
    assert (n + 1) * w - total * k == total * (w - k);
    ScaleUp(total, w - k);
  }

  lemma ScaleUp(x: nat, y: int)
    requires y >= 1
    ensures x * y >= x
  {
  }

  lemma SomeoneBehind(base: seq<int>, picks: seq<nat>) returns (j: nat)
    requires |picks| < Sum(base)
    requires forall t :: 0 <= t < |picks| ==> picks[t] < |base|
    ensures j < |base| && Count(picks, j) < base[j]
  {
    var counts := seq(|base|, i requires 0 <= i < |base| => Count(picks, i));
    CountsAddUp(picks, |base|);
    if forall i :: 0 <= i < |base| ==> base[i] <= counts[i] {
      SumBounds(base, counts);
      assert false;
    }
    j :| 0 <= j < |base| && counts[j] < base[j];
  }

  lemma {:induction false} NoOverrun(base: seq<int>, cs: seq<seq<int>>, picks: seq<nat>)
    requires Run(base, cs, picks) && cs[0] == base && Weights(base)
    requires |picks| <= Sum(base)
    ensures forall i :: 0 <= i < |base| ==> Count(picks, i) <= base[i]
  {
    if picks != [] {
      RunPrefix(base, cs, picks);
      NoOverrun(base, cs[..|picks|], picks[..|picks| - 1]);
      QuotaIsKept(base, cs, picks);
    }
  }

  /** After T turns, T the sum of the base weights, every entry was picked exactly its
      base weight number of times and every running weight is back where it started. */
  lemma FairCycle(base: seq<int>, cs: seq<seq<int>>, picks: seq<nat>)
    requires Run(base, cs, picks) && cs[0] == base && Weights(base)
    requires |picks| == Sum(base)
    ensures forall i :: 0 <= i < |base| ==> Count(picks, i) == base[i]
    ensures cs[|picks|] == base
  {
    var n := |base|;
    var counts := seq(n, i requires 0 <= i < n => Count(picks, i));
    NoOverrun(base, cs, picks);
    PicksInRange(base, cs, picks);
    CountsAddUp(picks, n);
    SumBounds(counts, base);
    assert counts == base;
    NeverStarved(base, cs, picks);
    forall i | 0 <= i < n
      ensures Count(picks, i) == base[i] && cs[|picks|][i] == base[i]
    {
      ClosedForm(base, cs, picks, i);
      assert counts[i] == base[i];
      WholeCycle(Sum(base), base[i]);
    }
  }

  lemma WholeCycle(total: int, w: int)
    ensures (total + 1) * w - total * w == w
  {
  }

  lemma {:induction false} CountConcat(a: seq<nat>, b: seq<nat>, i: nat)
    ensures Count(a + b, i) == Count(a, i) + Count(b, i)
  {
    if b == [] {
      assert a + b == a;
    } else {
      var n := |b| - 1;
      assert (a + b)[..|a + b| - 1] == a + b[..n];
      CountConcat(a, b[..n], i);
    }
  }

  /** The schedule repeats itself: T turns later the running weights are the same. */
  lemma {:induction false} Periodic(base: seq<int>, cs: seq<seq<int>>, picks: seq<nat>, s: nat)
    requires Run(base, cs, picks) && cs[0] == base && Weights(base)
    requires s + Sum(base) <= |picks|
    ensures cs[s + Sum(base)] == cs[s]
  {
    var total := Sum(base);
    if s == 0 {
      RunTo(base, cs, picks, total);
      FairCycle(base, cs[..total + 1], picks[..total]);
    } else {
      Periodic(base, cs, picks, s - 1);
      var t := s - 1 + total;
      assert TurnAt(base, cs, picks, s - 1);
      assert TurnAt(base, cs, picks, t);
      TurnIsDeterministic(base, cs[s - 1], picks[s - 1], cs[s], picks[t], cs[t + 1]);
    }
  }

  lemma CycleOfPicks(base: seq<int>, cs: seq<seq<int>>, picks: seq<nat>, s: nat, total: nat, i: nat)
    requires Run(base, cs, picks) && cs[0] == base && total == Sum(base) > 0
    requires s + total <= |picks| && i < |base|
    requires cs[s + total] == cs[s]
    ensures Count(picks[..s + total], i) == Count(picks[..s], i) + base[i]
  {
    ClosedFormAt(base, cs, picks, s, i);
    ClosedFormAt(base, cs, picks, s + total, i);
    SameProduct(total, base[i], Count(picks[..s + total], i), s, Count(picks[..s], i));
  }

  lemma CountSplit(picks: seq<nat>, s: nat, t: nat, i: nat)
    requires s <= t <= |picks|
    ensures Count(picks[..t], i) == Count(picks[..s], i) + Count(picks[s..t], i)
  {
    assert picks[..t] == picks[..s] + picks[s..t];
    CountConcat(picks[..s], picks[s..t], i);
  }

  /** Fairness in every window: any T consecutive turns, wherever they start, pick every
      entry exactly its base weight number of times. */
  lemma FairWindow(base: seq<int>, cs: seq<seq<int>>, picks: seq<nat>, s: nat, i: nat)
    requires Run(base, cs, picks) && cs[0] == base && Weights(base)
    requires s + Sum(base) <= |picks| && i < |base|
    ensures Count(picks[s..s + Sum(base)], i) == base[i]
  {
    Periodic(base, cs, picks, s);
    CycleOfPicks(base, cs, picks, s, Sum(base), i);
    CountSplit(picks, s, s + Sum(base), i);
  }

  lemma SameProduct(total: int, w: int, m: int, s: int, k: int)
    requires total > 0
    requires (s + total + 1) * w - total * m == (s + 1) * w - total * k
    ensures m == k + w
  {
    Distribute(s + 1, total, w);
    Distribute(k, m - k, total);
    Cancel(total, w, m - k);
  }

  lemma Cancel(total: int, w: int, m: int)
    requires total > 0 && total * w == total * m
    ensures w == m
  {
    assert total * (w - m) == 0;
  }

  /** At every moment, not only after whole cycles, an entry's picks stay below its share plus one. */
  lemma {:induction false} BoundedLead(base: seq<int>, cs: seq<seq<int>>, picks: seq<nat>, i: nat)
    requires Run(base, cs, picks) && cs[0] == base && Weights(base) && i < |base|
    ensures Sum(base) * Count(picks, i) < (|picks| + 1) * base[i] + Sum(base)
  {
    NeverStarved(base, cs, picks);
    ClosedForm(base, cs, picks, i);
  }

  // ----- equal weights -----

  function Equal(n: nat, w: int): (r: seq<int>) {
    seq(n, _ => w)
  }

  lemma {:induction false} SumOfEqual(n: nat, w: int)
    ensures Sum(Equal(n, w)) == n * w
  {
    if n > 0 {
      assert Equal(n, w)[..n - 1] == Equal(n - 1, w);
      SumOfEqual(n - 1, w);
    }
  }

  /** In the middle of a round: the first `k` have had their turn. */
  ghost predicate MidRound(c: seq<int>, n: nat, w: int, start: int, k: nat) {
    |c| == n && forall i :: 0 <= i < n ==> c[i] == start + k * w - (if i < k then n * w else 0)
  }

  /** Of entries with equal weights, the next one in order is picked; the first of equals goes first. */
  lemma NextInOrder(c: seq<int>, b: nat, d: seq<int>, n: nat, w: int, start: int, k: nat)
    requires n > 0 && w > 0 && k < n && MidRound(c, n, w, start, k)
    requires Turn(Equal(n, w), Equal(n, w), AllLive(n), c, b, d)
    ensures b == k && MidRound(d, n, w, start, if k + 1 < n then k + 1 else 0)
  {
    var e := Raised(c, Equal(n, w), AllLive(n));
    SumOfEqual(n, w);
    assert n * w > 0;
    assert (k + 1) * w == k * w + w;
    assert forall i :: 0 <= i < n ==> e[i] == start + (k + 1) * w - (if i < k then n * w else 0);
    assert AllLive(n)[k] && AllLive(n)[b];
    assert forall i :: 0 <= i < k ==> e[i] < e[k];
    assert forall i :: k <= i < n ==> e[i] == e[k];
  }

  /** With equal weights, from equal running weights, the entries take turns in their order. */
  lemma {:induction false} EqualWeightsTakeTurns(n: nat, w: int, start: int, cs: seq<seq<int>>, picks: seq<nat>, t: nat)
    requires n > 0 && w > 0 && Run(Equal(n, w), cs, picks) && t <= |picks|
    requires cs[0] == Equal(n, start)
    ensures MidRound(cs[t], n, w, start, t % n)
    ensures forall u :: 0 <= u < t ==> picks[u] == u % n
  {
    if t > 0 {
      EqualWeightsTakeTurns(n, w, start, cs, picks, t - 1);
      assert TurnAt(Equal(n, w), cs, picks, t - 1);
      NextInOrder(cs[t - 1], picks[t - 1], cs[t - 1 + 1], n, w, start, (t - 1) % n);
      NextRemainder(t, n);
    }
  }

  lemma NextRemainder(t: nat, n: nat)
    requires t > 0 && n > 0
    ensures t % n == if (t - 1) % n + 1 < n then (t - 1) % n + 1 else 0
  {
    var q, r := (t - 1) / n, (t - 1) % n;
    assert t == q * n + (r + 1);
    if r + 1 == n {
      assert t == (q + 1) * n;
      RemainderOf(q + 1, 0, n);
    } else {
      RemainderOf(q, r + 1, n);
    }
  }

  lemma RemainderOf(q: nat, r: nat, n: nat)
    requires r < n
    ensures (q * n + r) % n == r
  {
    var x := q * n + r;
    assert x == (x / n) * n + x % n;
    if q < x / n {
      AtLeastOnce(x / n - q, n);
    } else if x / n < q {
      AtLeastOnce(q - x / n, n);
    }
  }

  lemma AtLeastOnce(a: nat, n: nat)
    requires a >= 1
    ensures a * n >= n
  {
    assert a * n == (a - 1) * n + n;
  }
}
