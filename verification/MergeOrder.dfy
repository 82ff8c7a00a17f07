/**
  The order of the final chunks.  The merge pass is followed on texts that carry the
  positions of their paragraphs; it moves nothing, so the chunks come in the order of the
  document exactly when the pieces do.
 */
module MergeOrder {
  import opened Text
  import opened CleanText
  import opened Chunking
  import opened ChunkOrder

  /** A text and the positions of the paragraphs it was made of. */
  datatype Traced = Traced(text: string, from: seq<nat>)

  datatype TracedMerging = TracedMerging(merged: seq<Traced>, tmp: Traced)

  const NOTHING: Traced := Traced("", [])

  // ----- the merge pass on traced texts -----

  function SettleTraced(st: TracedMerging): seq<Traced> {
    if st.tmp.text == "" then st.merged else st.merged + [Traced(Strip(st.tmp.text), st.tmp.from)]
  }

  function MergeTracedStep(st: TracedMerging, t: Traced, min: int): TracedMerging {
    if |t.text| < min then
      st.(tmp := if st.tmp.text == "" then t else Traced(st.tmp.text + BREAK + t.text, st.tmp.from + t.from))
    else TracedMerging(SettleTraced(st) + [t], NOTHING)
  }

  function MergeTraced(pieces: seq<Traced>, min: int): TracedMerging {
    if pieces == [] then TracedMerging([], NOTHING)
    else MergeTracedStep(MergeTraced(pieces[..|pieces| - 1], min), pieces[|pieces| - 1], min)
  }

  /** The packed pieces with their positions. */
  function TracedPieces(paras: seq<string>, max: nat): (r: seq<Traced>)
    requires max >= 1
  {
    var pieces, origins := Packed(paras, max), PackedOrigins(paras, max);
    seq(|pieces|, i requires 0 <= i < |pieces| => Traced(pieces[i].text, if i < |origins| then origins[i] else []))
  }

  /** The chunks of a document with the positions of the paragraphs they were made of. */
  function TracedChunks(text: string, max: nat, min: int): seq<Traced>
    requires max >= 1
  {
    SettleTraced(MergeTraced(TracedPieces(Paragraphs(Clean(text)), max), min))
  }

  // ----- without the positions it is the merge pass -----

  function Plain(ts: seq<Traced>): (r: seq<string>) {
    seq(|ts|, i requires 0 <= i < |ts| => ts[i].text)
  }

  function Froms(ts: seq<Traced>): (r: seq<seq<nat>>) {
    seq(|ts|, i requires 0 <= i < |ts| => ts[i].from)
  }

  function Erased(st: TracedMerging): Merging {
    Merging(Plain(st.merged), st.tmp.text)
  }

  lemma ErasedStep(st: TracedMerging, t: Traced, min: int)
    ensures Plain(SettleTraced(st)) == Settle(Erased(st))
    ensures Erased(MergeTracedStep(st, t, min)) == MergeStep(Erased(st), t.text, min)
  {
  }

  lemma {:induction false} ErasedMerge(pieces: seq<Traced>, min: int)
    ensures Erased(MergeTraced(pieces, min)) == Merge(Plain(pieces), min)
  {
    if pieces != [] {
      var n := |pieces| - 1;
      ErasedMerge(pieces[..n], min);
      ErasedStep(MergeTraced(pieces[..n], min), pieces[n], min);
      assert Plain(pieces)[..n] == Plain(pieces[..n]);
    }
  }

  /** The texts of the traced chunks are those of the chunks. */
  lemma TracedAreChunks(text: string, max: nat, min: int)
    requires max >= 1
    ensures Plain(TracedChunks(text, max, min)) == ChunkTexts(text, max, min)
  {
    var paras := Paragraphs(Clean(text));
    var pieces := TracedPieces(paras, max);
    assert Plain(pieces) == Texts(Packed(paras, max));
    ErasedMerge(pieces, min);
    ErasedStep(MergeTraced(pieces, min), NOTHING, min);
  }

  // ----- positions in order -----

  function Last(s: seq<nat>): nat
    requires s != []
  {
    s[|s| - 1]
  }

  lemma OrderOfConcat(a: seq<nat>, b: seq<nat>)
    requires b != []
    ensures InOrder(a + b) <==> InOrder(a) && InOrder(b) && (a != [] ==> Last(a) <= b[0])
  {
    var c := a + b;
    if InOrder(c) {
      forall i, j | 0 <= i < j < |a|
        ensures a[i] <= a[j]
      {
        assert c[i] <= c[j];
      }
      forall i, j | 0 <= i < j < |b|
        ensures b[i] <= b[j]
      {
        assert c[|a| + i] <= c[|a| + j];
      }
      assert a != [] ==> c[|a| - 1] <= c[|a|];
    }
    if InOrder(a) && InOrder(b) && (a != [] ==> Last(a) <= b[0]) {
      forall i, j | 0 <= i < j < |c|
        ensures c[i] <= c[j]
      {
        if i < |a| <= j {
          assert a[i] <= Last(a) && b[0] <= b[j - |a|];
        }
      }
    }
  }

  /** Two lists of positions that are in order together and end alike. */
  ghost predicate Alike(a: seq<nat>, b: seq<nat>) {
    (a == [] <==> b == []) && (a != [] ==> Last(a) == Last(b)) && (InOrder(a) <==> InOrder(b))
  }

  lemma AlikeLonger(a: seq<nat>, b: seq<nat>, more: seq<nat>)
    requires Alike(a, b) && more != []
    ensures Alike(a + more, b + more)
  {
    OrderOfConcat(a, more);
    OrderOfConcat(b, more);
  }

  lemma AlikeRepeat(a: seq<nat>, b: seq<nat>)
    requires Alike(a, b) && b != []
    ensures Alike(a, b + [Last(b)])
  {
    OrderOfConcat(b, [Last(b)]);
  }

  // ----- pieces that leave no trace -----

  /** The piece has a position, and if its text is empty, that of the piece before it. */
  ghost predicate RepeatsAt(texts: seq<string>, origins: seq<seq<nat>>, k: nat)
    requires k < |texts| == |origins|
  {
    origins[k] != [] && (texts[k] == "" ==> k > 0 && |origins[k]| == 1 && origins[k - 1] == origins[k])
  }

  ghost predicate Repeats(texts: seq<string>, origins: seq<seq<nat>>) {
    |texts| == |origins| && forall k :: 0 <= k < |texts| ==> RepeatsAt(texts, origins, k)
  }

  lemma RepeatsConcat(a: seq<string>, oa: seq<seq<nat>>, b: seq<string>, ob: seq<seq<nat>>)
    requires Repeats(a, oa) && Repeats(b, ob)
    ensures Repeats(a + b, oa + ob)
  {
    forall k | 0 <= k < |a + b|
      ensures RepeatsAt(a + b, oa + ob, k)
    {
      if k < |a| {
        assert RepeatsAt(a, oa, k);
      } else {
        assert RepeatsAt(b, ob, k - |a|);
      }
    }
  }

  /** Only parts cut from white space are empty, and the first part of a paragraph is not. */
  lemma HardRepeats(p: string, idx: nat, max: nat)
    requires max >= 1 && IsPara(p) && |p| > max
    ensures Repeats(HardSplit(p, max), Copies(idx, |HardSplit(p, max)|))
  {
    var i, j := StripParts(p[..max]);
    assert !IsSpace(p[..max][0]);
  }

  ghost predicate PackingRepeats(st: Packing, o: Origins) {
    Repeats(Texts(st.pieces), o.pieces) && Trimmed(st.buf) && (o.buf == [] <==> st.buf == "")
  }

  lemma FlushRepeats(st: Packing, o: Origins)
    requires PackingRepeats(st, o)
    ensures PackingRepeats(Flush(st), FlushOrigins(o, st))
  {
    StripTrimmed(st.buf);
    if st.buf != "" {
      RepeatsConcat(Texts(st.pieces), o.pieces, [st.buf], [o.buf]);
      TextsConcat(st.pieces, [Piece(st.buf, false)]);
      assert Texts([Piece(st.buf, false)]) == [st.buf];
    }
  }

  lemma StepRepeats(st: Packing, o: Origins, p: string, idx: nat, max: nat)
    requires max >= 1 && PackingRepeats(st, o) && IsPara(p)
    ensures PackingRepeats(PackStep(st, p, max), OriginStep(o, st, p, idx, max))
  {
    if |p| > max {
      var parts := HardSplit(p, max);
      HardRepeats(p, idx, max);
      RepeatsConcat(Texts(st.pieces), o.pieces, parts, Copies(idx, |parts|));
      TextsConcat(st.pieces, HardPieces(parts));
      assert Texts(HardPieces(parts)) == parts;
    } else if st.buf != "" {
      FlushRepeats(st, o);
      JoinTrimmed(st.buf, p);
    }
  }

  ghost predicate PackRepeats(paras: seq<string>, max: nat)
    requires max >= 1
  {
    PackingRepeats(Pack(paras, max), PackOrigins(paras, max))
  }

  lemma LastRepeats(paras: seq<string>, p: string, max: nat)
    requires max >= 1 && PackRepeats(paras, max) && IsPara(p)
    ensures PackRepeats(paras + [p], max)
  {
    assert (paras + [p])[..|paras|] == paras;
    StepRepeats(Pack(paras, max), PackOrigins(paras, max), p, |paras|, max);
  }

  lemma {:induction false} PackedRepeats(paras: seq<string>, max: nat)
    requires max >= 1 && AreParas(paras)
    ensures PackRepeats(paras, max)
  {
    if paras != [] {
      var n := |paras| - 1;
      ParasFront(paras);
      PackedRepeats(paras[..n], max);
      LastRepeats(paras[..n], paras[n], max);
    }
  }

  // ----- merging keeps the order -----

  /** The positions behind merged and pending text; a pending empty text will leave none. */
  function Seen(st: TracedMerging): seq<nat> {
    Flat(Froms(st.merged)) + if st.tmp.text == "" then [] else st.tmp.from
  }

  lemma SettleSeen(st: TracedMerging)
    ensures Flat(Froms(SettleTraced(st))) == Seen(st)
  {
    if st.tmp.text != "" {
      FlatLast(st.merged, Traced(Strip(st.tmp.text), st.tmp.from));
    }
  }

  lemma FlatLast(ts: seq<Traced>, t: Traced)
    ensures Flat(Froms(ts + [t])) == Flat(Froms(ts)) + t.from
  {
    assert Froms(ts + [t])[..|ts|] == Froms(ts);
  }

  /** A piece adds its positions, unless it is empty and nothing is pending. */
  lemma StepSeen(st: TracedMerging, t: Traced, min: int)
    ensures Seen(MergeTracedStep(st, t, min)) ==
      if |t.text| < min && st.tmp.text == "" && t.text == "" then Seen(st) else Seen(st) + t.from
  {
    if |t.text| >= min {
      SettleSeen(st);
      FlatLast(SettleTraced(st), t);
    }
  }

  ghost predicate SeenAlike(pieces: seq<Traced>, min: int) {
    Alike(Seen(MergeTraced(pieces, min)), Flat(Froms(pieces)))
  }

  lemma LastAlike(front: seq<Traced>, t: Traced, min: int)
    requires Repeats(Plain(front + [t]), Froms(front + [t])) && SeenAlike(front, min)
    ensures SeenAlike(front + [t], min)
  {
    assert (front + [t])[..|front|] == front;
    StepSeen(MergeTraced(front, min), t, min);
    FlatLast(front, t);
    StepAlike(Seen(MergeTraced(front, min)), front + [t]);
  }

  lemma {:induction false} MergeAlike(pieces: seq<Traced>, min: int)
    requires Repeats(Plain(pieces), Froms(pieces))
    ensures SeenAlike(pieces, min)
  {
    if pieces != [] {
      var front, t := pieces[..|pieces| - 1], pieces[|pieces| - 1];
      RepeatsFront(pieces);
      MergeAlike(front, min);
      assert pieces == front + [t];
      LastAlike(front, t, min);
    }
  }

  lemma RepeatsFront(pieces: seq<Traced>)
    requires pieces != [] && Repeats(Plain(pieces), Froms(pieces))
    ensures Repeats(Plain(pieces[..|pieces| - 1]), Froms(pieces[..|pieces| - 1]))
  {
    var front := pieces[..|pieces| - 1];
    forall k | 0 <= k < |front|
      ensures RepeatsAt(Plain(front), Froms(front), k)
    {
      assert RepeatsAt(Plain(pieces), Froms(pieces), k);
    }
  }

  /** A last piece that adds its positions, or one that repeats those before it and adds none. */
  lemma StepAlike(seen: seq<nat>, pieces: seq<Traced>)
    requires pieces != [] && Repeats(Plain(pieces), Froms(pieces))
    requires Alike(seen, Flat(Froms(pieces[..|pieces| - 1])))
    ensures var flat, t := Flat(Froms(pieces[..|pieces| - 1])), pieces[|pieces| - 1];
      && Alike(seen + t.from, flat + t.from)
      && (t.text == "" ==> Alike(seen, flat + t.from))
  {
    var n := |pieces| - 1;
    var front, t := pieces[..n], pieces[n];
    var flat := Flat(Froms(front));
    assert RepeatsAt(Plain(pieces), Froms(pieces), n);
    AlikeLonger(seen, flat, t.from);
    if t.text == "" {
      assert Froms(pieces)[n - 1] == pieces[n - 1].from == t.from;
      assert front == front[..n - 1] + [front[n - 1]];
      FlatLast(front[..n - 1], front[n - 1]);
      assert Last(flat) == t.from[0] && [Last(flat)] == t.from;
      AlikeRepeat(seen, flat);
    }
  }

  /** The chunks of a document come in its order exactly when no oversized paragraph follows a normal one. */
  lemma ChunkOrderIsExact(text: string, max: nat, min: int)
    requires max >= 1
    ensures Plain(TracedChunks(text, max, min)) == ChunkTexts(text, max, min)
    ensures InOrder(Flat(Froms(TracedChunks(text, max, min)))) <==> OversizedFirst(Paragraphs(Clean(text)), max)
  {
    var paras := Paragraphs(Clean(text));
    var pieces := TracedPieces(paras, max);
    TracedAreChunks(text, max, min);
    ParagraphsKeepVisible(text);
    PiecesRepeat(paras, max);
    MergeAlike(pieces, min);
    SettleSeen(MergeTraced(pieces, min));
    OrderIsExact(paras, max);
  }

  lemma PiecesRepeat(paras: seq<string>, max: nat)
    requires max >= 1 && AreParas(paras)
    ensures var pieces := TracedPieces(paras, max);
      Repeats(Plain(pieces), Froms(pieces)) && Froms(pieces) == PackedOrigins(paras, max)
  {
    PackedRepeats(paras, max);
    FlushRepeats(Pack(paras, max), PackOrigins(paras, max));
    var pieces := TracedPieces(paras, max);
    assert Plain(pieces) == Texts(Packed(paras, max)) && Froms(pieces) == PackedOrigins(paras, max);
  }
}
