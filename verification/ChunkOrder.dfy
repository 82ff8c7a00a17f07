/**
  The order of the chunks.  An oversized paragraph is emitted while normal text is still
  buffered; every piece is traced back to its paragraphs, and it is shown exactly when the
  pieces come in the order of the document.
 */
module ChunkOrder {
  import opened Text
  import opened CleanText
  import opened Chunking

  /** The positions of the paragraphs each piece, and the buffer, is made of. */
  datatype Origins = Origins(pieces: seq<seq<nat>>, buf: seq<nat>)

  function Copies(idx: nat, n: nat): (r: seq<seq<nat>>) {
    seq(n, _ => [idx])
  }

  function FlushOrigins(o: Origins, st: Packing): Origins {
    if Strip(st.buf) == "" then o else Origins(o.pieces + [o.buf], [])
  }

  /** What the packing step does with paragraph number `idx`, on positions. */
  function OriginStep(o: Origins, st: Packing, p: string, idx: nat, max: nat): Origins
    requires max >= 1
  {
    if |p| > max then o.(pieces := o.pieces + Copies(idx, |HardSplit(p, max)|))
    else if st.buf == "" then o.(buf := [idx])
    else if |st.buf| + 2 + |p| <= max then o.(buf := o.buf + [idx])
    else FlushOrigins(o, st).(buf := [idx])
  }

  function PackOrigins(paras: seq<string>, max: nat): Origins
    requires max >= 1
  {
    if paras == [] then Origins([], [])
    else
      var n := |paras| - 1;
      OriginStep(PackOrigins(paras[..n], max), Pack(paras[..n], max), paras[n], n, max)
  }

  /** The paragraphs behind each of the packed pieces. */
  function PackedOrigins(paras: seq<string>, max: nat): seq<seq<nat>>
    requires max >= 1
  {
    FlushOrigins(PackOrigins(paras, max), Pack(paras, max)).pieces
  }

  // ----- the positions are the true ones -----

  function Picked(paras: seq<string>, from: seq<nat>): (r: seq<string>)
    requires forall i :: 0 <= i < |from| ==> from[i] < |paras|
  {
    seq(|from|, i requires 0 <= i < |from| => paras[from[i]])
  }

  /** The text is that of the normal paragraphs at the positions, joined by blank lines. */
  ghost predicate MadeOf(text: string, from: seq<nat>, paras: seq<string>, max: nat) {
    && (forall i :: 0 <= i < |from| ==> from[i] < |paras| && |paras[from[i]]| <= max)
    && text == Join(Picked(paras, from), BREAK)
  }

  /** The piece is a part of the oversized paragraph at its position, or made of the normal ones at its positions. */
  ghost predicate TrueOrigin(piece: Piece, from: seq<nat>, paras: seq<string>, max: nat)
    requires max >= 1
  {
    if piece.hard then |from| == 1 && from[0] < |paras| && |paras[from[0]]| > max && piece.text in HardSplit(paras[from[0]], max)
    else from != [] && MadeOf(piece.text, from, paras, max)
  }

  ghost predicate TrueOrigins(pieces: seq<Piece>, origins: seq<seq<nat>>, paras: seq<string>, max: nat)
    requires max >= 1
  {
    |pieces| == |origins| && forall k :: 0 <= k < |pieces| ==> TrueOrigin(pieces[k], origins[k], paras, max)
  }

  lemma MadeOfLonger(text: string, from: seq<nat>, paras: seq<string>, p: string, max: nat)
    requires MadeOf(text, from, paras, max)
    ensures MadeOf(text, from, paras + [p], max)
  {
    assert Picked(paras + [p], from) == Picked(paras, from);
  }

  lemma TrueLonger(pieces: seq<Piece>, origins: seq<seq<nat>>, paras: seq<string>, p: string, max: nat)
    requires max >= 1 && TrueOrigins(pieces, origins, paras, max)
    ensures TrueOrigins(pieces, origins, paras + [p], max)
  {
    forall k | 0 <= k < |pieces|
      ensures TrueOrigin(pieces[k], origins[k], paras + [p], max)
    {
      assert TrueOrigin(pieces[k], origins[k], paras, max);
      if !pieces[k].hard {
        MadeOfLonger(pieces[k].text, origins[k], paras, p, max);
      }
    }
  }

  lemma OneParagraph(paras: seq<string>, p: string, max: nat)
    requires |p| <= max
    ensures MadeOf(p, [|paras|], paras + [p], max)
  {
    assert Picked(paras + [p], [|paras|]) == [p];
  }

  lemma OneMoreParagraph(text: string, from: seq<nat>, paras: seq<string>, p: string, max: nat)
    requires MadeOf(text, from, paras, max) && from != [] && |p| <= max
    ensures MadeOf(text + BREAK + p, from + [|paras|], paras + [p], max)
  {
    assert Picked(paras + [p], from + [|paras|]) == Picked(paras, from) + [p];
    JoinConcat(Picked(paras, from), [p], BREAK);
  }

  /** What the packing pass keeps about positions. */
  ghost predicate OriginInv(st: Packing, o: Origins, paras: seq<string>, max: nat)
    requires max >= 1
  {
    && Trimmed(st.buf) && (o.buf == [] <==> st.buf == "")
    && TrueOrigins(st.pieces, o.pieces, paras, max) && MadeOf(st.buf, o.buf, paras, max)
  }

  lemma FlushKeepsOrigins(st: Packing, o: Origins, paras: seq<string>, max: nat)
    requires max >= 1 && OriginInv(st, o, paras, max)
    ensures TrueOrigins(Flush(st).pieces, FlushOrigins(o, st).pieces, paras, max)
    ensures st.buf != "" ==> FlushOrigins(o, st) == Origins(o.pieces + [o.buf], [])
  {
    StripTrimmed(st.buf);
  }

  lemma HardKeepsOrigins(st: Packing, o: Origins, paras: seq<string>, p: string, max: nat)
    requires max >= 1 && OriginInv(st, o, paras, max) && |p| > max
    ensures OriginInv(PackStep(st, p, max), OriginStep(o, st, p, |paras|, max), paras + [p], max)
  {
    TrueLonger(st.pieces, o.pieces, paras, p, max);
    MadeOfLonger(st.buf, o.buf, paras, p, max);
    var parts := HardSplit(p, max);
    forall k | 0 <= k < |parts|
      ensures TrueOrigin(HardPieces(parts)[k], Copies(|paras|, |parts|)[k], paras + [p], max)
    {
      assert parts[k] in parts;
    }
  }

  lemma SoftKeepsOrigins(st: Packing, o: Origins, paras: seq<string>, p: string, max: nat)
    requires max >= 1 && OriginInv(st, o, paras, max) && IsPara(p) && |p| <= max
    ensures OriginInv(PackStep(st, p, max), OriginStep(o, st, p, |paras|, max), paras + [p], max)
  {
    TrueLonger(st.pieces, o.pieces, paras, p, max);
    OneParagraph(paras, p, max);
    if st.buf == "" {
    } else if |st.buf| + 2 + |p| <= max {
      OneMoreParagraph(st.buf, o.buf, paras, p, max);
      JoinTrimmed(st.buf, p);
    } else {
      FlushKeepsOrigins(st, o, paras, max);
      TrueLonger(Flush(st).pieces, FlushOrigins(o, st).pieces, paras, p, max);
    }
  }

  ghost predicate AreParas(paras: seq<string>) {
    forall i :: 0 <= i < |paras| ==> IsPara(paras[i])
  }

  lemma LastKeepsOrigins(paras: seq<string>, p: string, max: nat)
    requires max >= 1 && OriginsOk(paras, max) && IsPara(p)
    ensures OriginsOk(paras + [p], max)
  {
    var st, o := Pack(paras, max), PackOrigins(paras, max);
    assert (paras + [p])[..|paras|] == paras;
    if |p| > max {
      HardKeepsOrigins(st, o, paras, p, max);
    } else {
      SoftKeepsOrigins(st, o, paras, p, max);
    }
  }

  ghost predicate OriginsOk(paras: seq<string>, max: nat)
    requires max >= 1
  {
    OriginInv(Pack(paras, max), PackOrigins(paras, max), paras, max)
  }

  lemma ParasFront(paras: seq<string>)
    requires AreParas(paras) && paras != []
    ensures AreParas(paras[..|paras| - 1]) && IsPara(paras[|paras| - 1])
    ensures paras[..|paras| - 1] + [paras[|paras| - 1]] == paras
  {
  }

  lemma {:induction false} OriginsKept(paras: seq<string>, max: nat)
    requires max >= 1 && AreParas(paras)
    ensures OriginsOk(paras, max)
  {
    if paras == [] {
      assert Picked(paras, []) == [];
    } else {
      var n := |paras| - 1;
      ParasFront(paras);
      OriginsKept(paras[..n], max);
      LastKeepsOrigins(paras[..n], paras[n], max);
    }
  }

  /** Every packed piece is what the paragraphs at its positions make it. */
  lemma PackedOriginsAreTrue(paras: seq<string>, max: nat)
    requires max >= 1 && AreParas(paras)
    ensures TrueOrigins(Packed(paras, max), PackedOrigins(paras, max), paras, max)
  {
    OriginsKept(paras, max);
    FlushKeepsOrigins(Pack(paras, max), PackOrigins(paras, max), paras, max);
  }

  // ----- when the order is kept -----

  function Flat(lists: seq<seq<nat>>): seq<nat> {
    if lists == [] then [] else Flat(lists[..|lists| - 1]) + lists[|lists| - 1]
  }

  ghost predicate InOrder(s: seq<nat>) {
    forall i, j :: 0 <= i < j < |s| ==> s[i] <= s[j]
  }

  predicate AllOversized(paras: seq<string>, max: nat) {
    forall i :: 0 <= i < |paras| ==> |paras[i]| > max
  }

  /** No oversized paragraph comes after a normal one. */
  predicate OversizedFirst(paras: seq<string>, max: nat) {
    forall i, j :: 0 <= i < j < |paras| && |paras[j]| > max ==> |paras[i]| > max
  }

  lemma OversizedFirstLast(front: seq<string>, p: string, max: nat)
    ensures OversizedFirst(front + [p], max) <==> OversizedFirst(front, max) && (|p| > max ==> AllOversized(front, max))
    ensures AllOversized(front + [p], max) <==> AllOversized(front, max) && |p| > max
  {
    var all := front + [p];
    assert forall i :: 0 <= i < |front| ==> all[i] == front[i];
    if OversizedFirst(all, max) && |p| > max {
      forall i | 0 <= i < |front|
        ensures |front[i]| > max
      {
        assert |all[|front|]| > max && |all[i]| > max;
      }
    }
    if AllOversized(all, max) {
      assert |all[|front|]| > max;
    }
  }

  lemma {:induction false} FlatConcat(a: seq<seq<nat>>, b: seq<seq<nat>>)
    ensures Flat(a + b) == Flat(a) + Flat(b)
  {
    if b == [] {
      assert a + b == a;
    } else {
      var n := |b| - 1;
      assert (a + b)[..|a + b| - 1] == a + b[..n];
      FlatConcat(a, b[..n]);
    }
  }

  lemma {:induction false} FlatCopies(idx: nat, n: nat)
    ensures |Flat(Copies(idx, n))| == n && forall i :: 0 <= i < n ==> Flat(Copies(idx, n))[i] == idx
  {
    if n > 0 {
      assert Copies(idx, n)[..n - 1] == Copies(idx, n - 1);
      FlatCopies(idx, n - 1);
    }
  }

  lemma FlatOne(list: seq<nat>)
    ensures Flat([list]) == list
  {
    assert [list][..0] == [];
  }

  /** Everything packed so far, in the order in which it will be emitted. */
  function Emitted(o: Origins): seq<nat> {
    Flat(o.pieces) + o.buf
  }

  ghost predicate Below(s: seq<nat>, n: nat) {
    forall i :: 0 <= i < |s| ==> s[i] < n
  }

  lemma AppendLarger(s: seq<nat>, n: nat)
    requires Below(s, n)
    ensures InOrder(s + [n]) <==> InOrder(s)
    ensures Below(s + [n], n + 1)
  {
    var t := s + [n];
    assert forall i :: 0 <= i < |s| ==> t[i] == s[i];
    if InOrder(t) {
      forall i, j | 0 <= i < j < |s|
        ensures s[i] <= s[j]
      {
        assert t[i] <= t[j];
      }
    }
  }

  /** A larger position in front of a buffer spoils the order, unless the buffer is empty. */
  lemma InsertLarger(front: seq<nat>, copies: seq<nat>, buf: seq<nat>, n: nat)
    requires Below(front + buf, n) && copies != [] && forall i :: 0 <= i < |copies| ==> copies[i] == n
    ensures InOrder(front + copies + buf) <==> InOrder(front + buf) && buf == []
    ensures Below(front + copies + buf, n + 1)
  {
    var t, s, k := front + copies + buf, front + buf, |front| + |copies|;
    assert forall i :: 0 <= i < |front| ==> t[i] == front[i] == s[i];
    assert forall i :: |front| <= i < k ==> t[i] == n;
    assert forall i :: 0 <= i < |buf| ==> t[k + i] == buf[i] == s[|front| + i];
    if buf != [] {
      assert t[k - 1] == n > t[k];
    } else if InOrder(t) {
      assert s == front;
      forall i, j | 0 <= i < j < |s|
        ensures s[i] <= s[j]
      {
        assert t[i] <= t[j];
      }
    }
  }

  lemma HardSplitSome(p: string, max: nat)
    requires max >= 1 && p != ""
    ensures HardSplit(p, max) != []
  {
  }

  lemma HardOrder(o: Origins, st: Packing, p: string, n: nat, max: nat)
    requires max >= 1 && |p| > max && Below(Emitted(o), n)
    ensures var next := Emitted(OriginStep(o, st, p, n, max));
      (InOrder(next) <==> InOrder(Emitted(o)) && o.buf == []) && Below(next, n + 1)
  {
    var k := |HardSplit(p, max)|;
    HardSplitSome(p, max);
    FlatConcat(o.pieces, Copies(n, k));
    FlatCopies(n, k);
    InsertLarger(Flat(o.pieces), Flat(Copies(n, k)), o.buf, n);
  }

  lemma SoftOrder(o: Origins, st: Packing, p: string, n: nat, max: nat)
    requires max >= 1 && |p| <= max && Below(Emitted(o), n) && Trimmed(st.buf) && (o.buf == [] <==> st.buf == "")
    ensures Emitted(OriginStep(o, st, p, n, max)) == Emitted(o) + [n]
  {
    if st.buf != "" && |st.buf| + 2 + |p| > max {
      StripTrimmed(st.buf);
      FlatConcat(o.pieces, [o.buf]);
      FlatOne(o.buf);
    }
  }

  lemma BufferMatches(paras: seq<string>, max: nat)
    requires max >= 1 && AreParas(paras)
    ensures Trimmed(Pack(paras, max).buf) && (PackOrigins(paras, max).buf == [] <==> Pack(paras, max).buf == "")
  {
    OriginsKept(paras, max);
  }

  lemma NextEmitted(o: Origins, st: Packing, front: seq<string>, p: string, max: nat)
    requires max >= 1 && Trimmed(st.buf) && (o.buf == [] <==> st.buf == "")
    requires Below(Emitted(o), |front|) && (o.buf == [] <==> AllOversized(front, max))
    requires InOrder(Emitted(o)) <==> OversizedFirst(front, max)
    ensures var next := OriginStep(o, st, p, |front|, max);
      && Below(Emitted(next), |front| + 1) && (next.buf == [] <==> AllOversized(front + [p], max))
      && (InOrder(Emitted(next)) <==> OversizedFirst(front + [p], max))
  {
    OversizedFirstLast(front, p, max);
    if |p| > max {
      HardOrder(o, st, p, |front|, max);
    } else {
      SoftOrder(o, st, p, |front|, max);
      AppendLarger(Emitted(o), |front|);
    }
  }

  /** Pieces and buffer hold earlier paragraphs, and nothing is buffered, or all in order, in exactly these cases. */
  ghost predicate EmittedOk(o: Origins, paras: seq<string>, max: nat) {
    && Below(Emitted(o), |paras|) && (o.buf == [] <==> AllOversized(paras, max))
    && (InOrder(Emitted(o)) <==> OversizedFirst(paras, max))
  }

  lemma LastEmitted(paras: seq<string>, p: string, max: nat)
    requires max >= 1 && AreParas(paras) && EmittedOk(PackOrigins(paras, max), paras, max)
    ensures EmittedOk(PackOrigins(paras + [p], max), paras + [p], max)
  {
    BufferMatches(paras, max);
    NextEmitted(PackOrigins(paras, max), Pack(paras, max), paras, p, max);
    assert (paras + [p])[..|paras|] == paras;
  }

  lemma {:induction false} EmittedOrder(paras: seq<string>, max: nat)
    requires max >= 1 && AreParas(paras)
    ensures EmittedOk(PackOrigins(paras, max), paras, max)
  {
    if paras != [] {
      var n := |paras| - 1;
      ParasFront(paras);
      EmittedOrder(paras[..n], max);
      LastEmitted(paras[..n], paras[n], max);
    }
  }

  /** The pieces come in document order exactly when no oversized paragraph follows a normal one. */
  lemma OrderIsExact(paras: seq<string>, max: nat)
    requires max >= 1 && AreParas(paras)
    ensures InOrder(Flat(PackedOrigins(paras, max))) <==> OversizedFirst(paras, max)
  {
    var st, o := Pack(paras, max), PackOrigins(paras, max);
    EmittedOrder(paras, max);
    OriginsKept(paras, max);
    FlushKeepsOrigins(st, o, paras, max);
    if st.buf != "" {
      FlatConcat(o.pieces, [o.buf]);
      FlatOne(o.buf);
    } else {
      assert Strip("") == "";
      assert Flat(o.pieces) + [] == Flat(o.pieces);
    }
  }

  // ----- the order on texts -----

  lemma TextsConcat(a: seq<Piece>, b: seq<Piece>)
    ensures Texts(a + b) == Texts(a) + Texts(b)
  {
  }

  /** The visible characters of a packing, in the order in which they will be emitted. */
  function VisibleOf(st: Packing): string {
    Visible(Texts(st.pieces)) + NonSpace(st.buf)
  }

  lemma HardPiecesVisible(pieces: seq<Piece>, parts: seq<string>)
    ensures Visible(Texts(pieces + HardPieces(parts))) == Visible(Texts(pieces)) + Visible(parts)
  {
    TextsConcat(pieces, HardPieces(parts));
    assert Texts(HardPieces(parts)) == parts;
    VisibleConcat(Texts(pieces), parts);
  }

  lemma HardKeepsTextOrder(st: Packing, p: string, max: nat)
    requires max >= 1 && |p| > max && st.buf == ""
    ensures VisibleOf(PackStep(st, p, max)) == VisibleOf(st) + NonSpace(p)
  {
    HardPiecesVisible(st.pieces, HardSplit(p, max));
    HardSplitVisible(p, max);
    var v := Visible(Texts(st.pieces));
    assert NonSpace("") == "" && v + "" == v && (v + NonSpace(p)) + "" == v + NonSpace(p);
  }

  lemma FlushKeepsTextOrder(st: Packing)
    requires Trimmed(st.buf)
    ensures Visible(Texts(Flush(st).pieces)) == VisibleOf(st)
  {
    StripTrimmed(st.buf);
    TextsLast(st.pieces, Piece(st.buf, false));
    VisibleLast(Texts(st.pieces), st.buf);
    assert Visible(Texts(st.pieces)) + "" == Visible(Texts(st.pieces));
  }

  lemma BufferedLast(pieces: seq<Piece>, buf: string, p: string)
    ensures VisibleOf(Packing(pieces, buf + BREAK + p)) == VisibleOf(Packing(pieces, buf)) + NonSpace(p)
  {
    VisibleExtended(buf, p);
    var v := Visible(Texts(pieces));
    assert v + (NonSpace(buf) + NonSpace(p)) == (v + NonSpace(buf)) + NonSpace(p);
  }

  lemma BufferedFirst(pieces: seq<Piece>, p: string)
    ensures VisibleOf(Packing(pieces, p)) == VisibleOf(Packing(pieces, "")) + NonSpace(p)
  {
    assert Visible(Texts(pieces)) + "" == Visible(Texts(pieces));
  }

  lemma SoftKeepsTextOrder(st: Packing, p: string, max: nat)
    requires max >= 1 && |p| <= max && Trimmed(st.buf)
    ensures VisibleOf(PackStep(st, p, max)) == VisibleOf(st) + NonSpace(p)
  {
    if st.buf == "" {
      BufferedFirst(st.pieces, p);
    } else if |st.buf| + 2 + |p| <= max {
      BufferedLast(st.pieces, st.buf, p);
    } else {
      FlushKeepsTextOrder(st);
    }
  }

  lemma {:induction false} PackKeepsTextOrder(paras: seq<string>, max: nat)
    requires max >= 1 && AreParas(paras) && OversizedFirst(paras, max)
    ensures VisibleOf(Pack(paras, max)) == Visible(paras)
  {
    if paras != [] {
      var n := |paras| - 1;
      assert paras == paras[..n] + [paras[n]];
      OversizedFirstLast(paras[..n], paras[n], max);
      PackKeepsTextOrder(paras[..n], max);
      NextKeepsTextOrder(paras[..n], paras[n], max);
    }
  }

  lemma NextKeepsTextOrder(front: seq<string>, p: string, max: nat)
    requires max >= 1 && AreParas(front) && (|p| > max ==> AllOversized(front, max))
    ensures VisibleOf(PackStep(Pack(front, max), p, max)) == VisibleOf(Pack(front, max)) + NonSpace(p)
  {
    BufferMatches(front, max);
    if |p| > max {
      EmittedOrder(front, max);
      HardKeepsTextOrder(Pack(front, max), p, max);
    } else {
      SoftKeepsTextOrder(Pack(front, max), p, max);
    }
  }

  lemma PackedKeepsTextOrder(paras: seq<string>, max: nat)
    requires max >= 1 && AreParas(paras) && OversizedFirst(paras, max)
    ensures Visible(Texts(Packed(paras, max))) == Visible(paras)
  {
    var st := Pack(paras, max);
    PackKeepsTextOrder(paras, max);
    BufferMatches(paras, max);
    FlushKeepsTextOrder(st);
  }

  /** The chunks of a document in which no oversized paragraph follows a normal one hold its visible characters in its order. */
  lemma ChunksKeepOrder(text: string, max: nat, min: int)
    requires max >= 1 && OversizedFirst(Paragraphs(Clean(text)), max)
    ensures Visible(ChunkTexts(text, max, min)) == NonSpace(text)
  {
    var paras := Paragraphs(Clean(text));
    var texts := Texts(Packed(paras, max));
    ParagraphsKeepVisible(text);
    PackedKeepsTextOrder(paras, max);
    MergeKeepsVisible(texts, min);
    SettleVisible(Merge(texts, min));
  }

  /**
    An oversized paragraph is emitted before the buffered text in front of it: before every
    normal paragraph that has not been flushed, of which there is one if there was any.
   */
  lemma OversizedOvertakes(front: seq<string>, p: string, max: nat)
    requires max >= 1 && AreParas(front) && |p| > max && !AllOversized(front, max)
    ensures var st, o := Pack(front, max), PackOrigins(front, max);
      && o.buf != [] && MadeOf(st.buf, o.buf, front, max)
      && Packed(front + [p], max) == st.pieces + HardPieces(HardSplit(p, max)) + [Piece(st.buf, false)]
  {
    var st := Pack(front, max);
    EmittedOrder(front, max);
    OriginsKept(front, max);
    StripTrimmed(st.buf);
    assert (front + [p])[..|front|] == front;
    assert Pack(front + [p], max) == st.(pieces := st.pieces + HardPieces(HardSplit(p, max)));
  }
}
