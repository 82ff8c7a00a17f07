/**
  Chunking of a cleaned text: hard split of oversized paragraphs, greedy packing of the
  others into a buffer, merging of tiny chunks.  The bound, the round trip and the
  conservation of characters span all three passes.
 */
module Chunking {
  import opened Text
  import opened CleanText

  const BREAK: string := "\n\n"

  // ----- the three passes on values -----

  /** The stripped non-empty parts between blank lines. */
  function Kept(parts: seq<string>): seq<string> {
    if parts == [] then []
    else
      var p := Strip(parts[|parts| - 1]);
      Kept(parts[..|parts| - 1]) + (if p == "" then [] else [p])
  }

  function Paragraphs(cleaned: string): seq<string> {
    Kept(SplitParagraphs(cleaned))
  }

  function HardSplit(p: string, max: nat): seq<string>
    requires max >= 1
    decreases |p|
  {
    if p == "" then []
    else if |p| <= max then [Strip(p)]
    else [Strip(p[..max])] + HardSplit(p[max..], max)
  }

  /** A chunk before the merge pass; `hard` marks the parts of an oversized paragraph. */
  datatype Piece = Piece(text: string, hard: bool)

  datatype Packing = Packing(pieces: seq<Piece>, buf: string)

  function Flush(st: Packing): Packing {
    if Strip(st.buf) == "" then st
    else Packing(st.pieces + [Piece(Strip(st.buf), false)], "")
  }

  function HardPieces(parts: seq<string>): (r: seq<Piece>) {
    seq(|parts|, i requires 0 <= i < |parts| => Piece(parts[i], true))
  }

  function PackStep(st: Packing, p: string, max: nat): Packing
    requires max >= 1
  {
    if |p| > max then st.(pieces := st.pieces + HardPieces(HardSplit(p, max)))
    else if st.buf == "" then st.(buf := p)
    else if |st.buf| + 2 + |p| <= max then st.(buf := st.buf + BREAK + p)
    else Flush(st).(buf := p)
  }

  function Pack(paras: seq<string>, max: nat): Packing
    requires max >= 1
  {
    if paras == [] then Packing([], "")
    else PackStep(Pack(paras[..|paras| - 1], max), paras[|paras| - 1], max)
  }

  function Packed(paras: seq<string>, max: nat): seq<Piece>
    requires max >= 1
  {
    Flush(Pack(paras, max)).pieces
  }

  function Texts(pieces: seq<Piece>): (r: seq<string>) {
    seq(|pieces|, i requires 0 <= i < |pieces| => pieces[i].text)
  }

  datatype Merging = Merging(merged: seq<string>, tmp: string)

  function Settle(st: Merging): seq<string> {
    if st.tmp == "" then st.merged else st.merged + [Strip(st.tmp)]
  }

  function MergeStep(st: Merging, text: string, min: int): Merging {
    if |text| < min then
      st.(tmp := if st.tmp == "" then text else st.tmp + BREAK + text)
    else Merging(Settle(st) + [text], "")
  }

  function Merge(texts: seq<string>, min: int): Merging {
    if texts == [] then Merging([], "")
    else MergeStep(Merge(texts[..|texts| - 1], min), texts[|texts| - 1], min)
  }

  /** The texts of the chunks of a document. */
  function ChunkTexts(text: string, max: nat, min: int): seq<string>
    requires max >= 1
  {
    Settle(Merge(Texts(Packed(Paragraphs(Clean(text)), max)), min))
  }

  // ----- paragraphs of a normal text -----

  predicate Apart(a: char, b: char) {
    !(IsSpace(a) && IsSpace(b))
  }

  /** Not empty, visible at both ends, never two white-space characters in a row. */
  predicate IsPara(p: string) {
    p != "" && Trimmed(p) && forall i :: 0 <= i < |p| - 1 ==> Apart(p[i], p[i + 1])
  }

  /** A suffix of a normal text. */
  predicate NormalTail(s: string) {
    && (s != "" ==> !IsSpace(s[|s| - 1]))
    && (forall i :: 0 <= i < |s| - 1 ==> NoWidePair(s[i], s[i + 1]))
    && (forall i :: 0 <= i < |s| - 2 ==> NoTriple(s[i], s[i + 1], s[i + 2]))
  }

  lemma NormalTailDrop(s: string, k: nat)
    requires NormalTail(s) && k <= |s|
    ensures NormalTail(s[k..])
  {
    forall i | 0 <= i < |s[k..]| - 1
      ensures NoWidePair(s[k..][i], s[k..][i + 1])
    {
      assert NoWidePair(s[k + i], s[k + i + 1]);
    }
    forall i | 0 <= i < |s[k..]| - 2
      ensures NoTriple(s[k..][i], s[k..][i + 1], s[k..][i + 2])
    {
      assert NoTriple(s[k + i], s[k + i + 1], s[k + i + 2]);
    }
  }

  /** The first part may have lost its start; it is empty exactly when the text is over or a break begins. */
  ghost predicate FirstPart(p: string, s: string) {
    && (p == "" <==> s == "" || (|s| > 1 && s[0] == '\n' && s[1] == '\n'))
    && (p != "" ==> p[0] == s[0] && !IsSpace(p[|p| - 1]))
    && (forall i :: 0 <= i < |p| - 1 ==> Apart(p[i], p[i + 1]))
  }

  lemma LongerFirstPart(s: string, q: string)
    requires NormalTail(s) && s != "" && !(|s| > 1 && s[0] == '\n' && s[1] == '\n')
    requires FirstPart(q, s[1..])
    ensures FirstPart([s[0]] + q, s)
  {
    var p := [s[0]] + q;
    if |s| > 1 {
      assert NoWidePair(s[0], s[0 + 1]);
    }
    forall i | 0 <= i < |p| - 1
      ensures Apart(p[i], p[i + 1])
    {
      if i > 0 {
        assert Apart(q[i - 1], q[i - 1 + 1]);
      }
    }
  }

  lemma FirstAfterBreak(s: string, q: string)
    requires NormalTail(s) && |s| > 1 && s[0] == '\n' && s[1] == '\n' && FirstPart(q, s[2..])
    ensures IsPara(q)
  {
    assert |s| > 2;
    assert NoTriple(s[0], s[0 + 1], s[0 + 2]) && NoWidePair(s[1], s[1 + 1]);
  }

  /** The first part as above, and the others well formed. */
  ghost predicate PartsOf(parts: seq<string>, s: string) {
    parts != [] && FirstPart(parts[0], s) && forall i :: 1 <= i < |parts| ==> IsPara(parts[i])
  }

  lemma AtBreak(s: string, rest: seq<string>)
    requires NormalTail(s) && |s| > 1 && s[0] == '\n' && s[1] == '\n' && PartsOf(rest, s[2..])
    ensures PartsOf([""] + rest, s)
  {
    FirstAfterBreak(s, rest[0]);
  }

  lemma BeforeBreak(s: string, rest: seq<string>)
    requires NormalTail(s) && s != "" && !(|s| > 1 && s[0] == '\n' && s[1] == '\n') && PartsOf(rest, s[1..])
    ensures PartsOf([[s[0]] + rest[0]] + rest[1..], s)
  {
    LongerFirstPart(s, rest[0]);
  }

  lemma {:induction false} SplitNormal(s: string)
    requires NormalTail(s)
    ensures PartsOf(SplitParagraphs(s), s)
  {
    if s == "" {
    } else if |s| > 1 && s[0] == '\n' && s[1] == '\n' {
      NormalTailDrop(s, 2);
      SplitNormal(s[2..]);
      AtBreak(s, SplitParagraphs(s[2..]));
    } else {
      NormalTailDrop(s, 1);
      SplitNormal(s[1..]);
      BeforeBreak(s, SplitParagraphs(s[1..]));
    }
  }

  lemma {:induction false} KeptParas(parts: seq<string>)
    requires forall i :: 0 <= i < |parts| ==> IsPara(parts[i])
    ensures Kept(parts) == parts
  {
    if parts != [] {
      var n := |parts| - 1;
      KeptParas(parts[..n]);
      KeptLast(parts[..n], parts[n]);
      assert parts == parts[..n] + [parts[n]];
    }
  }

  lemma KeptLast(front: seq<string>, p: string)
    requires Kept(front) == front && IsPara(p)
    ensures Kept(front + [p]) == front + [p]
  {
    StripTrimmed(p);
    assert (front + [p])[..|front|] == front;
  }

  lemma ParagraphsOfNothing()
    ensures Paragraphs("") == [] && Join([], BREAK) == ""
  {
    assert [""][..0] == [];
    assert Strip("") == "";
    assert Kept([""]) == [];
  }

  /** The paragraphs of a normal text are well formed, and joining them gives the text back. */
  lemma ParagraphsOfNormal(t: string)
    requires NormalText(t)
    ensures forall i :: 0 <= i < |Paragraphs(t)| ==> IsPara(Paragraphs(t)[i])
    ensures Join(Paragraphs(t), BREAK) == t
  {
    if t == "" {
      ParagraphsOfNothing();
    } else {
      SplitNormal(t);
      assert !IsSpace(t[0]) && IsPara(SplitParagraphs(t)[0]);
      KeptParas(SplitParagraphs(t));
      JoinSplitParagraphs(t);
    }
  }

  // ----- lengths -----

  lemma StripLosesLittle(s: string)
    requires forall i :: 0 <= i < |s| - 1 ==> Apart(s[i], s[i + 1])
    ensures |s| - 2 <= |Strip(s)| <= |s|
  {
    var i, j := StripParts(s);
    assert |s| > 1 ==> Apart(s[0], s[0 + 1]);
    assert j + 1 < |s| ==> Apart(s[j], s[j + 1]);
  }

  ghost predicate NoRuns(s: string) {
    forall i :: 0 <= i < |s| - 1 ==> Apart(s[i], s[i + 1])
  }

  lemma NoRunsPart(s: string, i: nat, j: nat)
    requires NoRuns(s) && i <= j <= |s|
    ensures NoRuns(s[i..j])
  {
    forall k | 0 <= k < j - i - 1
      ensures Apart(s[i..j][k], s[i..j][k + 1])
    {
      assert Apart(s[i + k], s[i + k + 1]);
    }
  }

  /** No part too long, and none but the last much shorter than `max`. */
  ghost predicate EvenParts(parts: seq<string>, max: nat) {
    && (forall i :: 0 <= i < |parts| ==> |parts[i]| <= max)
    && (forall i :: 0 <= i < |parts| - 1 ==> |parts[i]| >= max - 2)
  }

  lemma {:induction false} HardSplitLengths(p: string, max: nat)
    requires max >= 1 && NoRuns(p)
    ensures EvenParts(HardSplit(p, max), max) && (|p| > max ==> |HardSplit(p, max)| > 1)
    decreases |p|
  {
    if p == "" {
    } else if |p| <= max {
      NonSpaceStrip(p);
    } else {
      NoRunsPart(p, 0, max);
      NoRunsPart(p, max, |p|);
      assert p[0..max] == p[..max] && p[max..|p|] == p[max..];
      StripLosesLittle(p[..max]);
      HardSplitLengths(p[max..], max);
      EvenHead(Strip(p[..max]), HardSplit(p[max..], max), max);
    }
  }

  lemma EvenHead(head: string, rest: seq<string>, max: nat)
    requires EvenParts(rest, max) && max - 2 <= |head| <= max
    ensures EvenParts([head] + rest, max)
  {
  }

  /** What the packing loop keeps: no piece and no buffer is too long, a buffer never fits onto the piece flushed before it. */
  ghost predicate PackInv(st: Packing, max: nat) {
    && Trimmed(st.buf) && |st.buf| <= max
    && (forall i :: 0 <= i < |st.pieces| ==> |st.pieces[i].text| <= max)
    && (st.buf == "" ==> forall i :: 0 <= i < |st.pieces| ==> st.pieces[i].hard)
    && (st.pieces != [] && !st.pieces[|st.pieces| - 1].hard ==>
          |st.pieces[|st.pieces| - 1].text| + 2 + |st.buf| > max)
    && (forall i :: 0 <= i < |st.pieces| - 1 ==> PairInv(st.pieces[i], st.pieces[i + 1], max))
  }

  /** Neighbours in the piece list: a hard piece follows nothing shorter than `max - 2` unless it is that long itself. */
  predicate PairInv(a: Piece, b: Piece, max: nat) {
    if b.hard then |a.text| >= max - 2 || |b.text| >= max - 2
    else a.hard || |a.text| + 2 + |b.text| > max
  }

  lemma FlushInv(st: Packing, max: nat)
    requires PackInv(st, max) && st.buf != ""
    ensures var next := Flush(st);
      && next == Packing(st.pieces + [Piece(st.buf, false)], "")
      && (forall i :: 0 <= i < |next.pieces| ==> |next.pieces[i].text| <= max)
      && (forall i :: 0 <= i < |next.pieces| - 1 ==> PairInv(next.pieces[i], next.pieces[i + 1], max))
  {
    StripTrimmed(st.buf);
  }

  lemma HardPiecesInv(st: Packing, p: string, max: nat)
    requires max >= 1 && PackInv(st, max) && NoRuns(p) && |p| > max
    ensures PackInv(PackStep(st, p, max), max)
  {
    HardSplitLengths(p, max);
    var added := HardPieces(HardSplit(p, max));
    var pieces := st.pieces + added;
    forall i | 0 <= i < |pieces| - 1
      ensures PairInv(pieces[i], pieces[i + 1], max)
    {
      if i + 1 < |st.pieces| {
        assert PairInv(st.pieces[i], st.pieces[i + 1], max);
      } else if i >= |st.pieces| {
        assert |added[i - |st.pieces|].text| >= max - 2;
      } else {
        assert |added[0].text| >= max - 2;
      }
    }
  }

  lemma PackStepInv(st: Packing, p: string, max: nat)
    requires max >= 1 && PackInv(st, max) && IsPara(p)
    ensures PackInv(PackStep(st, p, max), max)
  {
    if |p| > max {
      HardPiecesInv(st, p, max);
    } else if st.buf == "" {
      SoftInv(st, p, max);
    } else if |st.buf| + 2 + |p| > max {
      FlushInv(st, max);
    } else {
      SoftInv(st, st.buf + BREAK + p, max);
    }
  }

  lemma SoftInv(st: Packing, buf: string, max: nat)
    requires PackInv(st, max) && |st.buf| <= |buf| <= max && Trimmed(buf) && buf != ""
    ensures PackInv(st.(buf := buf), max)
  {
  }

  lemma {:induction false} PackKeepsInv(paras: seq<string>, max: nat)
    requires max >= 1 && forall i :: 0 <= i < |paras| ==> IsPara(paras[i])
    ensures PackInv(Pack(paras, max), max)
  {
    if paras != [] {
      var n := |paras| - 1;
      PackKeepsInv(paras[..n], max);
      PackStepInv(Pack(paras[..n], max), paras[n], max);
    }
  }

  /** The packed pieces: bounded, and no two neighbours tiny unless a hard tail meets a flushed buffer. */
  lemma PackedInv(paras: seq<string>, max: nat)
    requires max >= 1 && forall i :: 0 <= i < |paras| ==> IsPara(paras[i])
    ensures var pieces := Packed(paras, max);
      && (forall i :: 0 <= i < |pieces| ==> |pieces[i].text| <= max)
      && (forall i :: 0 <= i < |pieces| - 1 ==> PairInv(pieces[i], pieces[i + 1], max))
  {
    PackKeepsInv(paras, max);
    var st := Pack(paras, max);
    if st.buf != "" {
      FlushInv(st, max);
    } else {
      assert Strip("") == "";
    }
  }

  /** What the merge loop keeps: the pending text is at most a hard tail and a flushed buffer. */
  ghost predicate MergeInv(st: Merging, pieces: seq<Piece>, max: nat, min: int) {
    && (forall i :: 0 <= i < |st.merged| ==> |st.merged[i]| <= max)
    && (st.tmp != "" ==>
          && pieces != []
          && var last := pieces[|pieces| - 1];
          && |last.text| < min
          && (|st.tmp| < min || (!last.hard && |st.tmp| <= 2 * min)))
  }

  lemma {:induction false} MergeIsBounded(pieces: seq<Piece>, max: nat, min: int)
    requires min <= 1 || 2 * min <= max
    requires forall i :: 0 <= i < |pieces| ==> |pieces[i].text| <= max
    requires forall i :: 0 <= i < |pieces| - 1 ==> PairInv(pieces[i], pieces[i + 1], max)
    ensures MergeInv(Merge(Texts(pieces), min), pieces, max, min)
    ensures min <= 1 ==> Merge(Texts(pieces), min).tmp == ""
  {
    if pieces != [] {
      var n := |pieces| - 1;
      var front, p := pieces[..n], pieces[n];
      forall i | 0 <= i < |front| - 1
        ensures PairInv(front[i], front[i + 1], max)
      {
        assert PairInv(pieces[i], pieces[i + 1], max);
      }
      MergeIsBounded(front, max, min);
      assert Texts(pieces)[..n] == Texts(front);
      var st := Merge(Texts(front), min);
      if st.tmp != "" {
        NonSpaceStrip(st.tmp);
        assert PairInv(pieces[n - 1], pieces[n - 1 + 1], max);
      }
    }
  }

  /** With min <= 1 or 2 * min <= max no chunk of any document is longer than max. */
  lemma ChunksAreBounded(text: string, max: nat, min: int)
    requires max >= 1 && (min <= 1 || 2 * min <= max)
    ensures forall i :: 0 <= i < |ChunkTexts(text, max, min)| ==> |ChunkTexts(text, max, min)[i]| <= max
  {
    CleanFixpoints(text);
    var paras := Paragraphs(Clean(text));
    ParagraphsOfNormal(Clean(text));
    PackedInv(paras, max);
    var pieces := Packed(paras, max);
    MergeIsBounded(pieces, max, min);
    var st := Merge(Texts(pieces), min);
    NonSpaceStrip(st.tmp);
  }

  // ----- the bound is exact -----

  function Repeat(c: char, n: nat): (s: string) {
    seq(n, _ => c)
  }

  /** A part without breaks that does not end in a newline is split off first. */
  lemma {:induction false} SplitOff(p: string, rest: string)
    requires forall i :: 0 <= i < |p| - 1 ==> !(p[i] == '\n' && p[i + 1] == '\n')
    requires p != "" ==> p[|p| - 1] != '\n'
    ensures SplitParagraphs(p + BREAK + rest) == [p] + SplitParagraphs(rest)
  {
    var s := p + BREAK + rest;
    if p == "" {
      assert s == BREAK + rest && s[2..] == rest;
    } else {
      assert s[1..] == p[1..] + BREAK + rest;
      assert |p| > 1 ==> s[1] == p[0 + 1];
      SplitOff(p[1..], rest);
      assert [s[0]] + p[1..] == p;
    }
  }

  lemma {:induction false} SplitWhole(p: string)
    requires forall i :: 0 <= i < |p| - 1 ==> !(p[i] == '\n' && p[i + 1] == '\n')
    ensures SplitParagraphs(p) == [p]
  {
    if p != "" {
      assert |p| > 1 ==> !(p[0] == '\n' && p[0 + 1] == '\n');
      SplitWhole(p[1..]);
      assert [p[0]] + p[1..] == p;
    }
  }

  /** Two equal paragraphs of `k` letters. */
  function TwoWords(k: nat): string {
    Repeat('a', k) + BREAK + Repeat('a', k)
  }

  lemma TwoWordsNormal(k: nat)
    requires k >= 1
    ensures NormalText(TwoWords(k)) && IsPara(Repeat('a', k))
  {
    var t := TwoWords(k);
    forall i | 0 <= i < |t|
      ensures t[i] == if i == k || i == k + 1 then '\n' else 'a'
    {
    }
  }

  lemma TwoWordsSplit(k: nat)
    requires k >= 1
    ensures SplitParagraphs(TwoWords(k)) == [Repeat('a', k), Repeat('a', k)]
  {
    var w := Repeat('a', k);
    SplitWhole(w);
    SplitOff(w, w);
    assert [w] + [w] == [w, w];
  }

  lemma TwoWordsParagraphs(k: nat)
    requires k >= 1
    ensures Clean(TwoWords(k)) == TwoWords(k)
    ensures Paragraphs(TwoWords(k)) == [Repeat('a', k), Repeat('a', k)]
  {
    TwoWordsNormal(k);
    CleanFixpoints(TwoWords(k));
    TwoWordsSplit(k);
    KeptTwo(k);
  }

  lemma KeptTwo(k: nat)
    requires k >= 1
    ensures Kept([Repeat('a', k), Repeat('a', k)]) == [Repeat('a', k), Repeat('a', k)]
  {
    var w := Repeat('a', k);
    assert IsPara(w);
    KeptParas([w, w]);
  }

  lemma PackTwo(w: string, max: nat)
    requires max >= 1 && w != "" && Trimmed(w) && |w| <= max < 2 * |w| + 2
    ensures Packed([w, w], max) == [Piece(w, false), Piece(w, false)]
  {
    var paras := [w, w];
    StripTrimmed(w);
    assert paras[..1] == [w] && [w][..0] == [];
    assert Pack([w], max) == Packing([], w);
    assert Pack(paras, max) == Packing([Piece(w, false)], w);
  }

  lemma MergeTwo(w: string, min: int)
    requires w != "" && |w| < min
    ensures Merge([w, w], min) == Merging([], w + BREAK + w)
  {
    var texts := [w, w];
    assert texts[..1] == [w] && [w][..0] == [];
    assert Merge([w], min) == Merging([], w);
  }

  /** When the bound condition fails, two words show it. */
  lemma TwoWordsOverflow(max: nat, min: int)
    requires max >= 1 && min > 1 && 2 * min > max
    ensures var k := if min - 1 <= max then min - 1 else max;
      ChunkTexts(TwoWords(k), max, min) == [TwoWords(k)] && |TwoWords(k)| > max
  {
    var k := if min - 1 <= max then min - 1 else max;
    var w := Repeat('a', k);
    TwoWordsParagraphs(k);
    PackTwo(w, max);
    assert Texts([Piece(w, false), Piece(w, false)]) == [w, w];
    MergeTwo(w, min);
    StripTrimmed(TwoWords(k));
  }

  /** The settings under which every chunk of every document is at most max long. */
  lemma BoundIsExact(max: nat, min: int)
    requires max >= 1
    ensures (forall text, i :: 0 <= i < |ChunkTexts(text, max, min)| ==> |ChunkTexts(text, max, min)[i]| <= max)
      <==> (min <= 1 || 2 * min <= max)
  {
    if min <= 1 || 2 * min <= max {
      forall text {
        ChunksAreBounded(text, max, min);
      }
    } else {
      var k := if min - 1 <= max then min - 1 else max;
      TwoWordsOverflow(max, min);
      assert !(|ChunkTexts(TwoWords(k), max, min)[0]| <= max);
    }
  }

  // ----- the round trip -----

  function Small(paras: seq<string>, max: nat): bool {
    forall i :: 0 <= i < |paras| ==> |paras[i]| <= max
  }

  /** The texts so far, with the pending one at the end. */
  function Pending(texts: seq<string>, tmp: string): seq<string> {
    if tmp == "" then texts else texts + [tmp]
  }

  lemma JoinLast(front: seq<string>, last: string)
    ensures Join(front + [last], BREAK) == if front == [] then last else Join(front, BREAK) + BREAK + last
  {
    assert (front + [last])[..|front|] == front;
  }

  /** Extending the pending text and adding a text of its own read the same once joined. */
  lemma JoinPending(texts: seq<string>, tmp: string, p: string)
    requires tmp != ""
    ensures Join(texts + [tmp + BREAK + p], BREAK) == Join(texts + [tmp] + [p], BREAK)
  {
    JoinLast(texts, tmp + BREAK + p);
    JoinLast(texts, tmp);
    JoinLast(texts + [tmp], p);
    var j := Join(texts, BREAK);
    assert j + BREAK + (tmp + BREAK + p) == (j + BREAK + tmp) + BREAK + p;
  }

  lemma JoinTrimmed(a: string, b: string)
    requires Trimmed(a) && Trimmed(b) && a != "" && b != ""
    ensures Trimmed(a + BREAK + b)
  {
  }

  /** Packed pieces and buffer hold the paragraphs so far, with blank lines between. */
  ghost predicate Joined(st: Packing, paras: seq<string>) {
    && Join(Pending(Texts(st.pieces), st.buf), BREAK) == Join(paras, BREAK)
    && (paras == [] <==> st.buf == "") && (st.buf == "" ==> st.pieces == []) && Trimmed(st.buf)
    && (forall i :: 0 <= i < |st.pieces| ==> st.pieces[i].text != "" && Trimmed(st.pieces[i].text))
  }

  lemma PackStepJoins(st: Packing, paras: seq<string>, p: string, max: nat)
    requires max >= 1 && Joined(st, paras) && IsPara(p) && |p| <= max
    ensures Joined(PackStep(st, p, max), paras + [p])
  {
    var texts := Texts(st.pieces);
    JoinLast(paras, p);
    if st.buf == "" {
      assert texts == [] && paras == [];
    } else if |st.buf| + 2 + |p| <= max {
      JoinPending(texts, st.buf, p);
      JoinLast(texts + [st.buf], p);
      JoinTrimmed(st.buf, p);
    } else {
      StripTrimmed(st.buf);
      assert Texts(Flush(st).pieces) == texts + [st.buf];
      JoinLast(texts + [st.buf], p);
    }
  }

  lemma {:induction false} PackJoins(paras: seq<string>, max: nat)
    requires max >= 1 && Small(paras, max) && forall i :: 0 <= i < |paras| ==> IsPara(paras[i])
    ensures Joined(Pack(paras, max), paras)
  {
    if paras != [] {
      var n := |paras| - 1;
      PackJoins(paras[..n], max);
      PackStepJoins(Pack(paras[..n], max), paras[..n], paras[n], max);
      assert paras == paras[..n] + [paras[n]];
    }
  }

  lemma PackedJoins(paras: seq<string>, max: nat)
    requires max >= 1 && Small(paras, max) && forall i :: 0 <= i < |paras| ==> IsPara(paras[i])
    ensures Join(Texts(Packed(paras, max)), BREAK) == Join(paras, BREAK)
    ensures forall i :: 0 <= i < |Packed(paras, max)| ==>
      Packed(paras, max)[i].text != "" && Trimmed(Packed(paras, max)[i].text)
  {
    PackJoins(paras, max);
    var st := Pack(paras, max);
    StripTrimmed(st.buf);
    if st.buf != "" {
      assert Texts(Packed(paras, max)) == Texts(st.pieces) + [st.buf];
    }
  }

  /** Merged texts and pending text hold the texts so far, with blank lines between. */
  ghost predicate MergedJoined(st: Merging, texts: seq<string>) {
    Join(Pending(st.merged, st.tmp), BREAK) == Join(texts, BREAK) && Trimmed(st.tmp) && (texts == [] <==> Pending(st.merged, st.tmp) == [])
  }

  lemma SettleIsPending(st: Merging)
    requires Trimmed(st.tmp)
    ensures Settle(st) == Pending(st.merged, st.tmp)
  {
    StripTrimmed(st.tmp);
  }

  lemma {:induction false} MergeStepJoins(st: Merging, texts: seq<string>, p: string, min: int)
    requires MergedJoined(st, texts) && p != "" && Trimmed(p)
    ensures MergedJoined(MergeStep(st, p, min), texts + [p])
  {
    JoinLast(texts, p);
    if |p| >= min {
      SettleIsPending(st);
      JoinLast(Settle(st), p);
    } else if st.tmp != "" {
      JoinPending(st.merged, st.tmp, p);
      JoinLast(st.merged + [st.tmp], p);
      JoinTrimmed(st.tmp, p);
    } else {
      JoinLast(st.merged, p);
    }
  }

  lemma {:induction false} MergeJoins(texts: seq<string>, min: int)
    requires forall i :: 0 <= i < |texts| ==> texts[i] != "" && Trimmed(texts[i])
    ensures MergedJoined(Merge(texts, min), texts)
  {
    if texts != [] {
      var n := |texts| - 1;
      MergeJoins(texts[..n], min);
      MergeStepJoins(Merge(texts[..n], min), texts[..n], texts[n], min);
      assert texts == texts[..n] + [texts[n]];
    }
  }

  /** Every stretch of text longer than max between visible characters contains a blank line. */
  ghost predicate BreaksOften(t: string, max: nat) {
    forall i, j :: 0 <= i < j <= |t| && j - i > max && !IsSpace(t[i]) && !IsSpace(t[j - 1]) ==> HasBreak(t, i, j)
  }

  ghost predicate HasBreak(t: string, i: nat, j: nat)
    requires i <= j <= |t|
  {
    exists k :: i <= k < j - 1 && BreakAt(t, k)
  }

  predicate BreakAt(t: string, k: nat) {
    k + 1 < |t| && t[k] == '\n' && t[k + 1] == '\n'
  }

  lemma BreaksOftenPart(t: string, a: nat, b: nat, max: nat)
    requires BreaksOften(t, max) && a <= b <= |t|
    ensures BreaksOften(t[a..b], max)
  {
    var s := t[a..b];
    forall i, j | 0 <= i < j <= |s| && j - i > max && !IsSpace(s[i]) && !IsSpace(s[j - 1])
      ensures HasBreak(s, i, j)
    {
      assert HasBreak(t, a + i, a + j);
      var k :| a + i <= k < a + j - 1 && BreakAt(t, k);
      assert BreakAt(s, k - a);
    }
  }

  lemma BreaksOftenJoined(s: string, t: string, max: nat)
    requires BreaksOften(s, max) && BreaksOften(t, max)
    ensures BreaksOften(s + BREAK + t, max)
  {
    var r := s + BREAK + t;
    forall i, j | 0 <= i < j <= |r| && j - i > max && !IsSpace(r[i]) && !IsSpace(r[j - 1])
      ensures HasBreak(r, i, j)
    {
      if j <= |s| {
        assert s[i] == r[i] && s[j - 1] == r[j - 1];
        assert HasBreak(s, i, j);
        var k :| i <= k < j - 1 && BreakAt(s, k);
        assert BreakAt(r, k);
      } else if i >= |s| + 2 {
        var d := |s| + 2;
        assert t[i - d] == r[i] && t[j - d - 1] == r[j - 1];
        assert HasBreak(t, i - d, j - d);
        var k :| i - d <= k < j - d - 1 && BreakAt(t, k);
        assert BreakAt(r, k + d);
      } else {
        assert BreakAt(r, |s|);
      }
    }
  }

  lemma BreaksOftenStrip(t: string, max: nat)
    requires BreaksOften(t, max)
    ensures BreaksOften(Strip(t), max)
  {
    var i, j := StripParts(t);
    BreaksOftenPart(t, i, j, max);
  }

  lemma {:induction false} HardSplitBreaks(p: string, max: nat)
    requires max >= 1
    ensures forall i :: 0 <= i < |HardSplit(p, max)| ==> |HardSplit(p, max)[i]| <= max
    decreases |p|
  {
    if p == "" {
    } else if |p| <= max {
      NonSpaceStrip(p);
    } else {
      NonSpaceStrip(p[..max]);
      HardSplitBreaks(p[max..], max);
    }
  }

  lemma {:induction false} PackBreaks(paras: seq<string>, max: nat)
    requires max >= 1
    ensures BreaksOften(Pack(paras, max).buf, max)
    ensures forall i :: 0 <= i < |Pack(paras, max).pieces| ==> BreaksOften(Pack(paras, max).pieces[i].text, max)
  {
    if paras != [] {
      var n := |paras| - 1;
      PackBreaks(paras[..n], max);
      var st, p := Pack(paras[..n], max), paras[n];
      HardSplitBreaks(p, max);
      BreaksOftenStrip(st.buf, max);
      if |p| <= max {
        BreaksOftenJoined(st.buf, p, max);
      }
    }
  }

  lemma {:induction false} MergeBreaks(texts: seq<string>, max: nat, min: int)
    requires forall i :: 0 <= i < |texts| ==> BreaksOften(texts[i], max)
    ensures var st := Merge(texts, min);
      BreaksOften(st.tmp, max) && forall i :: 0 <= i < |st.merged| ==> BreaksOften(st.merged[i], max)
  {
    if texts != [] {
      var n := |texts| - 1;
      MergeBreaks(texts[..n], max, min);
      var st := Merge(texts[..n], min);
      BreaksOftenJoined(st.tmp, texts[n], max);
      BreaksOftenStrip(st.tmp, max);
    }
  }

  lemma {:induction false} JoinBreaks(texts: seq<string>, max: nat)
    requires forall i :: 0 <= i < |texts| ==> BreaksOften(texts[i], max)
    ensures BreaksOften(Join(texts, BREAK), max)
  {
    if |texts| > 1 {
      JoinBreaks(texts[..|texts| - 1], max);
      BreaksOftenJoined(Join(texts[..|texts| - 1], BREAK), texts[|texts| - 1], max);
    }
  }

  lemma {:induction false} JoinContains(parts: seq<string>, k: nat) returns (a: nat)
    requires k < |parts|
    ensures a + |parts[k]| <= |Join(parts, BREAK)| && Join(parts, BREAK)[a..a + |parts[k]|] == parts[k]
  {
    var n := |parts| - 1;
    if n == 0 {
      a := 0;
    } else if k == n {
      a := |Join(parts[..n], BREAK)| + 2;
    } else {
      a := JoinContains(parts[..n], k);
      var j := Join(parts[..n], BREAK);
      assert Join(parts, BREAK)[a..a + |parts[k]|] == j[a..a + |parts[k]|];
    }
  }

  lemma OversizedHasNoBreak(p: string, max: nat)
    requires IsPara(p) && |p| > max
    ensures !BreaksOften(p, max)
  {
    forall k | 0 <= k < |p| - 1
      ensures !BreakAt(p, k)
    {
      assert Apart(p[k], p[k + 1]);
    }
    assert !HasBreak(p, 0, |p|);
  }

  lemma ChunksBreakOften(text: string, max: nat, min: int)
    requires max >= 1
    ensures BreaksOften(Join(ChunkTexts(text, max, min), BREAK), max)
  {
    var paras := Paragraphs(Clean(text));
    var texts := Texts(Packed(paras, max));
    PackBreaks(paras, max);
    BreaksOftenStrip(Pack(paras, max).buf, max);
    MergeBreaks(texts, max, min);
    BreaksOftenStrip(Merge(texts, min).tmp, max);
    JoinBreaks(ChunkTexts(text, max, min), max);
  }

  lemma OversizedBreaksSeldom(paras: seq<string>, k: nat, max: nat)
    requires k < |paras| && IsPara(paras[k]) && |paras[k]| > max
    ensures !BreaksOften(Join(paras, BREAK), max)
  {
    var a := JoinContains(paras, k);
    OversizedHasNoBreak(paras[k], max);
    if BreaksOften(Join(paras, BREAK), max) {
      BreaksOftenPart(Join(paras, BREAK), a, a + |paras[k]|, max);
    }
  }

  lemma {:induction false} SmallJoins(text: string, max: nat, min: int)
    requires max >= 1 && Small(Paragraphs(Clean(text)), max)
    ensures Join(ChunkTexts(text, max, min), BREAK) == Clean(text)
  {
    var paras := Paragraphs(Clean(text));
    CleanFixpoints(text);
    ParagraphsOfNormal(Clean(text));
    PackedJoins(paras, max);
    MergeJoins(Texts(Packed(paras, max)), min);
    SettleIsPending(Merge(Texts(Packed(paras, max)), min));
  }

  /** Joining the chunks with blank lines gives the cleaned text back exactly when no paragraph is oversized. */
  lemma {:induction false} RoundTrip(text: string, max: nat, min: int)
    requires max >= 1
    ensures Join(ChunkTexts(text, max, min), BREAK) == Clean(text) <==> Small(Paragraphs(Clean(text)), max)
  {
    var paras := Paragraphs(Clean(text));
    if Small(paras, max) {
      SmallJoins(text, max, min);
    } else {
      var k :| 0 <= k < |paras| && |paras[k]| > max;
      assert IsPara(paras[k]) && Join(paras, BREAK) == Clean(text) by {
        CleanFixpoints(text);
        ParagraphsOfNormal(Clean(text));
      }
      OversizedBreaksSeldom(paras, k, max);
      ChunksBreakOften(text, max, min);
    }
  }

  // ----- conservation -----

  /** The visible characters of a list of texts, in order. */
  function Visible(texts: seq<string>): string {
    if texts == [] then "" else Visible(texts[..|texts| - 1]) + NonSpace(texts[|texts| - 1])
  }

  lemma VisibleLast(front: seq<string>, last: string)
    ensures Visible(front + [last]) == Visible(front) + NonSpace(last)
  {
    assert (front + [last])[..|front|] == front;
  }

  lemma {:induction false} VisibleConcat(a: seq<string>, b: seq<string>)
    ensures Visible(a + b) == Visible(a) + Visible(b)
  {
    if b == [] {
      assert a + b == a;
    } else {
      var n := |b| - 1;
      assert a + b == (a + b[..n]) + [b[n]];
      VisibleConcat(a, b[..n]);
      VisibleLast(a + b[..n], b[n]);
    }
  }

  lemma {:induction false} JoinVisible(texts: seq<string>)
    ensures NonSpace(Join(texts, BREAK)) == Visible(texts)
  {
    if texts == [] {
    } else if |texts| == 1 {
      assert texts[..0] == [];
    } else {
      var n := |texts| - 1;
      JoinVisible(texts[..n]);
      assert Join(texts, BREAK) == Join(texts[..n], BREAK) + BREAK + texts[n];
      NonSpaceConcat(Join(texts[..n], BREAK) + BREAK, texts[n]);
      NonSpaceConcat(Join(texts[..n], BREAK), BREAK);
      NonSpaceOfSpaces(BREAK);
    }
  }

  lemma VisibleOne(text: string)
    ensures Visible([text]) == NonSpace(text)
  {
    assert [] + [text] == [text];
    VisibleLast([], text);
  }

  lemma {:induction false} HardSplitVisible(p: string, max: nat)
    requires max >= 1
    ensures Visible(HardSplit(p, max)) == NonSpace(p)
    decreases |p|
  {
    if p == "" {
    } else if |p| <= max {
      NonSpaceStrip(p);
      VisibleOne(Strip(p));
    } else {
      var head, rest := p[..max], p[max..];
      HardSplitVisible(rest, max);
      VisibleConcat([Strip(head)], HardSplit(rest, max));
      VisibleOne(Strip(head));
      NonSpaceStrip(head);
      NonSpaceConcat(head, rest);
      assert p == head + rest;
    }
  }

  /** The texts of the hard pieces, or of the others, in order. */
  function OfKind(pieces: seq<Piece>, hard: bool): seq<string> {
    if pieces == [] then []
    else
      var last := pieces[|pieces| - 1];
      OfKind(pieces[..|pieces| - 1], hard) + (if last.hard == hard then [last.text] else [])
  }

  /** The oversized paragraphs, or the others, in order. */
  function OfSize(paras: seq<string>, max: nat, oversized: bool): seq<string> {
    if paras == [] then []
    else
      var last := paras[|paras| - 1];
      OfSize(paras[..|paras| - 1], max, oversized) + (if (|last| > max) == oversized then [last] else [])
  }

  lemma {:induction false} OfKindConcat(a: seq<Piece>, b: seq<Piece>, hard: bool)
    ensures OfKind(a + b, hard) == OfKind(a, hard) + OfKind(b, hard)
  {
    if b == [] {
      assert a + b == a;
    } else {
      var n := |b| - 1;
      assert (a + b)[..|a + b| - 1] == a + b[..n];
      OfKindConcat(a, b[..n], hard);
    }
  }

  lemma {:induction false} HardPiecesKind(parts: seq<string>)
    ensures OfKind(HardPieces(parts), true) == parts && OfKind(HardPieces(parts), false) == []
  {
    if parts != [] {
      var n := |parts| - 1;
      assert HardPieces(parts)[..n] == HardPieces(parts[..n]);
      HardPiecesKind(parts[..n]);
      assert parts == parts[..n] + [parts[n]];
    }
  }

  lemma OfKindLast(front: seq<Piece>, last: Piece, hard: bool)
    ensures OfKind(front + [last], hard) == if last.hard == hard then OfKind(front, hard) + [last.text] else OfKind(front, hard)
  {
    assert (front + [last])[..|front|] == front;
  }

  lemma PackHardStep(pieces: seq<Piece>, p: string, max: nat)
    requires max >= 1
    ensures var next := pieces + HardPieces(HardSplit(p, max));
      && Visible(OfKind(next, true)) == Visible(OfKind(pieces, true)) + NonSpace(p)
      && OfKind(next, false) == OfKind(pieces, false)
  {
    var parts := HardSplit(p, max);
    HardSplitVisible(p, max);
    HardPiecesKind(parts);
    OfKindConcat(pieces, HardPieces(parts), true);
    OfKindConcat(pieces, HardPieces(parts), false);
    VisibleConcat(OfKind(pieces, true), parts);
  }

  /** Oversized paragraphs keep their order through the packing pass. */
  lemma {:induction false} PackKeepsHardOrder(paras: seq<string>, max: nat)
    requires max >= 1
    ensures Visible(OfKind(Pack(paras, max).pieces, true)) == Visible(OfSize(paras, max, true))
  {
    if paras != [] {
      var n := |paras| - 1;
      PackKeepsHardOrder(paras[..n], max);
      var st, p := Pack(paras[..n], max), paras[n];
      if |p| > max {
        PackHardStep(st.pieces, p, max);
        VisibleLast(OfSize(paras[..n], max, true), p);
      } else {
        SoftStepKind(st, p, max);
        assert OfSize(paras, max, true) == OfSize(paras[..n], max, true);
      }
    }
  }

  lemma SoftStepKind(st: Packing, p: string, max: nat)
    requires max >= 1 && |p| <= max
    ensures OfKind(PackStep(st, p, max).pieces, true) == OfKind(st.pieces, true)
  {
    OfKindLast(st.pieces, Piece(Strip(st.buf), false), true);
  }

  /** Normal paragraphs keep their order, and the text between them, through the packing pass. */
  lemma {:induction false} PackKeepsSoftOrder(paras: seq<string>, max: nat)
    requires max >= 1 && forall i :: 0 <= i < |paras| ==> IsPara(paras[i])
    ensures var st := Pack(paras, max);
      && Join(Pending(OfKind(st.pieces, false), st.buf), BREAK) == Join(OfSize(paras, max, false), BREAK)
      && Trimmed(st.buf) && (st.buf == "" ==> OfKind(st.pieces, false) == [])
      && (OfSize(paras, max, false) == [] <==> st.buf == "")
  {
    if paras != [] {
      var n := |paras| - 1;
      PackKeepsSoftOrder(paras[..n], max);
      var st, p := Pack(paras[..n], max), paras[n];
      var normal := OfSize(paras[..n], max, false);
      if |p| > max {
        PackHardStep(st.pieces, p, max);
        assert OfSize(paras, max, false) == normal;
      } else {
        PackSoftStep(st, normal, p, max);
        assert OfSize(paras, max, false) == normal + [p];
      }
    }
  }

  lemma PackSoftStep(st: Packing, normal: seq<string>, p: string, max: nat)
    requires max >= 1 && IsPara(p) && |p| <= max && Trimmed(st.buf)
    requires Join(Pending(OfKind(st.pieces, false), st.buf), BREAK) == Join(normal, BREAK)
    requires (st.buf == "" ==> OfKind(st.pieces, false) == []) && (normal == [] <==> st.buf == "")
    ensures var next := PackStep(st, p, max);
      && Join(OfKind(next.pieces, false) + [next.buf], BREAK) == Join(normal + [p], BREAK)
      && Trimmed(next.buf) && next.buf != ""
  {
    var soft := OfKind(st.pieces, false);
    JoinLast(normal, p);
    if st.buf == "" {
      assert [] + [p] == [p];
    } else {
      JoinLast(soft + [st.buf], p);
      JoinPending(soft, st.buf, p);
      JoinTrimmed(st.buf, p);
      StripTrimmed(st.buf);
      OfKindLast(st.pieces, Piece(st.buf, false), false);
    }
  }

  lemma PackedKeepsOrder(paras: seq<string>, max: nat)
    requires max >= 1 && forall i :: 0 <= i < |paras| ==> IsPara(paras[i])
    ensures Visible(OfKind(Packed(paras, max), true)) == Visible(OfSize(paras, max, true))
    ensures Join(OfKind(Packed(paras, max), false), BREAK) == Join(OfSize(paras, max, false), BREAK)
  {
    PackKeepsHardOrder(paras, max);
    PackKeepsSoftOrder(paras, max);
    var st := Pack(paras, max);
    StripTrimmed(st.buf);
    OfKindLast(st.pieces, Piece(st.buf, false), false);
    OfKindLast(st.pieces, Piece(st.buf, false), true);
  }

  /** The merge pass keeps all visible characters in order. */
  lemma {:induction false} MergeKeepsVisible(texts: seq<string>, min: int)
    ensures Visible(texts) == Visible(Merge(texts, min).merged) + NonSpace(Merge(texts, min).tmp)
  {
    if texts != [] {
      var n := |texts| - 1;
      MergeKeepsVisible(texts[..n], min);
      MergeStepVisible(Merge(texts[..n], min), texts[n], min);
    }
  }

  lemma MergeStepVisible(st: Merging, p: string, min: int)
    ensures var next := MergeStep(st, p, min);
      Visible(next.merged) + NonSpace(next.tmp) == (Visible(st.merged) + NonSpace(st.tmp)) + NonSpace(p)
  {
    if |p| < min {
      VisibleExtended(st.tmp, p);
    } else {
      SettleVisible(st);
      VisibleLast(Settle(st), p);
    }
  }

  lemma SettleVisible(st: Merging)
    ensures Visible(Settle(st)) == Visible(st.merged) + NonSpace(st.tmp)
  {
    NonSpaceStrip(st.tmp);
    VisibleLast(st.merged, Strip(st.tmp));
  }

  lemma NonSpaceConcat3(a: string, b: string, c: string)
    ensures NonSpace(a + b + c) == NonSpace(a) + NonSpace(b) + NonSpace(c)
  {
    NonSpaceConcat(a + b, c);
    NonSpaceConcat(a, b);
  }

  lemma VisibleExtended(tmp: string, p: string)
    ensures NonSpace(tmp + BREAK + p) == NonSpace(tmp) + NonSpace(p)
  {
    NonSpaceConcat3(tmp, BREAK, p);
    NonSpaceOfSpaces(BREAK);
    assert NonSpace(tmp) + "" == NonSpace(tmp);
  }

  /** How often a visible character occurs in a list of texts. */
  function Tally(texts: seq<string>, c: char): nat {
    if texts == [] then 0 else Tally(texts[..|texts| - 1], c) + multiset(NonSpace(texts[|texts| - 1]))[c]
  }

  lemma {:induction false} TallyIsVisible(texts: seq<string>, c: char)
    ensures Tally(texts, c) == multiset(Visible(texts))[c]
  {
    if texts != [] {
      TallyIsVisible(texts[..|texts| - 1], c);
    }
  }

  lemma TallyLast(front: seq<string>, last: string, c: char)
    ensures Tally(front + [last], c) == Tally(front, c) + multiset(NonSpace(last))[c]
  {
    assert (front + [last])[..|front|] == front;
  }

  lemma {:induction false} KindTally(front: seq<Piece>, last: Piece, hard: bool, c: char)
    ensures Tally(OfKind(front + [last], hard), c) ==
      Tally(OfKind(front, hard), c) + (if last.hard == hard then multiset(NonSpace(last.text))[c] else 0)
  {
    OfKindLast(front, last, hard);
    TallyLast(OfKind(front, hard), last.text, c);
  }

  lemma TextsLast(front: seq<Piece>, last: Piece)
    ensures Texts(front + [last]) == Texts(front) + [last.text]
  {
  }

  lemma TextsTally(front: seq<Piece>, last: Piece, c: char)
    ensures Tally(Texts(front + [last]), c) == Tally(Texts(front), c) + multiset(NonSpace(last.text))[c]
  {
    TextsLast(front, last);
    TallyLast(Texts(front), last.text, c);
  }

  lemma {:induction false} KindsTogether(pieces: seq<Piece>, c: char)
    ensures Tally(Texts(pieces), c) == Tally(OfKind(pieces, true), c) + Tally(OfKind(pieces, false), c)
  {
    if pieces != [] {
      var n := |pieces| - 1;
      var front, last := pieces[..n], pieces[n];
      assert pieces == front + [last];
      KindsTogether(front, c);
      OneMoreKind(front, last, c);
    }
  }

  lemma {:induction false} OneMoreKind(front: seq<Piece>, last: Piece, c: char)
    requires Tally(Texts(front), c) == Tally(OfKind(front, true), c) + Tally(OfKind(front, false), c)
    ensures var all := front + [last]; Tally(Texts(all), c) == Tally(OfKind(all, true), c) + Tally(OfKind(all, false), c)
  {
    TextsTally(front, last, c);
    KindTally(front, last, true, c);
    KindTally(front, last, false, c);
  }

  lemma {:induction false} SizesTogether(paras: seq<string>, max: nat, c: char)
    ensures Tally(paras, c) == Tally(OfSize(paras, max, true), c) + Tally(OfSize(paras, max, false), c)
  {
    if paras != [] {
      var n := |paras| - 1;
      var front, last := paras[..n], paras[n];
      SizesTogether(front, max, c);
      TallyLast(OfSize(front, max, |last| > max), last, c);
      assert OfSize(paras, max, !(|last| > max)) == OfSize(front, max, !(|last| > max));
    }
  }

  lemma {:induction false} SameTally(a: seq<string>, b: seq<string>, c: char)
    requires Visible(a) == Visible(b)
    ensures Tally(a, c) == Tally(b, c)
  {
    TallyIsVisible(a, c);
    TallyIsVisible(b, c);
  }

  lemma {:induction false} PackedKeepsTally(paras: seq<string>, max: nat, c: char)
    requires max >= 1 && forall i :: 0 <= i < |paras| ==> IsPara(paras[i])
    ensures Tally(Texts(Packed(paras, max)), c) == Tally(paras, c)
  {
    var pieces := Packed(paras, max);
    PackedKeepsOrder(paras, max);
    JoinVisible(OfKind(pieces, false));
    JoinVisible(OfSize(paras, max, false));
    SameTally(OfKind(pieces, true), OfSize(paras, max, true), c);
    SameTally(OfKind(pieces, false), OfSize(paras, max, false), c);
    KindsTogether(pieces, c);
    SizesTogether(paras, max, c);
  }

  lemma {:induction false} PackedKeepsVisible(paras: seq<string>, max: nat)
    requires max >= 1 && forall i :: 0 <= i < |paras| ==> IsPara(paras[i])
    ensures multiset(Visible(Texts(Packed(paras, max)))) == multiset(Visible(paras))
  {
    var texts := Texts(Packed(paras, max));
    forall c
      ensures multiset(Visible(texts))[c] == multiset(Visible(paras))[c]
    {
      PackedKeepsTally(paras, max, c);
      TallyIsVisible(texts, c);
      TallyIsVisible(paras, c);
    }
  }

  lemma ParagraphsKeepVisible(text: string)
    ensures Visible(Paragraphs(Clean(text))) == NonSpace(text)
    ensures forall i :: 0 <= i < |Paragraphs(Clean(text))| ==> IsPara(Paragraphs(Clean(text))[i])
  {
    CleanKeepsVisible(text);
    CleanFixpoints(text);
    ParagraphsOfNormal(Clean(text));
    JoinVisible(Paragraphs(Clean(text)));
  }

  /** Chunking any document keeps every visible character, counted with multiplicity. */
  lemma {:induction false} ChunksKeepVisible(text: string, max: nat, min: int)
    requires max >= 1
    ensures multiset(Visible(ChunkTexts(text, max, min))) == multiset(NonSpace(text))
  {
    var paras := Paragraphs(Clean(text));
    var texts := Texts(Packed(paras, max));
    ParagraphsKeepVisible(text);
    PackedKeepsVisible(paras, max);
    MergeKeepsVisible(texts, min);
    SettleVisible(Merge(texts, min));
  }
}
