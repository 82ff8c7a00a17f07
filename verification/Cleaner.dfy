/** The cleaner: normalises the text of a document and replaces it by bounded chunks. */
module Cleaner {
  import opened Wrappers
  import opened Text
  import opened CleanText
  import opened Chunking

  class Chunk {
    const text: string
    var order: int
    const sourceUrl: string
    const title: Option<string>

    constructor (text: string, order: int, sourceUrl: string, title: Option<string>)
      ensures this.text == text && this.order == order && this.sourceUrl == sourceUrl && this.title == title
    {
      this.text, this.order, this.sourceUrl, this.title := text, order, sourceUrl, title;
    }
  }

  class Document {
    const url: string
    const title: Option<string>
    var text: string
    var chunks: seq<Chunk>

    constructor (url: string, title: Option<string>, text: string)
      ensures this.url == url && this.title == title && this.text == text && this.chunks == []
    {
      this.url, this.title, this.text, this.chunks := url, title, text, [];
    }
  }

  /** The texts of chunk objects, in order. */
  function TextsOf(chunks: seq<Chunk>): (r: seq<string>) {
    seq(|chunks|, i requires 0 <= i < |chunks| => chunks[i].text)
  }

  /** Chunk objects of one document, no object twice. */
  ghost predicate ChunksOf(chunks: seq<Chunk>, doc: Document) {
    && (forall i :: 0 <= i < |chunks| ==> chunks[i].sourceUrl == doc.url && chunks[i].title == doc.title)
    && (forall i, j :: 0 <= i < j < |chunks| ==> chunks[i] != chunks[j])
  }

  /** The chunks of a list that are in `keep`, as the same objects in the same order. */
  function Among(chunks: seq<Chunk>, keep: set<Chunk>): seq<Chunk> {
    if chunks == [] then []
    else
      var c := chunks[|chunks| - 1];
      Among(chunks[..|chunks| - 1], keep) + if c in keep then [c] else []
  }

  lemma AmongLast(chunks: seq<Chunk>, c: Chunk, keep: set<Chunk>)
    ensures Among(chunks + [c], keep) == Among(chunks, keep) + if c in keep then [c] else []
  {
    assert (chunks + [c])[..|chunks|] == chunks;
  }

  lemma AmongNext(chunks: seq<Chunk>, i: nat, keep: set<Chunk>)
    requires i < |chunks|
    ensures Among(chunks[..i + 1], keep) == Among(chunks[..i], keep) + if chunks[i] in keep then [chunks[i]] else []
  {
    assert chunks[..i + 1] == chunks[..i] + [chunks[i]];
    AmongLast(chunks[..i], chunks[i], keep);
  }

  function LongEnough(chunks: seq<Chunk>, min: int): set<Chunk> {
    set c | c in chunks && |c.text| >= min
  }

  function Elements(chunks: seq<Chunk>): set<Chunk> {
    set c | c in chunks
  }

  lemma AddLong(doc: Document, merged: seq<Chunk>, ch: Chunk, all: set<Chunk>)
    requires ChunksOf(merged, doc) && ch !in merged && ch.sourceUrl == doc.url && ch.title == doc.title
    ensures ChunksOf(merged + [ch], doc) && TextsOf(merged + [ch]) == TextsOf(merged) + [ch.text]
    ensures Among(merged + [ch], all) == Among(merged, all) + if ch in all then [ch] else []
  {
    AmongLast(merged, ch, all);
    TextsOfLast(merged, ch);
  }

  /** One turn of the hard-split loop. */
  lemma HardSplitStep(p: string, start: nat, end: nat, max: nat)
    requires max >= 1 && start < |p| && end == if start + max <= |p| then start + max else |p|
    ensures HardSplit(p[start..], max) == [Strip(p[start..end])] + HardSplit(if end < |p| then p[end..] else "", max)
  {
    if end < |p| {
      assert p[start..][..max] == p[start..end] && p[start..][max..] == p[end..];
    } else {
      assert p[start..end] == p[start..];
    }
  }

  /** The pieces cut off before `start`, and what is left, make the hard split. */
  ghost predicate SplitSoFar(p: string, max: nat, start: int, done: seq<string>)
    requires max >= 1
  {
    start >= 0 && HardSplit(p, max) == done + HardSplit(if start < |p| then p[start..] else "", max)
  }

  lemma SplitOne(p: string, max: nat, start: nat, end: nat, done: seq<string>)
    requires max >= 1 && start < |p| && end == if start + max <= |p| then start + max else |p|
    requires SplitSoFar(p, max, start, done)
    ensures SplitSoFar(p, max, start + max, done + [Strip(p[start..end])])
  {
    HardSplitStep(p, start, end, max);
    var rest := HardSplit(if end < |p| then p[end..] else "", max);
    assert done + ([Strip(p[start..end])] + rest) == done + [Strip(p[start..end])] + rest;
  }

  lemma SplitAll(p: string, max: nat, start: int, done: seq<string>)
    requires max >= 1 && start >= |p| && SplitSoFar(p, max, start, done)
    ensures done == HardSplit(p, max)
  {
    assert HardSplit("", max) == [];
  }

  lemma TextsOfLast(chunks: seq<Chunk>, c: Chunk)
    ensures TextsOf(chunks + [c]) == TextsOf(chunks) + [c.text]
  {
  }

  class Cleaner {
    const maxChunkChars: nat
    const minChunkChars: int

    /** The hard-split loop advances by `maxChunkChars`, so it ends only if that is positive. */
    constructor (maxChunkChars: nat, minChunkChars: int)
      requires maxChunkChars >= 1
      ensures this.maxChunkChars == maxChunkChars && this.minChunkChars == minChunkChars
    {
      this.maxChunkChars, this.minChunkChars := maxChunkChars, minChunkChars;
    }

    /**
      Replaces the text of `doc` by its cleaned text and its chunks by fresh ones, numbered
      from zero, whose texts are those of the three passes.
     */
    method ChunkDocument(doc: Document) returns (merged: seq<Chunk>)
      requires maxChunkChars >= 1
      modifies doc
      ensures doc.text == Clean(old(doc.text))
      ensures doc.chunks == merged
      ensures ChunksOf(merged, doc) && forall c :: c in merged ==> fresh(c)
      ensures TextsOf(merged) == ChunkTexts(old(doc.text), maxChunkChars, minChunkChars)
      ensures forall i :: 0 <= i < |merged| ==> merged[i].order == i
    {
      var cleaned := CleanedText(doc.text);
      var paras := Paragraphs(cleaned);
      var chunks := PackParagraphs(doc, paras);
      merged := MergeTiny(doc, chunks);
      assert forall i :: 0 <= i < |merged| ==> merged[i] in merged;
      Renumber(merged);
      doc.text := cleaned;
      doc.chunks := merged;
    }

    method PackParagraphs(doc: Document, paras: seq<string>) returns (chunks: seq<Chunk>)
      requires maxChunkChars >= 1
      ensures ChunksOf(chunks, doc) && forall c :: c in chunks ==> fresh(c)
      ensures TextsOf(chunks) == Texts(Packed(paras, maxChunkChars))
    {
      chunks := [];
      var buf, order := "", 0;
      for i := 0 to |paras|
        invariant ChunksOf(chunks, doc) && forall c :: c in chunks ==> fresh(c)
        invariant buf == Pack(paras[..i], maxChunkChars).buf
        invariant TextsOf(chunks) == Texts(Pack(paras[..i], maxChunkChars).pieces)
      {
        assert paras[..i + 1][..i] == paras[..i];
        var p := paras[i];
        if |p| > maxChunkChars {
          chunks, order := SplitHard(doc, p, chunks, order);
        } else if buf == "" {
          buf := p;
        } else if |buf| + 2 + |p| <= maxChunkChars {
          buf := buf + "\n\n" + p;
        } else {
          chunks, buf, order := FlushBuf(doc, chunks, buf, order);
          buf := p;
        }
      }
      assert paras[..|paras|] == paras;
      chunks, buf, order := FlushBuf(doc, chunks, buf, order);
    }

    /** A new chunk of the document at the end of the list. */
    method Append(doc: Document, chunks: seq<Chunk>, text: string, order: int) returns (chunks': seq<Chunk>)
      requires ChunksOf(chunks, doc)
      ensures ChunksOf(chunks', doc) && |chunks'| == |chunks| + 1 && chunks'[..|chunks|] == chunks && fresh(chunks'[|chunks|])
      ensures TextsOf(chunks') == TextsOf(chunks) + [text]
      ensures forall c :: c in chunks' ==> c in chunks || fresh(c)
    {
      var c := new Chunk(text, order, doc.url, doc.title);
      chunks' := chunks + [c];
      TextsOfLast(chunks, c);
    }

    /** Tiny texts that were joined become a chunk, which is none of the earlier ones. */
    method AppendJoined(doc: Document, chunks: seq<Chunk>, tmp: string, order: int, ghost all: set<Chunk>) returns (chunks': seq<Chunk>)
      requires ChunksOf(chunks, doc)
      ensures ChunksOf(chunks', doc) && TextsOf(chunks') == Settle(Merging(TextsOf(chunks), tmp))
      ensures forall c :: c in chunks' ==> c in chunks || fresh(c)
      ensures Among(chunks', all) == Among(chunks, all)
    {
      if tmp == "" {
        return chunks;
      }
      chunks' := Append(doc, chunks, Strip(tmp), order);
      assert chunks' == chunks + [chunks'[|chunks|]];
      AmongLast(chunks, chunks'[|chunks|], all);
    }

    method FlushBuf(doc: Document, chunks: seq<Chunk>, buf: string, order: int)
      returns (chunks': seq<Chunk>, buf': string, order': int)
      requires ChunksOf(chunks, doc)
      ensures ChunksOf(chunks', doc) && forall c :: c in chunks' ==> c in chunks || fresh(c)
      ensures if Strip(buf) == "" then chunks' == chunks && buf' == buf
        else TextsOf(chunks') == TextsOf(chunks) + [Strip(buf)] && buf' == ""
    {
      chunks', buf', order' := chunks, buf, order;
      if Strip(buf) == "" {
        return;
      }
      chunks' := Append(doc, chunks, Strip(buf), order);
      buf', order' := "", order + 1;
    }

    method SplitHard(doc: Document, p: string, chunks: seq<Chunk>, order: int)
      returns (chunks': seq<Chunk>, order': int)
      requires maxChunkChars >= 1 && ChunksOf(chunks, doc)
      ensures ChunksOf(chunks', doc) && forall c :: c in chunks' ==> c in chunks || fresh(c)
      ensures TextsOf(chunks') == TextsOf(chunks) + HardSplit(p, maxChunkChars)
    {
      chunks', order' := chunks, order;
      var start := 0;
      ghost var done: seq<string> := [];
      while start < |p|
        invariant SplitSoFar(p, maxChunkChars, start, done)
        invariant ChunksOf(chunks', doc) && forall c :: c in chunks' ==> c in chunks || fresh(c)
        invariant TextsOf(chunks') == TextsOf(chunks) + done
        decreases |p| - start
      {
        var end := if start + maxChunkChars <= |p| then start + maxChunkChars else |p|;
        chunks' := Append(doc, chunks', Strip(p[start..end]), order');
        order' := order' + 1;
        SplitOne(p, maxChunkChars, start, end, done);
        done := done + [Strip(p[start..end])];
        start := start + maxChunkChars;
      }
      SplitAll(p, maxChunkChars, start, done);
    }

    /** The chunks that are long enough stay, as the same objects in the same order; all others are new. */
    method MergeTiny(doc: Document, chunks: seq<Chunk>) returns (merged: seq<Chunk>)
      requires ChunksOf(chunks, doc)
      ensures ChunksOf(merged, doc) && forall c :: c in merged ==> c in chunks || fresh(c)
      ensures TextsOf(merged) == Settle(Merge(TextsOf(chunks), minChunkChars))
      ensures Among(merged, Elements(chunks)) == Among(chunks, LongEnough(chunks, minChunkChars))
    {
      merged := [];
      var tmp, tmpOrder := "", 0;
      ghost var texts, all, long := TextsOf(chunks), Elements(chunks), LongEnough(chunks, minChunkChars);
      for i := 0 to |chunks|
        invariant ChunksOf(merged, doc)
        invariant forall c :: c in merged ==> c in chunks[..i] || fresh(c)
        invariant Merging(TextsOf(merged), tmp) == Merge(texts[..i], minChunkChars)
        invariant Among(merged, all) == Among(chunks[..i], long)
      {
        assert texts[..i + 1][..i] == texts[..i];
        var ch := chunks[i];
        AmongNext(chunks, i, long);
        if |ch.text| < minChunkChars {
          if tmp == "" {
            tmp, tmpOrder := ch.text, ch.order;
          } else {
            tmp := tmp + "\n\n" + ch.text;
          }
        } else {
          merged := AppendJoined(doc, merged, tmp, tmpOrder, all);
          tmp := "";
          assert !fresh(ch) && ch !in chunks[..i];
          AddLong(doc, merged, ch, all);
          merged := merged + [ch];
        }
      }
      assert texts[..|chunks|] == texts && chunks[..|chunks|] == chunks;
      merged := AppendJoined(doc, merged, tmp, tmpOrder, all);
    }

    method Renumber(merged: seq<Chunk>)
      requires forall i, j :: 0 <= i < j < |merged| ==> merged[i] != merged[j]
      modifies merged
      ensures forall i :: 0 <= i < |merged| ==> merged[i].order == i
    {
      for i := 0 to |merged|
        invariant forall j :: 0 <= j < i ==> merged[j].order == j
      {
        merged[i].order := i;
      }
    }
  }
}
