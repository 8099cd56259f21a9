/** The text chunker of `api/tts.js`: text is packed greedily into chunks of at
    most `MaxChunkSize` UTF-16 code units (JavaScript's `length`), splitting on paragraphs first, then on
    sentences, then on words.

    The sentence splitter of the source (`SentenceMatchesAsWritten`) skips text
    that is not followed by a sentence terminator; the chunker here uses the
    corrected splitter `SplitSentences`, which keeps every character, and
    `ChunkLongParagraphAsWritten` keeps the behaviour as written for comparison. */
module Chunker {
  import opened Seqs
  import opened Text

  /** `MAX_CHUNK_SIZE`: the longest text sent to the backend in one request. */
  const MaxChunkSize := 1900

  /** A chunk as the backend receives it: non-empty, trimmed, and within the limit
      unless it is one white-space-free word that is longer than the limit. */
  predicate ChunkOk(c: string)
  {
    c != [] && Trimmed(c) && (!TooLong(c) || NoSpace(c))
  }

  /** `s.length > MAX_CHUNK_SIZE`, with the length in UTF-16 code units. */
  predicate TooLong(s: string)
  {
    Utf16Length(s) > MaxChunkSize
  }

  /** `currentChunk.length + item.length + sep.length > MAX_CHUNK_SIZE`: the
      source writes the separator's length as the literal `2` ("\n\n") or `1` (" "). */
  predicate Overflows(current: string, item: string, sep: string)
  {
    Utf16Length(current) + Utf16Length(item) + Utf16Length(sep) > MaxChunkSize
  }

  predicate AllOk(cs: seq<string>)
  {
    forall k :: 0 <= k < |cs| ==> ChunkOk(cs[k])
  }

  // ---------------------------------------------------------------------------
  // The greedy packing loop

  /** The state of one packing loop: the chunks pushed so far and `currentChunk`. */
  datatype Packer = Packer(chunks: seq<string>, current: string)

  const Empty := Packer([], [])

  /** `if (currentChunk.trim()) chunks.push(currentChunk.trim())`. */
  function Flush(chunks: seq<string>, current: string): seq<string>
  {
    if Trim(current) != [] then chunks + [Trim(current)] else chunks
  }

  /** The chunks a loop returns once its input is exhausted. */
  function Finish(p: Packer): seq<string>
  {
    Flush(p.chunks, p.current)
  }

  /** `currentChunk += (currentChunk ? sep : '') + item`. */
  function Append(current: string, sep: string, item: string): string
  {
    current + (if current != [] then sep else []) + item
  }

  /** One iteration of the paragraph loop of `chunkText` (with `sep` = "\n\n")
      or of the sentence loop of `chunkLongParagraph` (with `sep` = " "): `t` is
      the trimmed paragraph (sentence) and `long` is what the next level makes of
      it, used only when `t` alone exceeds the limit. The length test
      `current.length + t.length + sep.length` is the source's `+ 2` and `+ 1`. */
  function PackStep(p: Packer, t: string, sep: string, long: seq<string>): Packer
  {
    if t == [] then p
    else if Overflows(p.current, t, sep) then
      var q := if Trim(p.current) != [] then Packer(p.chunks + [Trim(p.current)], []) else p;
      if TooLong(t) then Packer(q.chunks + long, q.current)
      else Packer(q.chunks, t)
    else Packer(p.chunks, Append(p.current, sep, t))
  }

  /** The loop itself: `items[k]` is the k-th trimmed paragraph (sentence) and
      `longs[k]` its fallback chunking. */
  function Pack(p: Packer, items: seq<string>, sep: string, longs: seq<seq<string>>): Packer
    requires |longs| == |items|
    decreases |items|
  {
    if items == [] then p
    else Pack(PackStep(p, items[0], sep, longs[0]), items[1..], sep, longs[1..])
  }

  function TrimEach(xs: seq<string>): (r: seq<string>)
    ensures |r| == |xs|
    ensures forall k :: 0 <= k < |xs| ==> r[k] == Trim(xs[k])
  {
    seq(|xs|, k requires 0 <= k < |xs| => Trim(xs[k]))
  }

  // ---------------------------------------------------------------------------
  // chunkByWords

  /** One iteration of the loop of `chunkByWords`. */
  function WordStep(p: Packer, word: string): Packer
  {
    if Overflows(p.current, word, " ") then Packer(Flush(p.chunks, p.current), word)
    else Packer(p.chunks, Append(p.current, " ", word))
  }

  function PackWords(p: Packer, words: seq<string>): Packer
    decreases |words|
  {
    if words == [] then p else PackWords(WordStep(p, words[0]), words[1..])
  }

  /** `chunkByWords`: the words of `text` packed greedily, separated by one space. */
  function ChunkByWords(text: string): (r: seq<string>)
    ensures AllOk(r)
  {
    SplitSpacesShape(text);
    PackWordsOk(Empty, SplitSpaces(text));
    Finish(PackWords(Empty, SplitSpaces(text)))
  }

  function WordFallbacks(items: seq<string>): (r: seq<seq<string>>)
    ensures |r| == |items|
    ensures forall k :: 0 <= k < |items| ==> r[k] == ChunkByWords(items[k])
  {
    seq(|items|, k requires 0 <= k < |items| => ChunkByWords(items[k]))
  }

  // ---------------------------------------------------------------------------
  // Sentence splitting

  predicate IsTerminator(c: char)
  {
    c == '.' || c == '!' || c == '?'
  }

  /** Length of the leading run of characters other than `.`, `!` and `?`. */
  function TextRun(s: string): (i: nat)
    ensures i <= |s|
    ensures forall p :: 0 <= p < i ==> !IsTerminator(s[p])
    ensures i < |s| ==> IsTerminator(s[i])
    decreases |s|
  {
    if s == [] || IsTerminator(s[0]) then 0
    else
      var i' := TextRun(s[1..]);
      assert forall p :: 1 <= p < 1 + i' ==> s[p] == s[1..][p - 1];
      1 + i'
  }

  /** Length of the leading run of `.`, `!` and `?`. */
  function TerminatorRun(s: string): (k: nat)
    ensures k <= |s|
    ensures s != [] && IsTerminator(s[0]) ==> k > 0
    decreases |s|
  {
    if s != [] && IsTerminator(s[0]) then 1 + TerminatorRun(s[1..]) else 0
  }

  /** Where `[.!?]+[\s]*` starting at the terminator `s[q]` stops. */
  function SentenceEnd(s: string, q: nat): (w: nat)
    requires q < |s| && IsTerminator(s[q])
    ensures q < w <= |s|
  {
    var r := q + TerminatorRun(s[q..]);
    r + LeadingSpaces(s[r..])
  }

  /** `paragraph.match(/[^.!?]+[.!?]+[\s]*\/g)` as written, with `[]` for no match:
      a match must start with a non-terminator, so terminators at the start of the
      text and every character after the last terminator are skipped. */
  function SentenceMatchesAsWritten(s: string): seq<string>
    decreases |s|
  {
    if s == [] then []
    else if IsTerminator(s[0]) then SentenceMatchesAsWritten(s[1..])
    else
      var q := TextRun(s);
      if q == |s| then []
      else
        var w := SentenceEnd(s, q);
        [s[..w]] + SentenceMatchesAsWritten(s[w..])
  }

  /** The corrected splitter, `/[^.!?]*[.!?]+\s*|[^.!?]+$/g`: the same sentences,
      but the pieces partition the text, so no character is lost. */
  function SplitSentences(s: string): (r: seq<string>)
    ensures Concat(r) == s
    decreases |s|
  {
    if s == [] then []
    else
      var q := TextRun(s);
      if q == |s| then
        ConcatCons(s, []);
        [s]
      else
        var w := SentenceEnd(s, q);
        var rest := SplitSentences(s[w..]);
        ConcatSplit(s, w, rest);
        [s[..w]] + rest
  }

  lemma {:induction false} ConcatSplit(s: string, w: nat, rest: seq<string>)
    requires w <= |s| && Concat(rest) == s[w..]
    ensures Concat([s[..w]] + rest) == s
  {
    ConcatCons(s[..w], rest);
    assert s[..w] + s[w..] == s;
  }

  /** The `|| [paragraph]` fallback of `chunkLongParagraph`. */
  function OrWhole(matches: seq<string>, paragraph: string): seq<string>
  {
    if matches == [] then [paragraph] else matches
  }

  /** The sentence loop of `chunkLongParagraph` over a given sentence list. */
  function PackSentences(sentences: seq<string>): (r: seq<string>)
    ensures AllOk(r)
  {
    var items := TrimEach(sentences);
    PackOk(Empty, items, " ", WordFallbacks(items));
    Finish(Pack(Empty, items, " ", WordFallbacks(items)))
  }

  /** The sentences `chunkLongParagraph` packs, with the corrected splitter. */
  function Sentences(paragraph: string): seq<string>
  {
    OrWhole(SplitSentences(paragraph), paragraph)
  }

  /** The sentences `chunkLongParagraph` packs, as written. */
  function SentencesAsWritten(paragraph: string): seq<string>
  {
    OrWhole(SentenceMatchesAsWritten(paragraph), paragraph)
  }

  /** `chunkLongParagraph` with the corrected sentence splitter. */
  function ChunkLongParagraph(paragraph: string): (r: seq<string>)
    ensures AllOk(r)
  {
    PackSentences(Sentences(paragraph))
  }

  /** `chunkLongParagraph` exactly as written. */
  function ChunkLongParagraphAsWritten(paragraph: string): (r: seq<string>)
    ensures AllOk(r)
  {
    PackSentences(SentencesAsWritten(paragraph))
  }

  function ParagraphFallbacks(items: seq<string>): (r: seq<seq<string>>)
    ensures |r| == |items|
    ensures forall k :: 0 <= k < |items| ==> r[k] == ChunkLongParagraph(items[k])
  {
    seq(|items|, k requires 0 <= k < |items| => ChunkLongParagraph(items[k]))
  }

  // ---------------------------------------------------------------------------
  // Paragraph splitting and chunkText

  /** The first position of "\n\n", or `|s|` when there is none. */
  function FirstBreak(s: string): (i: nat)
    ensures i <= |s|
    ensures i < |s| ==> i + 1 < |s| && s[i] == '\n' && s[i + 1] == '\n'
    decreases |s|
  {
    if |s| < 2 then |s|
    else if s[0] == '\n' && s[1] == '\n' then 0
    else 1 + FirstBreak(s[1..])
  }

  /** `text.split(/\n\n+/)`. */
  function SplitParagraphs(s: string): (r: seq<string>)
    ensures |r| >= 1
    decreases |s|
  {
    var i := FirstBreak(s);
    if i == |s| then [s]
    else
      var j := i + NewlineRun(s[i..]);
      [s[..i]] + SplitParagraphs(s[j..])
  }

  /** `chunkText`: the paragraphs of `text` packed greedily, separated by a blank
      line, each over-long paragraph chunked by `ChunkLongParagraph`. */
  function ChunkText(text: string): (r: seq<string>)
    ensures AllOk(r)
  {
    var items := TrimEach(SplitParagraphs(text));
    PackOk(Empty, items, "\n\n", ParagraphFallbacks(items));
    Finish(Pack(Empty, items, "\n\n", ParagraphFallbacks(items)))
  }

  // ---------------------------------------------------------------------------
  // Bounds: every chunk is ChunkOk

  lemma {:induction false} FlushOk(chunks: seq<string>, current: string)
    requires AllOk(chunks) && (!TooLong(current) || NoSpace(current))
    ensures AllOk(Flush(chunks, current))
  {
    var t := Trim(current);
    Utf16Trim(current);
    if t != [] {
      if NoSpace(current) {
        assert Trimmed(current);
      }
    }
  }

  lemma {:induction false} PackStepOk(p: Packer, t: string, sep: string, long: seq<string>)
    requires AllOk(p.chunks) && !TooLong(p.current) && AllOk(long)
    ensures AllOk(PackStep(p, t, sep, long).chunks)
    ensures !TooLong(PackStep(p, t, sep, long).current)
  {
    if t != [] && Overflows(p.current, t, sep) {
      var f := Flush(p.chunks, p.current);
      FlushOk(p.chunks, p.current);
      if TooLong(t) {
        assert PackStep(p, t, sep, long).chunks == f + long;
        AllOkAppend(f, long);
      } else {
        assert PackStep(p, t, sep, long) == Packer(f, t);
      }
    } else if t != [] {
      AppendFits(p.current, sep, t);
    }
  }

  /** An item that does not overflow the current chunk fits with it. */
  lemma {:induction false} AppendFits(current: string, sep: string, t: string)
    requires !Overflows(current, t, sep)
    ensures !TooLong(Append(current, sep, t))
  {
    var gap := if current != [] then sep else [];
    Utf16Append(current + gap, t);
    Utf16Append(current, gap);
  }

  lemma {:induction false} AllOkAppend(xs: seq<string>, ys: seq<string>)
    requires AllOk(xs) && AllOk(ys)
    ensures AllOk(xs + ys)
  {
    forall k | 0 <= k < |xs + ys|
      ensures ChunkOk((xs + ys)[k])
    {
      if k < |xs| {
        assert (xs + ys)[k] == xs[k];
      } else {
        assert (xs + ys)[k] == ys[k - |xs|];
      }
    }
  }

  lemma {:induction false} PackOk(p: Packer, items: seq<string>, sep: string, longs: seq<seq<string>>)
    requires |longs| == |items|
    requires AllOk(p.chunks) && !TooLong(p.current)
    requires forall k :: 0 <= k < |longs| ==> AllOk(longs[k])
    ensures AllOk(Finish(Pack(p, items, sep, longs)))
    ensures !TooLong(Pack(p, items, sep, longs).current)
    decreases |items|
  {
    if items == [] {
      FlushOk(p.chunks, p.current);
    } else {
      PackStepOk(p, items[0], sep, longs[0]);
      PackOk(PackStep(p, items[0], sep, longs[0]), items[1..], sep, longs[1..]);
    }
  }

  lemma {:induction false} PackWordsOk(p: Packer, words: seq<string>)
    requires AllOk(p.chunks) && (!TooLong(p.current) || NoSpace(p.current))
    requires forall k :: 0 <= k < |words| ==> NoSpace(words[k])
    ensures AllOk(Finish(PackWords(p, words)))
    decreases |words|
  {
    if words == [] {
      FlushOk(p.chunks, p.current);
    } else {
      if Overflows(p.current, words[0], " ") {
        FlushOk(p.chunks, p.current);
      } else {
        AppendFits(p.current, " ", words[0]);
      }
      PackWordsOk(WordStep(p, words[0]), words[1..]);
    }
  }

  // ---------------------------------------------------------------------------
  // No text is lost: the chunks hold the non-white-space characters of the input

  /** The non-white-space characters a packer holds, in order. */
  function InkOf(p: Packer): string
  {
    Ink(Concat(p.chunks)) + Ink(p.current)
  }

  lemma {:induction false} InkConcatAppend(xs: seq<string>, ys: seq<string>)
    ensures Ink(Concat(xs + ys)) == Ink(Concat(xs)) + Ink(Concat(ys))
  {
    ConcatAppend(xs, ys);
    InkAppend(Concat(xs), Concat(ys));
  }

  lemma {:induction false} InkConcatPointwise(xs: seq<string>, ys: seq<string>)
    requires |xs| == |ys|
    requires forall k :: 0 <= k < |xs| ==> Ink(xs[k]) == Ink(ys[k])
    ensures Ink(Concat(xs)) == Ink(Concat(ys))
    decreases |xs|
  {
    if xs != [] {
      InkConcatPointwise(xs[1..], ys[1..]);
      InkAppend(xs[0], Concat(xs[1..]));
      InkAppend(ys[0], Concat(ys[1..]));
    }
  }

  lemma {:induction false} TrimEachInk(xs: seq<string>)
    ensures Ink(Concat(TrimEach(xs))) == Ink(Concat(xs))
  {
    forall k | 0 <= k < |xs|
      ensures Ink(TrimEach(xs)[k]) == Ink(xs[k])
    {
      InkTrim(xs[k]);
    }
    InkConcatPointwise(TrimEach(xs), xs);
  }

  lemma {:induction false} FlushInk(chunks: seq<string>, current: string)
    ensures Ink(Concat(Flush(chunks, current))) == Ink(Concat(chunks)) + Ink(current)
  {
    InkTrim(current);
    if Trim(current) != [] {
      ConcatSnoc(chunks, Trim(current));
      InkAppend(Concat(chunks), Trim(current));
    }
  }

  lemma {:induction false} PackStepInk(p: Packer, t: string, sep: string, long: seq<string>)
    requires Blank(sep) && Ink(Concat(long)) == Ink(t)
    ensures InkOf(PackStep(p, t, sep, long)) == InkOf(p) + Ink(t)
  {
    if t == [] {
    } else if Overflows(p.current, t, sep) {
      OverflowInk(p, t, sep, long);
    } else {
      AppendInk(p.current, sep, t);
    }
  }

  lemma {:induction false} OverflowInk(p: Packer, t: string, sep: string, long: seq<string>)
    requires t != [] && Overflows(p.current, t, sep) && Ink(Concat(long)) == Ink(t)
    ensures InkOf(PackStep(p, t, sep, long)) == InkOf(p) + Ink(t)
  {
    var q := if Trim(p.current) != [] then Packer(p.chunks + [Trim(p.current)], []) else p;
    FlushedInk(p);
    if TooLong(t) {
      assert PackStep(p, t, sep, long) == Packer(q.chunks + long, q.current);
      InkConcatAppend(q.chunks, long);
      assert InkOf(Packer(q.chunks + long, q.current)) == InkOf(p) + Ink(t) + [];
    } else {
      assert PackStep(p, t, sep, long) == Packer(q.chunks, t);
    }
  }

  /** Flushing the current chunk keeps the ink and leaves none in the current chunk. */
  lemma {:induction false} FlushedInk(p: Packer)
    ensures var q := if Trim(p.current) != [] then Packer(p.chunks + [Trim(p.current)], []) else p;
      Ink(q.current) == [] && Ink(Concat(q.chunks)) == InkOf(p)
  {
    FlushInk(p.chunks, p.current);
    InkTrim(p.current);
  }

  /** Appending with a blank separator adds exactly the ink of the item. */
  lemma {:induction false} AppendInk(current: string, sep: string, t: string)
    requires Blank(sep)
    ensures Ink(Append(current, sep, t)) == Ink(current) + Ink(t)
  {
    var gap := if current != [] then sep else [];
    InkAppend(current + gap, t);
    InkAppend(current, gap);
    InkBlank(gap);
  }

  lemma {:induction false} PackInk(p: Packer, items: seq<string>, sep: string, longs: seq<seq<string>>)
    requires |longs| == |items| && Blank(sep)
    requires forall k :: 0 <= k < |items| ==> Ink(Concat(longs[k])) == Ink(items[k])
    ensures InkOf(Pack(p, items, sep, longs)) == InkOf(p) + Ink(Concat(items))
    decreases |items|
  {
    if items != [] {
      var p' := PackStep(p, items[0], sep, longs[0]);
      var rest, restLongs := items[1..], longs[1..];
      forall k | 0 <= k < |rest|
        ensures Ink(Concat(restLongs[k])) == Ink(rest[k])
      {
        assert rest[k] == items[k + 1] && restLongs[k] == longs[k + 1];
      }
      calc {
        InkOf(Pack(p, items, sep, longs));
        InkOf(Pack(p', rest, sep, restLongs));
        { PackInk(p', rest, sep, restLongs); }
        InkOf(p') + Ink(Concat(rest));
        { PackStepInk(p, items[0], sep, longs[0]); }
        InkOf(p) + Ink(items[0]) + Ink(Concat(rest));
        { Assoc(InkOf(p), Ink(items[0]), Ink(Concat(rest))); InkAppend(items[0], Concat(rest)); }
        InkOf(p) + Ink(items[0] + Concat(rest));
        { ConcatCons(items[0], rest); assert [items[0]] + rest == items; }
        InkOf(p) + Ink(Concat(items));
      }
    }
  }

  lemma {:induction false} WordStepInk(p: Packer, word: string)
    ensures InkOf(WordStep(p, word)) == InkOf(p) + Ink(word)
  {
    if Overflows(p.current, word, " ") {
      FlushInk(p.chunks, p.current);
    } else {
      InkBlank(" ");
      AppendInk(p.current, " ", word);
    }
  }

  lemma {:induction false} PackWordsInk(p: Packer, words: seq<string>)
    ensures InkOf(PackWords(p, words)) == InkOf(p) + Ink(Concat(words))
    decreases |words|
  {
    if words != [] {
      var q := WordStep(p, words[0]);
      assert PackWords(p, words) == PackWords(q, words[1..]);
      assert Concat(words) == words[0] + Concat(words[1..]);
      WordStepInk(p, words[0]);
      PackWordsInk(q, words[1..]);
      InkAppend(words[0], Concat(words[1..]));
      assert InkOf(p) + Ink(words[0]) + Ink(Concat(words[1..])) == InkOf(p) + (Ink(words[0]) + Ink(Concat(words[1..])));
    }
  }

  /** `chunkByWords` keeps every non-white-space character, in order. */
  lemma {:induction false} ChunkByWordsInk(text: string)
    ensures Ink(Concat(ChunkByWords(text))) == Ink(text)
  {
    var ws := SplitSpaces(text);
    SplitSpacesShape(text);
    PackWordsInk(Empty, ws);
    FlushInk(PackWords(Empty, ws).chunks, PackWords(Empty, ws).current);
    SplitSpacesInk(text);
    InkConcatNoSpace(ws);
  }

  /** The sentence list `chunkLongParagraph` packs (corrected splitter) covers the paragraph. */
  lemma {:induction false} SentencesInk(paragraph: string)
    ensures Ink(Concat(Sentences(paragraph))) == Ink(paragraph)
  {
    if SplitSentences(paragraph) == [] {
      ConcatCons(paragraph, []);
    }
  }

  /** `chunkLongParagraph` (corrected) keeps every non-white-space character, in order. */
  lemma {:induction false} ChunkLongParagraphInk(paragraph: string)
    ensures Ink(Concat(ChunkLongParagraph(paragraph))) == Ink(paragraph)
  {
    var ss := Sentences(paragraph);
    var items := TrimEach(ss);
    var longs := WordFallbacks(items);
    forall k | 0 <= k < |items|
      ensures Ink(Concat(longs[k])) == Ink(items[k])
    {
      ChunkByWordsInk(items[k]);
    }
    InkBlank(" ");
    PackInk(Empty, items, " ", longs);
    var r := Pack(Empty, items, " ", longs);
    FlushInk(r.chunks, r.current);
    TrimEachInk(ss);
    SentencesInk(paragraph);
  }

  /** `text.split(/\n\n+/)` drops only line feeds: the paragraphs, one after the
      other, are the text with some line feeds taken out, so they keep its ink and
      every other character, in order. */
  lemma {:induction false} SplitParagraphsInk(s: string)
    ensures Ink(Concat(SplitParagraphs(s))) == Ink(s)
    ensures Without(Concat(SplitParagraphs(s)), {'\n'}) == Without(s, {'\n'})
    decreases |s|
  {
    var i := FirstBreak(s);
    if i == |s| {
      assert SplitParagraphs(s) == [s];
      ConcatCons(s, []);
      assert [s] + [] == [s];
      assert Concat([s]) == s;
      assert Ink(Concat(SplitParagraphs(s))) == Ink(s);
    } else {
      var j := i + NewlineRun(s[i..]);
      var rest := SplitParagraphs(s[j..]);
      assert SplitParagraphs(s) == [s[..i]] + rest;
      RunIsBlank(s, i, j);
      SplitParagraphsInk(s[j..]);
      ConcatCons(s[..i], rest);
      InkAppend(s[..i], Concat(rest));
      InkSkipBlank(s, i, j);
      WithoutAppend(s[..i], Concat(rest), {'\n'});
      WithoutSkipBreaks(s, i, j);
    }
  }

  /** Cutting a run of line feeds out of a text keeps its other characters. */
  lemma {:induction false} WithoutSkipBreaks(s: string, i: nat, j: nat)
    requires i <= |s| && j == i + NewlineRun(s[i..])
    ensures j <= |s|
    ensures Without(s, {'\n'}) == Without(s[..i], {'\n'}) + Without(s[j..], {'\n'})
  {
    forall p | 0 <= p < j - i
      ensures s[i..j][p] in {'\n'}
    {
      assert s[i..j][p] == s[i..][p];
    }
    WithoutOnly(s[i..j], {'\n'});
    assert s == s[..i] + s[i..j] + s[j..];
    WithoutAppend(s[..i] + s[i..j], s[j..], {'\n'});
    WithoutAppend(s[..i], s[i..j], {'\n'});
    assert Without(s[..i], {'\n'}) + [] == Without(s[..i], {'\n'});
  }

  /** The run of line feeds at `i` is white space. */
  lemma {:induction false} RunIsBlank(s: string, i: nat, j: nat)
    requires i <= |s| && j == i + NewlineRun(s[i..])
    ensures j <= |s| && Blank(s[i..j])
  {
    forall p | 0 <= p < j - i
      ensures IsSpace(s[i..j][p])
    {
      assert s[i..j][p] == s[i..][p];
    }
  }

  /** Cutting white space out of a text keeps its ink. */
  lemma {:induction false} InkSkipBlank(s: string, i: nat, j: nat)
    requires i <= j <= |s| && Blank(s[i..j])
    ensures Ink(s) == Ink(s[..i]) + Ink(s[j..])
  {
    assert s == s[..i] + s[i..j] + s[j..];
    InkAppend3(s[..i], s[i..j], s[j..]);
    InkBlank(s[i..j]);
    assert Ink(s[..i]) + [] + Ink(s[j..]) == Ink(s[..i]) + Ink(s[j..]);
  }

  /** The main guarantee of the chunker: the chunks, one after the other, hold
      exactly the non-white-space characters of the text, in order. */
  lemma {:induction false} ChunkTextInk(text: string)
    ensures Ink(Concat(ChunkText(text))) == Ink(text)
  {
    var ps := SplitParagraphs(text);
    var items := TrimEach(ps);
    var longs := ParagraphFallbacks(items);
    forall k | 0 <= k < |items|
      ensures Ink(Concat(longs[k])) == Ink(items[k])
    {
      ChunkLongParagraphInk(items[k]);
    }
    InkBlank("\n\n");
    PackInk(Empty, items, "\n\n", longs);
    var r := Pack(Empty, items, "\n\n", longs);
    FlushInk(r.chunks, r.current);
    TrimEachInk(ps);
    SplitParagraphsInk(text);
  }

  // ---------------------------------------------------------------------------
  // Regrouping: when nothing needs splitting, chunks only regroup their pieces

  lemma {:induction false} JoinMerge(c: seq<string>, a: string, b: string, sep: string)
    ensures Join(c + [a + sep + b], sep) == Join(c + [a, b], sep)
  {
    assert c + [a, b] == (c + [a]) + [b];
    if c == [] {
      assert Join([a, b], sep) == a + sep + Join([b], sep);
    } else {
      JoinSnoc(c, a + sep + b, sep);
      JoinSnoc(c + [a], b, sep);
      JoinSnoc(c, a, sep);
    }
  }

  lemma {:induction false} JoinCongruence(a: seq<string>, b: seq<string>, c: seq<string>, sep: string)
    requires a != [] && b != [] && Join(a, sep) == Join(b, sep)
    ensures Join(a + c, sep) == Join(b + c, sep)
  {
    if c == [] {
      assert a + c == a && b + c == b;
    } else {
      JoinAppend(a, c, sep);
      JoinAppend(b, c, sep);
    }
  }

  lemma {:induction false} JoinCons(a: seq<string>, xs: seq<string>, sep: string)
    requires xs != []
    ensures Join(a + [xs[0]] + xs[1..], sep) == Join(a + xs, sep)
  {
    assert a + [xs[0]] + xs[1..] == a + xs;
  }

  lemma {:induction false} JoinStep(a: seq<string>, b: seq<string>, t: string, rest: seq<string>, sep: string)
    requires a != [] && Join(a, sep) == Join(b + [t], sep)
    ensures Join(a + rest, sep) == Join(b + ([t] + rest), sep)
  {
    JoinCongruence(a, b + [t], rest, sep);
    assert b + [t] + rest == b + ([t] + rest);
  }

  lemma {:induction false} NonEmptyAppend(xs: seq<string>, ys: seq<string>)
    ensures NonEmpty(xs + ys) == NonEmpty(xs) + NonEmpty(ys)
    decreases |xs|
  {
    if xs == [] {
      assert xs + ys == ys;
    } else {
      assert (xs + ys)[1..] == xs[1..] + ys;
      NonEmptyAppend(xs[1..], ys);
    }
  }

  /** Trimming a trimmed text followed by one space gives the text back. */
  lemma {:induction false} TrimSpaceAfter(s: string)
    requires Trimmed(s) && s != []
    ensures Trim(s + " ") == s
  {
    var x := s + " ";
    var r := Trim(x);
    assert LeadingSpaces(x) == 0;
    assert r == x[..|r|];
  }

  lemma {:induction false} WordStepJoin(p: Packer, w: string)
    requires Trimmed(p.current) && w != [] && NoSpace(w)
    ensures Trimmed(WordStep(p, w).current)
    ensures Finish(WordStep(p, w)) != []
    ensures Join(Finish(WordStep(p, w)), " ") == Join(Finish(p) + [w], " ")
  {
    assert Trimmed(w);
    var c, cur := p.chunks, p.current;
    if Overflows(cur, w, " ") {
    } else if cur != [] {
      assert Trimmed(cur + " " + w);
      assert Finish(p) == c + [cur];
      JoinMerge(c, cur, w, " ");
      assert c + [cur, w] == Finish(p) + [w];
    }
  }

  lemma {:induction false} PackWordsJoin(p: Packer, words: seq<string>)
    requires Trimmed(p.current)
    requires forall k :: 0 <= k < |words| ==> words[k] != [] && NoSpace(words[k])
    ensures Trimmed(PackWords(p, words).current)
    ensures Join(Finish(PackWords(p, words)), " ") == Join(Finish(p) + words, " ")
    decreases |words|
  {
    if words == [] {
      assert Finish(p) + words == Finish(p);
    } else {
      var w, rest := words[0], words[1..];
      var p' := WordStep(p, w);
      assert forall k :: 0 <= k < |rest| ==> rest[k] == words[k + 1];
      WordStepJoin(p, w);
      PackWordsJoin(p', rest);
      assert PackWords(p, words) == PackWords(p', rest);
      JoinCongruence(Finish(p'), Finish(p) + [w], rest, " ");
      JoinCons(Finish(p), words, " ");
    }
  }

  lemma {:induction false} PackWordsSnoc(p: Packer, words: seq<string>, w: string)
    ensures PackWords(p, words + [w]) == WordStep(PackWords(p, words), w)
    decreases |words|
  {
    if words == [] {
      assert words + [w] == [w];
    } else {
      assert (words + [w])[1..] == words[1..] + [w];
      PackWordsSnoc(WordStep(p, words[0]), words[1..], w);
    }
  }

  /** The empty word `split(/\s+/)` yields for trailing white space emits nothing. */
  lemma {:induction false} WordStepEmpty(p: Packer)
    requires Trimmed(p.current)
    ensures Finish(WordStep(p, [])) == Finish(p)
  {
    if !Overflows(p.current, [], " ") && p.current != [] {
      assert Append(p.current, " ", []) == p.current + " ";
      TrimSpaceAfter(p.current);
    }
  }

  /** Packing a list of non-empty words from the start joins them back. */
  lemma {:induction false} PackWordsJoinAll(words: seq<string>)
    requires forall k :: 0 <= k < |words| ==> words[k] != [] && NoSpace(words[k])
    ensures Trimmed(PackWords(Empty, words).current)
    ensures Join(Finish(PackWords(Empty, words)), " ") == Join(words, " ")
  {
    var e := Empty;
    assert Trimmed(e.current);
    PackWordsJoin(e, words);
    FinishEmpty();
    assert Finish(e) + words == words;
  }

  /** A packer that holds nothing emits no chunk. */
  lemma {:induction false} FinishEmpty()
    ensures Finish(Empty) == []
  {
    assert Trim([]) == [];
  }

  /** The empty first piece `split(/\s+/)` yields for leading white space is skipped. */
  lemma {:induction false} PackWordsSkipLeading(words: seq<string>)
    requires words != [] && words[0] == []
    ensures PackWords(Empty, words) == PackWords(Empty, words[1..])
  {
    assert WordStep(Empty, []) == Empty;
  }

  /** The empty last piece `split(/\s+/)` yields for trailing white space emits nothing. */
  lemma {:induction false} PackWordsDropTrailing(words: seq<string>)
    requires forall k :: 0 <= k < |words| ==> words[k] != [] && NoSpace(words[k])
    ensures Finish(PackWords(Empty, words + [[]])) == Finish(PackWords(Empty, words))
  {
    PackWordsJoinAll(words);
    PackWordsSnoc(Empty, words, []);
    WordStepEmpty(PackWords(Empty, words));
  }

  /** A piece list whose pieces are all non-empty except perhaps the last. */
  lemma {:induction false} PackPiecesJoin(ws: seq<string>)
    requires forall k :: 0 <= k < |ws| ==> NoSpace(ws[k])
    requires forall k :: 0 <= k < |ws| - 1 ==> ws[k] != []
    ensures Join(Finish(PackWords(Empty, ws)), " ") == Join(NonEmpty(ws), " ")
  {
    if ws == [] {
    } else if ws[|ws| - 1] != [] {
      PackWordsJoinAll(ws);
      NonEmptyOfNonEmpty(ws);
    } else {
      var mid := ws[..|ws| - 1];
      assert ws == mid + [[]];
      assert forall k :: 0 <= k < |mid| ==> mid[k] == ws[k];
      calc {
        Join(Finish(PackWords(Empty, ws)), " ");
        Join(Finish(PackWords(Empty, mid + [[]])), " ");
        { PackWordsDropTrailing(mid); }
        Join(Finish(PackWords(Empty, mid)), " ");
        { PackWordsJoinAll(mid); }
        Join(mid, " ");
        { NonEmptyOfNonEmpty(mid); }
        Join(NonEmpty(mid), " ");
        { NonEmptyAppend(mid, [[]]);
          assert NonEmpty([[]]) == NonEmpty([]);
          assert NonEmpty(mid) + [] == NonEmpty(mid); }
        Join(NonEmpty(mid + [[]]), " ");
        Join(NonEmpty(ws), " ");
      }
    }
  }

  /** The pieces of `split(/\s+/)`: only the first and the last may be empty. */
  lemma {:induction false} PackSplitJoin(ws: seq<string>)
    requires |ws| >= 1
    requires forall k :: 0 <= k < |ws| ==> NoSpace(ws[k])
    requires forall k :: 0 < k < |ws| - 1 ==> ws[k] != []
    ensures Join(Finish(PackWords(Empty, ws)), " ") == Join(NonEmpty(ws), " ")
  {
    if ws[0] == [] {
      PackSplitLeading(ws);
    } else {
      PackPiecesJoin(ws);
    }
  }

  /** The empty first piece of `split(/\s+/)` neither emits nor joins anything. */
  lemma {:induction false} PackSplitLeading(ws: seq<string>)
    requires |ws| >= 1 && ws[0] == []
    requires forall k :: 0 <= k < |ws| ==> NoSpace(ws[k])
    requires forall k :: 0 < k < |ws| - 1 ==> ws[k] != []
    ensures Join(Finish(PackWords(Empty, ws)), " ") == Join(NonEmpty(ws), " ")
  {
    var rest := ws[1..];
    assert PackWords(Empty, ws) == PackWords(Empty, rest) by {
      PackWordsSkipLeading(ws);
    }
    assert Join(Finish(PackWords(Empty, rest)), " ") == Join(NonEmpty(rest), " ") by {
      forall k | 0 <= k < |rest|
        ensures NoSpace(rest[k]) && (k < |rest| - 1 ==> rest[k] != [])
      {
        assert rest[k] == ws[k + 1];
      }
      PackPiecesJoin(rest);
    }
    NonEmptySkip(ws);
  }

  lemma {:induction false} NonEmptySkip(ws: seq<string>)
    requires ws != [] && ws[0] == []
    ensures NonEmpty(ws) == NonEmpty(ws[1..])
  {
  }

  /** `chunkByWords` regroups the words of the text and nothing else: joined by
      single spaces, the chunks are the words joined by single spaces. */
  lemma {:induction false} ChunkByWordsJoin(text: string)
    ensures Join(ChunkByWords(text), " ") == Join(Words(text), " ")
  {
    SplitSpacesShape(text);
    PackSplitJoin(SplitSpaces(text));
  }

  lemma {:induction false} PackStepJoin(p: Packer, t: string, sep: string, long: seq<string>)
    requires Trimmed(p.current) && Trimmed(t) && !TooLong(t)
    ensures Trimmed(PackStep(p, t, sep, long).current)
    ensures t == [] ==> PackStep(p, t, sep, long) == p
    ensures t != [] ==> Finish(PackStep(p, t, sep, long)) != []
    ensures t != [] ==> Join(Finish(PackStep(p, t, sep, long)), sep) == Join(Finish(p) + [t], sep)
  {
    var c, cur := p.chunks, p.current;
    if t != [] && !Overflows(cur, t, sep) && cur != [] {
      assert Trimmed(cur + sep + t);
      assert Finish(p) == c + [cur];
      JoinMerge(c, cur, t, sep);
      assert c + [cur, t] == Finish(p) + [t];
    }
  }

  lemma {:induction false} PackJoin(p: Packer, items: seq<string>, sep: string, longs: seq<seq<string>>)
    requires |longs| == |items| && Trimmed(p.current)
    requires forall k :: 0 <= k < |items| ==> Trimmed(items[k]) && !TooLong(items[k])
    ensures Trimmed(Pack(p, items, sep, longs).current)
    ensures Join(Finish(Pack(p, items, sep, longs)), sep) == Join(Finish(p) + NonEmpty(items), sep)
    decreases |items|
  {
    if items == [] {
      assert Finish(p) + [] == Finish(p);
    } else {
      var t := items[0];
      var p' := PackStep(p, t, sep, longs[0]);
      var rest, restLongs := items[1..], longs[1..];
      assert forall k :: 0 <= k < |rest| ==> rest[k] == items[k + 1];
      PackStepJoin(p, t, sep, longs[0]);
      PackJoin(p', rest, sep, restLongs);
      if t != [] {
        assert NonEmpty(items) == [t] + NonEmpty(rest);
        JoinStep(Finish(p'), Finish(p), t, NonEmpty(rest), sep);
      }
    }
  }

  /** When no paragraph is longer than the limit, `chunkText` only regroups the
      trimmed, non-empty paragraphs: joined by blank lines, the chunks are the
      paragraphs joined by blank lines. */
  lemma {:induction false} ChunkTextJoin(text: string)
    requires forall k :: 0 <= k < |SplitParagraphs(text)| ==> !TooLong(Trim(SplitParagraphs(text)[k]))
    ensures Join(ChunkText(text), "\n\n") == Join(NonEmpty(TrimEach(SplitParagraphs(text))), "\n\n")
  {
    var items := TrimEach(SplitParagraphs(text));
    PackJoin(Empty, items, "\n\n", ParagraphFallbacks(items));
    FinishEmpty();
    assert [] + NonEmpty(items) == NonEmpty(items);
  }

  /** The same at the sentence level of `chunkLongParagraph`: when no sentence
      is longer than the limit, the chunks regroup the trimmed sentences. */
  lemma {:induction false} ChunkLongParagraphJoin(paragraph: string)
    requires forall k :: 0 <= k < |Sentences(paragraph)| ==> !TooLong(Trim(Sentences(paragraph)[k]))
    ensures Join(ChunkLongParagraph(paragraph), " ") == Join(NonEmpty(TrimEach(Sentences(paragraph))), " ")
  {
    var ss := Sentences(paragraph);
    var items := TrimEach(ss);
    var longs := WordFallbacks(items);
    assert ChunkLongParagraph(paragraph) == Finish(Pack(Empty, items, " ", longs));
    forall k | 0 <= k < |items|
      ensures Trimmed(items[k]) && !TooLong(items[k])
    {
      assert items[k] == Trim(ss[k]);
    }
    PackJoin(Empty, items, " ", longs);
    FinishEmpty();
    assert [] + NonEmpty(items) == NonEmpty(items);
  }

  // ---------------------------------------------------------------------------
  // The word fallback and the sentence-regex finding

  /** A long paragraph with no sentence terminator falls back to `chunkByWords`,
      both as written (no regex match) and corrected (one piece). */
  lemma {:induction false} UnterminatedParagraphByWords(paragraph: string)
    requires Trimmed(paragraph) && TooLong(paragraph)
    requires forall i :: 0 <= i < |paragraph| ==> !IsTerminator(paragraph[i])
    ensures ChunkLongParagraph(paragraph) == ChunkByWords(paragraph)
    ensures ChunkLongParagraphAsWritten(paragraph) == ChunkByWords(paragraph)
  {
    assert TextRun(paragraph) == |paragraph|;
    assert Sentences(paragraph) == [paragraph];
    assert SentencesAsWritten(paragraph) == [paragraph];
    PackSingleLong(paragraph);
  }

  /** A single sentence over the limit is chunked by words. */
  lemma {:induction false} PackSingleLong(t: string)
    requires Trimmed(t) && TooLong(t)
    ensures PackSentences([t]) == ChunkByWords(t)
  {
    PackSentencesOne(t);
    PackStepLong(Empty, t, " ", ChunkByWords(t));
    FinishFlushed(ChunkByWords(t));
  }

  lemma {:induction false} PackSentencesOne(t: string)
    ensures PackSentences([t]) == Finish(PackStep(Empty, Trim(t), " ", ChunkByWords(Trim(t))))
  {
    TrimEachOne(t);
    WordFallbacksOne(Trim(t));
    PackOne(Empty, Trim(t), " ", ChunkByWords(Trim(t)));
  }

  lemma {:induction false} TrimEachOne(t: string)
    ensures TrimEach([t]) == [Trim(t)]
  {
  }

  lemma {:induction false} WordFallbacksOne(t: string)
    ensures WordFallbacks([t]) == [ChunkByWords(t)]
  {
  }

  lemma {:induction false} FinishFlushed(chunks: seq<string>)
    ensures Finish(Packer(chunks, [])) == chunks
  {
    var e: string := [];
    assert Trim(e) == [];
  }

  lemma {:induction false} PackOne(p: Packer, t: string, sep: string, long: seq<string>)
    ensures Pack(p, [t], sep, [long]) == PackStep(p, t, sep, long)
  {
    assert [t][1..] == [] && [long][1..] == [];
  }

  /** An item over the limit after a blank current chunk adds its own chunks. */
  lemma {:induction false} PackStepLong(p: Packer, t: string, sep: string, long: seq<string>)
    requires TooLong(t) && p.current == []
    ensures PackStep(p, t, sep, long) == Packer(p.chunks + long, [])
  {
    var e: string := [];
    assert Trim(e) == [];
  }

  /** A run of `n` letters. */
  function Letters(n: nat): (r: string)
    ensures |r| == n && NoSpace(r)
    ensures forall i :: 0 <= i < n ==> !IsTerminator(r[i])
  {
    seq(n, _ => 'b')
  }

  /** As written, the text after the last terminator of an over-long paragraph is
      lost: "A. " followed by 1900 letters is sent as the single chunk "A.". */
  lemma {:induction false} AsWrittenDropsUnterminatedTail()
    ensures var paragraph := "A. " + Letters(1900);
      && ChunkLongParagraphAsWritten(paragraph) == ["A."]
      && Ink(Concat(ChunkLongParagraphAsWritten(paragraph))) != Ink(paragraph)
  {
    var tail := Letters(1900);
    var paragraph := "A. " + tail;
    ExampleMatches(tail);
    assert SentencesAsWritten(paragraph) == ["A. "];
    ExamplePacked();
    ConcatCons("A.", []);
    assert ["A."] + [] == ["A."];
    InkAppend("A. ", tail);
    InkNoSpace(tail);
    assert |Ink(Concat(["A."]))| <= 2;
  }

  lemma {:induction false} ExampleMatches(tail: string)
    requires |tail| > 0 && NoSpace(tail)
    requires forall i :: 0 <= i < |tail| ==> !IsTerminator(tail[i])
    ensures SentenceMatchesAsWritten("A. " + tail) == ["A. "]
  {
    var s := "A. " + tail;
    assert TextRun(tail) == |tail|;
    assert SentenceMatchesAsWritten(tail) == [];
    assert TextRun(s) == 1;
    assert s[1..] == ". " + tail;
    assert TerminatorRun(s[1..]) == 1 by {
      assert s[1..][1..] == " " + tail;
      assert TerminatorRun(" " + tail) == 0;
    }
    assert s[2..] == " " + tail;
    assert LeadingSpaces(s[2..]) == 1 by {
      assert (" " + tail)[1] == tail[0];
    }
    assert SentenceEnd(s, 1) == 3;
    assert s[..3] == "A. " && s[3..] == tail;
  }

  lemma {:induction false} ExamplePacked()
    ensures PackSentences(["A. "]) == ["A."]
  {
    ExampleTrimmed();
    PackSentencesOne("A. ");
    var p := PackStep(Empty, "A.", " ", ChunkByWords("A."));
    assert p == Packer([], [] + [] + "A.");
    assert [] + [] + "A." == "A.";
    assert Trim("A.") == "A.";
  }

  lemma {:induction false} ExampleTrimmed()
    ensures Trim("A. ") == "A."
  {
    var s := "A. ";
    assert LeadingSpaces(s) == 0;
    assert s[0..] == s;
    assert s[..|s| - 1] == "A.";
    assert TrailingSpaces("A.") == 0;
    assert TrailingSpaces(s) == 1;
  }
}
