/** End to end: what the chunks of `chunk_text` are, how they overlap, and that nothing is lost. */
module ChunkTextLaws {
  import opened Text
  import opened Words
  import opened Greedy
  import opened ChunkText

  /** A window within the size; one that stops short ends a sentence if any word past the overlap does. */
  ghost predicate WindowLaw(marks: seq<bool>, size: nat, overlap: nat, w: Window) {
    && w.start < w.end <= |marks| && w.end - w.start <= size
    && (w.end < |marks| ==>
          && w.start + overlap < w.end
          && (marks[w.end - 1] || w.end == w.start + size)
          && forall m :: w.end <= m < w.start + size && m < |marks| ==> !marks[m])
  }

  predicate InChunk(c: Chunk, p: nat) {
    c.start <= p < c.end
  }

  /** Every position that is not white space is in some chunk. */
  ghost predicate CoversAll(text: string, chunks: seq<Chunk>) {
    forall p :: 0 <= p < |text| && !IsWhitespace(text[p]) ==> exists i :: 0 <= i < |chunks| && InChunk(chunks[i], p)
  }

  /** The windows of neighbours share exactly `overlap` words, and gluing them without gives every word once. */
  ghost predicate Rejoins<T>(words: seq<T>, ws: seq<Window>, overlap: nat) {
    && (forall i, j :: 0 <= i && j == i + 1 < |ws| ==> Slides(overlap, ws[i], ws[j]))
    && (forall i :: 0 <= i < |ws| ==> ws[i].start <= ws[i].end <= |words|)
    && (forall i :: 1 <= i < |ws| ==> ws[i].start + overlap <= ws[i].end)
    && Glue(words, ws, overlap) == words
  }

  lemma WindowsObey(text: string, words: seq<Range>, size: nat, overlap: nat, i: nat)
    requires Apart(words, |text|) && overlap < size && i < |TextWindows(text, words, size, overlap)|
    ensures WindowLaw(Marks(text, words), size, overlap, TextWindows(text, words, size, overlap)[i])
  {
    var marks := Marks(text, words);
    EndsProgress(marks, size, overlap);
    var w := TextWindows(text, words, size, overlap)[i];
    assert w in Cuts(Ends(marks, size, overlap), 0, size, overlap);
    CutsAreProper(Ends(marks, size, overlap), 0, size, overlap);
    assert w.end == CutFrom(marks, w.start, size, overlap);
    CutIsLastSentenceEnd(marks, w.start, size, overlap);
  }

  lemma WindowsRejoin(text: string, words: seq<Range>, size: nat, overlap: nat)
    requires Apart(words, |text|) && overlap < size
    ensures Rejoins(words, TextWindows(text, words, size, overlap), overlap)
  {
    var ends := Ends(Marks(text, words), size, overlap);
    EndsProgress(Marks(text, words), size, overlap);
    CutsSlide(ends, 0, size, overlap);
    ChunksRestoreWords(words, ends, size, overlap);
  }

  /** The window that holds word `m`. */
  lemma {:induction false} WindowOfWord(ws: seq<Window>, overlap: nat, m: nat) returns (i: nat)
    requires ws != [] && ws[0].start <= m < ws[|ws| - 1].end
    requires forall i, j :: 0 <= i && j == i + 1 < |ws| ==> Slides(overlap, ws[i], ws[j])
    ensures i < |ws| && ws[i].start <= m < ws[i].end
    decreases |ws|
  {
    if |ws| == 1 || m < ws[0].end {
      i := 0;
    } else {
      assert Slides(overlap, ws[0], ws[1]);
      var j := WindowOfWord(ws[1..], overlap, m);
      i := j + 1;
    }
  }

  /** A word of the window lies inside the window's chunk. */
  lemma WordInChunk(text: string, words: seq<Range>, w: Window, m: nat, p: nat)
    requires Apart(words, |text|) && w.start <= m < w.end <= |words| && Within(p, words[m])
    ensures InChunk(ChunkOf(text, words, w), p)
  {
    OrderedWords(words, |text|, w);
    assert w.start < m ==> words[w.start].end < words[m].start;
    assert m < w.end - 1 ==> words[m].end < words[w.end - 1].start;
  }

  lemma ChunksCover(text: string, words: seq<Range>, size: nat, overlap: nat, chunks: seq<Chunk>)
    requires Apart(words, |text|) && CoversText(text, words, |text|) && overlap < size
    requires ChunksFollow(text, words, TextWindows(text, words, size, overlap), chunks)
    ensures CoversAll(text, chunks)
  {
    var ends := Ends(Marks(text, words), size, overlap);
    var ws := TextWindows(text, words, size, overlap);
    EndsProgress(Marks(text, words), size, overlap);
    CutsSlide(ends, 0, size, overlap);
    forall p | 0 <= p < |text| && !IsWhitespace(text[p])
      ensures exists i :: 0 <= i < |chunks| && InChunk(chunks[i], p)
    {
      var m :| 0 <= m < |words| && Within(p, words[m]);
      CutsReachEnd(ends, 0, size, overlap);
      var i := WindowOfWord(ws, overlap, m);
      WordInChunk(text, words, ws[i], m, p);
      assert InChunk(chunks[i], p);
    }
  }

  /** Each chunk is the slice of its window and counts its words. */
  ghost predicate SliceLaw(text: string, words: seq<Range>, w: Window, c: Chunk)
    requires Apart(words, |text|)
  {
    && w.start < w.end <= |words|
    && c.start == words[w.start].start && c.end == words[w.end - 1].end && c.start < c.end <= |text|
    && c.text == text[c.start..c.end] && c.tokenCount == w.end - w.start
  }

  lemma ChunkObeys(text: string, words: seq<Range>, size: nat, overlap: nat, chunks: seq<Chunk>, i: nat)
    requires Apart(words, |text|) && overlap < size && i < |TextWindows(text, words, size, overlap)|
    requires ChunksFollow(text, words, TextWindows(text, words, size, overlap), chunks)
    ensures |chunks| == |TextWindows(text, words, size, overlap)|
    ensures WindowLaw(Marks(text, words), size, overlap, TextWindows(text, words, size, overlap)[i])
    ensures SliceLaw(text, words, TextWindows(text, words, size, overlap)[i], chunks[i])
  {
    WindowsObey(text, words, size, overlap, i);
    OrderedWords(words, |text|, TextWindows(text, words, size, overlap)[i]);
  }

  /** The promise of the word chunker, for every text, size and overlap: nothing that is not white space is
    * lost, every chunk is a slice of at most `size` words that ends a sentence where one is in reach, and
    * neighbours share exactly `overlap` words.
    */
  lemma TextChunksKeepTheirPromise(text: string, cuts: seq<nat>, size: nat, overlap: nat, chunks: seq<Chunk>)
    requires IsPartition(cuts, |text|) && overlap < size && Apart(WordsOf(text, cuts), |text|)
    requires ChunksFollow(text, WordsOf(text, cuts), TextWindows(text, WordsOf(text, cuts), size, overlap), chunks)
    ensures var words := WordsOf(text, cuts);
            var ws := TextWindows(text, words, size, overlap);
            && CoversAll(text, chunks) && |chunks| == |ws| && Rejoins(words, ws, overlap)
            && forall i :: 0 <= i < |ws| ==>
                 WindowLaw(Marks(text, words), size, overlap, ws[i]) && SliceLaw(text, words, ws[i], chunks[i])
  {
    WordsAreMaximalRuns(text, cuts);
    var words := WordsOf(text, cuts);
    var ws := TextWindows(text, words, size, overlap);
    ChunksCover(text, words, size, overlap, chunks);
    WindowsRejoin(text, words, size, overlap);
    forall i | 0 <= i < |ws|
      ensures WindowLaw(Marks(text, words), size, overlap, ws[i]) && SliceLaw(text, words, ws[i], chunks[i])
    {
      ChunkObeys(text, words, size, overlap, chunks, i);
    }
  }
}
