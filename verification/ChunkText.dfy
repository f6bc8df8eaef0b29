/** The plain chunker: windows of words with a fixed overlap, cut at the last sentence end that fits. */
module ChunkText {
  import opened Wrappers
  import opened Words
  import opened Greedy

  datatype Chunk = Chunk(text: string, start: nat, end: nat, tokenCount: nat)

  datatype Error = BadConfig

  const CLOSERS: set<char> := {'"', '\'', '\U{201D}', '\U{2019}', ')', ']', '\U{00BB}'}
  const TERMINATORS: set<char> := {'.', '!', '?', '\U{3002}', '\U{FF01}', '\U{FF1F}'}

  /** The word ends a sentence: closing quotes and brackets aside, its last character is a terminator. */
  predicate EndsSentence(word: string) {
    word != "" &&
    if word[|word| - 1] in CLOSERS then EndsSentence(word[..|word| - 1]) else word[|word| - 1] in TERMINATORS
  }

  /** In characters: some terminator, and after it nothing but closing quotes and brackets. */
  lemma {:induction false} EndsAtTerminator(word: string)
    ensures EndsSentence(word) <==>
            exists i :: 0 <= i < |word| && word[i] in TERMINATORS && forall j :: i < j < |word| ==> word[j] in CLOSERS
  {
    if word != "" {
      EndsAtTerminator(word[..|word| - 1]);
    }
  }

  /** The last marked cut in `(low, candidate]`, or `limit`. */
  function LastCut(marks: seq<bool>, low: nat, candidate: nat, limit: nat): nat
    requires candidate <= |marks|
  {
    if candidate <= low then limit
    else if marks[candidate - 1] then candidate
    else LastCut(marks, low, candidate - 1, limit)
  }

  /** Where the window from `start` ends. */
  function CutFrom(marks: seq<bool>, start: nat, size: nat, overlap: nat): (end: nat)
    requires start < |marks| && overlap < size
  {
    var limit := if start + size <= |marks| then start + size else |marks|;
    if limit < |marks| then LastCut(marks, start + overlap, limit, limit) else limit
  }

  lemma {:induction false} LastCutIsLast(marks: seq<bool>, low: nat, candidate: nat, limit: nat)
    requires candidate <= limit <= |marks| && low < limit
    ensures var end := LastCut(marks, low, candidate, limit);
            && low < end <= limit
            && (end != limit ==> end <= candidate && marks[end - 1])
            && (forall m :: low <= m < candidate && marks[m] ==> m < end)
  {
    if candidate > low && !marks[candidate - 1] {
      LastCutIsLast(marks, low, candidate - 1, limit);
    }
  }

  /** A cut is at the end, or at the last sentence end past the overlap, or at the size if there is none. */
  lemma CutIsLastSentenceEnd(marks: seq<bool>, start: nat, size: nat, overlap: nat)
    requires start < |marks| && overlap < size
    ensures var end := CutFrom(marks, start, size, overlap);
            && start < end <= |marks| && end - start <= size
            && (end < |marks| ==>
                  && start + overlap < end
                  && (marks[end - 1] || end == start + size)
                  && forall m :: end <= m < start + size ==> !marks[m])
            && (end == |marks| <==> start + size >= |marks|)
  {
    if start + size < |marks| {
      LastCutIsLast(marks, start + overlap, start + size, start + size);
    }
  }

  /** `ends[s]` is where the window from word `s` ends. */
  function Ends(marks: seq<bool>, size: nat, overlap: nat): (ends: seq<nat>)
    requires overlap < size
    ensures |ends| == |marks| && forall s :: 0 <= s < |ends| ==> ends[s] == CutFrom(marks, s, size, overlap)
  {
    seq(|marks|, s requires 0 <= s < |marks| => CutFrom(marks, s, size, overlap))
  }

  /** Every window is non-empty, and one that stops short of the end goes past its overlap. */
  ghost predicate Progress(ends: seq<nat>, size: nat, overlap: nat) {
    forall s {:trigger ends[s]} :: 0 <= s < |ends| ==>
      && s < ends[s] <= |ends| && ends[s] - s <= size
      && (ends[s] < |ends| ==> s + overlap < ends[s])
      && (ends[s] == |ends| <==> s + size >= |ends|)
  }

  lemma EndsProgress(marks: seq<bool>, size: nat, overlap: nat)
    requires overlap < size
    ensures Progress(Ends(marks, size, overlap), size, overlap)
  {
    forall s | 0 <= s < |marks|
      ensures var end := CutFrom(marks, s, size, overlap);
              && s < end <= |marks| && end - s <= size && (end < |marks| ==> s + overlap < end)
              && (end == |marks| <==> s + size >= |marks|)
    {
      CutIsLastSentenceEnd(marks, s, size, overlap);
    }
  }

  function Cuts(ends: seq<nat>, start: nat, size: nat, overlap: nat): seq<Window>
    requires Progress(ends, size, overlap)
    decreases |ends| - start
  {
    if start >= |ends| then []
    else if ends[start] == |ends| then [Window(start, ends[start])]
    else [Window(start, ends[start])] + Cuts(ends, ends[start] - overlap, size, overlap)
  }

  /** Consecutive windows share exactly `overlap` items, and both ends move on. */
  ghost predicate Slides(overlap: nat, v: Window, w: Window) {
    w.start + overlap == v.end && v.start < w.start && v.end < w.end
  }

  lemma {:induction false} CutsReachEnd(ends: seq<nat>, start: nat, size: nat, overlap: nat)
    requires Progress(ends, size, overlap) && start < |ends| && overlap < size
    ensures var ws := Cuts(ends, start, size, overlap);
            ws != [] && ws[0] == Window(start, ends[start]) && ws[|ws| - 1].end == |ends|
    decreases |ends| - start
  {
    if ends[start] < |ends| {
      CutsReachEnd(ends, ends[start] - overlap, size, overlap);
    }
  }

  lemma {:induction false} CutsAreProper(ends: seq<nat>, start: nat, size: nat, overlap: nat)
    requires Progress(ends, size, overlap) && overlap < size
    ensures forall w :: w in Cuts(ends, start, size, overlap) ==>
              w.start < w.end <= |ends| && w.end - w.start <= size && w.end == ends[w.start]
    decreases |ends| - start
  {
    if start < |ends| && ends[start] < |ends| {
      CutsAreProper(ends, ends[start] - overlap, size, overlap);
    }
  }

  /** Windows in a row share exactly `overlap` words, and both ends move on. */
  lemma {:induction false} CutsSlide(ends: seq<nat>, start: nat, size: nat, overlap: nat)
    requires Progress(ends, size, overlap) && overlap < size
    ensures var ws := Cuts(ends, start, size, overlap);
            forall i, j :: 0 <= i && j == i + 1 < |ws| ==> Slides(overlap, ws[i], ws[j])
    decreases |ends| - start
  {
    if start < |ends| && ends[start] < |ends| {
      var next := ends[start] - overlap;
      CutsSlide(ends, next, size, overlap);
      CutsReachEnd(ends, next, size, overlap);
      SlidesPrepend(Window(start, ends[start]), Cuts(ends, next, size, overlap), overlap);
    }
  }

  lemma SlidesPrepend(w: Window, rest: seq<Window>, overlap: nat)
    requires rest != [] && Slides(overlap, w, rest[0])
    requires forall i, j :: 0 <= i && j == i + 1 < |rest| ==> Slides(overlap, rest[i], rest[j])
    ensures var ws := [w] + rest; forall i, j :: 0 <= i && j == i + 1 < |ws| ==> Slides(overlap, ws[i], ws[j])
  {
    var ws := [w] + rest;
    forall i, j | 0 <= i && j == i + 1 < |ws| ensures Slides(overlap, ws[i], ws[j]) {
      if i > 0 {
        assert ws[i] == rest[i - 1] && ws[j] == rest[j - 1];
      }
    }
  }

  /** The first window in full, then every later one without its first `overlap` items. */
  function Glue<T>(items: seq<T>, ws: seq<Window>, overlap: nat): seq<T>
    requires forall i :: 0 <= i < |ws| ==> ws[i].start <= ws[i].end <= |items|
    requires forall i :: 1 <= i < |ws| ==> ws[i].start + overlap <= ws[i].end
  {
    if ws == [] then []
    else if |ws| == 1 then items[ws[0].start..ws[0].end]
    else Glue(items, ws[..|ws| - 1], overlap) + items[ws[|ws| - 1].start + overlap..ws[|ws| - 1].end]
  }

  lemma SlicesJoin<T>(items: seq<T>, a: nat, b: nat, c: nat)
    requires a <= b <= c <= |items|
    ensures items[a..b] + items[b..c] == items[a..c]
  {
  }

  lemma {:induction false} GlueRestores<T>(items: seq<T>, ws: seq<Window>, overlap: nat)
    requires ws != []
    requires forall i :: 0 <= i < |ws| ==> ws[i].start < ws[i].end <= |items|
    requires forall i, j :: 0 <= i && j == i + 1 < |ws| ==> Slides(overlap, ws[i], ws[j])
    ensures forall i :: 1 <= i < |ws| ==> ws[i].start + overlap <= ws[i].end
    ensures ws[0].start <= ws[|ws| - 1].end && Glue(items, ws, overlap) == items[ws[0].start..ws[|ws| - 1].end]
  {
    forall i | 1 <= i < |ws| ensures ws[i].start + overlap <= ws[i].end {
      assert Slides(overlap, ws[i - 1], ws[i]);
    }
    if |ws| > 1 {
      var front, last, other := ws[..|ws| - 1], ws[|ws| - 1], ws[|ws| - 2];
      GlueRestores(items, front, overlap);
      assert Slides(overlap, other, last) && front[|front| - 1] == other;
      SlicesJoin(items, ws[0].start, other.end, last.end);
    }
  }

  /** Dropping the shared words of every later chunk and gluing gives back all the words. */
  lemma ChunksRestoreWords<T>(words: seq<T>, ends: seq<nat>, size: nat, overlap: nat)
    requires Progress(ends, size, overlap) && overlap < size && |ends| == |words|
    ensures var ws := Cuts(ends, 0, size, overlap);
            && (forall i :: 0 <= i < |ws| ==> ws[i].start <= ws[i].end <= |words|)
            && (forall i :: 1 <= i < |ws| ==> ws[i].start + overlap <= ws[i].end)
            && Glue(words, ws, overlap) == words
  {
    if |words| > 0 {
      CutsSlide(ends, 0, size, overlap);
      CutsReachEnd(ends, 0, size, overlap);
      CutsAreProper(ends, 0, size, overlap);
      GlueRestores(words, Cuts(ends, 0, size, overlap), overlap);
    }
  }

  function Marks(text: string, words: seq<Range>): (r: seq<bool>)
    requires Apart(words, |text|)
    ensures |r| == |words|
  {
    seq(|words|, i requires 0 <= i < |words| => EndsSentence(text[words[i].start..words[i].end]))
  }

  function ChunkOf(text: string, words: seq<Range>, w: Window): Chunk
    requires Apart(words, |text|) && w.start < w.end <= |words|
  {
    OrderedWords(words, |text|, w);
    var start, end := words[w.start].start, words[w.end - 1].end;
    Chunk(text[start..end], start, end, w.end - w.start)
  }

  lemma OrderedWords(words: seq<Range>, length: nat, w: Window)
    requires Apart(words, length) && w.start < w.end <= |words|
    ensures words[w.start].start < words[w.end - 1].end <= length
  {
  }

  /** One chunk for every window of `Cuts`, over the words of the text. */
  ghost predicate ChunksFollow(text: string, words: seq<Range>, ws: seq<Window>, chunks: seq<Chunk>)
    requires Apart(words, |text|)
  {
    && |chunks| == |ws|
    && forall i :: 0 <= i < |ws| ==> ws[i].start < ws[i].end <= |words| && chunks[i] == ChunkOf(text, words, ws[i])
  }

  /** Backs off from the size limit to a sentence end, but not into the overlap. */
  method FindCut(text: string, tokens: seq<Range>, start: nat, size: nat, overlap: nat) returns (end: nat)
    requires Apart(tokens, |text|) && start < |tokens| && overlap < size
    ensures end == CutFrom(Marks(text, tokens), start, size, overlap)
  {
    ghost var marks := Marks(text, tokens);
    var limit := if start + size <= |tokens| then start + size else |tokens|;
    if limit < |tokens| {
      var candidate := limit;
      while candidate > start + overlap
        invariant start + overlap <= candidate <= limit
        invariant LastCut(marks, start + overlap, candidate, limit) == CutFrom(marks, start, size, overlap)
      {
        if EndsSentence(text[tokens[candidate - 1].start..tokens[candidate - 1].end]) {
          return candidate;
        }
        candidate := candidate - 1;
      }
    }
    return limit;
  }

  /** The windows of a text: what `chunk_text` cuts it into. */
  ghost function TextWindows(text: string, words: seq<Range>, size: nat, overlap: nat): seq<Window>
    requires Apart(words, |text|) && overlap < size
  {
    EndsProgress(Marks(text, words), size, overlap);
    Cuts(Ends(Marks(text, words), size, overlap), 0, size, overlap)
  }

  method Chunks(text: string, cuts: seq<nat>, size: nat, overlap: nat) returns (r: Result<seq<Chunk>, Error>)
    requires IsPartition(cuts, |text|)
    ensures r == Err(BadConfig) <==> size == 0 || overlap >= size
    ensures r.Ok? ==>
              && Apart(WordsOf(text, cuts), |text|)
              && ChunksFollow(text, WordsOf(text, cuts), TextWindows(text, WordsOf(text, cuts), size, overlap), r.value)
  {
    if size == 0 || overlap >= size {
      return Err(BadConfig);
    }
    var tokens := ScanWords(text, cuts);
    WordsAreMaximalRuns(text, cuts);
    EndsProgress(Marks(text, tokens), size, overlap);
    var chunks := SlideWindows(text, tokens, size, overlap, Ends(Marks(text, tokens), size, overlap));
    return Ok(chunks);
  }

  /** The chunks of the windows before `left` have been pushed. */
  ghost predicate Emitted(text: string, words: seq<Range>, all: seq<Window>, left: seq<Window>, chunks: seq<Chunk>)
    requires Apart(words, |text|)
  {
    |chunks| + |left| == |all| && left == all[|chunks|..] && ChunksFollow(text, words, all[..|chunks|], chunks)
  }

  lemma EmittedGrows(text: string, words: seq<Range>, all: seq<Window>, left: seq<Window>, chunks: seq<Chunk>)
    requires Apart(words, |text|) && Emitted(text, words, all, left, chunks)
    requires left != [] && left[0].start < left[0].end <= |words|
    ensures Emitted(text, words, all, left[1..], chunks + [ChunkOf(text, words, left[0])])
  {
    assert all[..|chunks| + 1] == all[..|chunks|] + [left[0]];
    FollowsGrows(text, words, all[..|chunks|], chunks, left[0]);
  }

  lemma CutsUnfold(ends: seq<nat>, start: nat, size: nat, overlap: nat, left: seq<Window>)
    requires Progress(ends, size, overlap) && start < |ends| && left == Cuts(ends, start, size, overlap)
    ensures left != [] && left[0] == Window(start, ends[start]) && start < ends[start] <= |ends|
    ensures ends[start] < |ends| ==>
              ends[start] >= overlap && left[1..] == Cuts(ends, ends[start] - overlap, size, overlap)
    ensures ends[start] == |ends| ==> left[1..] == []
  {
  }

  /** `ends` says where a window is cut, wherever it starts. */
  ghost predicate AreCuts(text: string, words: seq<Range>, size: nat, overlap: nat, ends: seq<nat>)
    requires Apart(words, |text|) && overlap < size
  {
    && |ends| == |words|
    && forall s {:trigger ends[s]} :: 0 <= s < |ends| ==> ends[s] == CutFrom(Marks(text, words), s, size, overlap)
  }

  /** Before the window that starts at `start`: it and those after it are `left`, the others have their chunks. */
  ghost predicate Sliding(text: string, words: seq<Range>, size: nat, overlap: nat, ends: seq<nat>,
                          all: seq<Window>, left: seq<Window>, start: nat, chunks: seq<Chunk>)
    requires Apart(words, |text|) && overlap < size
  {
    && start < |words| && AreCuts(text, words, size, overlap, ends) && Progress(ends, size, overlap)
    && left == Cuts(ends, start, size, overlap) && Emitted(text, words, all, left, chunks)
  }

  lemma AllEmitted(text: string, words: seq<Range>, all: seq<Window>, left: seq<Window>, chunks: seq<Chunk>)
    requires Apart(words, |text|) && Emitted(text, words, all, left, chunks) && left == []
    ensures ChunksFollow(text, words, all, chunks)
  {
    assert all[..|chunks|] == all;
  }

  /** The cut of the window that starts at `start`, and what is left after its chunk. */
  method CutOff(text: string, words: seq<Range>, start: nat, size: nat, overlap: nat, chunks0: seq<Chunk>,
                ghost ends: seq<nat>, ghost all: seq<Window>, ghost left0: seq<Window>)
    returns (end: nat, chunks: seq<Chunk>, ghost left: seq<Window>)
    requires Apart(words, |text|) && overlap < size
    requires Sliding(text, words, size, overlap, ends, all, left0, start, chunks0)
    ensures |left| < |left0|
    ensures if end == |words| then ChunksFollow(text, words, all, chunks)
            else overlap <= end && Sliding(text, words, size, overlap, ends, all, left, end - overlap, chunks)
  {
    end := FindCut(text, words, start, size, overlap);
    CutsUnfold(ends, start, size, overlap, left0);
    EmittedGrows(text, words, all, left0, chunks0);
    chunks, left := chunks0 + [ChunkOf(text, words, Window(start, end))], left0[1..];
    if end == |words| {
      AllEmitted(text, words, all, left, chunks);
    }
  }

  lemma SlidingStarts(text: string, words: seq<Range>, size: nat, overlap: nat, ends: seq<nat>)
    requires Apart(words, |text|) && overlap < size
    requires AreCuts(text, words, size, overlap, ends) && Progress(ends, size, overlap)
    ensures var all := Cuts(ends, 0, size, overlap);
            if words == [] then ChunksFollow(text, words, all, [])
            else Sliding(text, words, size, overlap, ends, all, all, 0, [])
  {
  }

  /** The window loop. */
  method SlideWindows(text: string, tokens: seq<Range>, size: nat, overlap: nat, ghost ends: seq<nat>)
    returns (chunks: seq<Chunk>)
    requires Apart(tokens, |text|) && overlap < size
    requires AreCuts(text, tokens, size, overlap, ends) && Progress(ends, size, overlap)
    ensures ChunksFollow(text, tokens, Cuts(ends, 0, size, overlap), chunks)
  {
    chunks := [];
    var start: nat := 0;
    ghost var all := Cuts(ends, 0, size, overlap);
    ghost var left := all;
    SlidingStarts(text, tokens, size, overlap, ends);
    while start < |tokens|
      invariant if tokens == [] then chunks == []
                else Sliding(text, tokens, size, overlap, ends, all, left, start, chunks)
      decreases |left|
    {
      var end;
      end, chunks, left := CutOff(text, tokens, start, size, overlap, chunks, ends, all, left);
      if end == |tokens| {
        break;
      }
      start := end - overlap;
    }
  }

  lemma FollowsGrows(text: string, words: seq<Range>, ws: seq<Window>, chunks: seq<Chunk>, w: Window)
    requires Apart(words, |text|) && ChunksFollow(text, words, ws, chunks) && w.start < w.end <= |words|
    ensures words[w.start].start < words[w.end - 1].end <= |text|
    ensures ChunksFollow(text, words, ws + [w], chunks + [ChunkOf(text, words, w)])
  {
    OrderedWords(words, |text|, w);
  }
}
