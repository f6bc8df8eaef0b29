/**
 * What the units of a segment are: in a row, covering everything that is not white space, never
 * cheaper than the text they stand for, and within the chunk size unless they are one word.
 * Positions are positions of the joined text.
 */
module ChunkUnitLaws {
  import opened Text
  import opened Words
  import opened TokenEstimate
  import opened Greedy
  import opened ChunkUnits

  ghost predicate InRow(us: seq<Unit>, lo: nat, hi: nat) {
    && lo <= hi
    && (forall i :: 0 <= i < |us| ==> lo <= us[i].start < us[i].end <= hi)
    && (forall i, j :: 0 <= i < j < |us| ==> us[i].end <= us[j].start)
  }

  predicate Holds(u: Unit, p: nat) {
    u.start <= p < u.end
  }

  ghost predicate Covered(joined: string, us: seq<Unit>, lo: nat, hi: nat)
    requires hi <= |joined|
  {
    forall p :: lo <= p < hi && !IsWhitespace(joined[p]) ==> exists i :: 0 <= i < |us| && Holds(us[i], p)
  }

  /** A unit never counts fewer tokens than its text is estimated at. */
  ghost predicate Fair(joined: string, u: Unit) {
    u.start < u.end <= |joined| && Estimate(joined[u.start..u.end]) <= u.tokens
  }

  /** `s` is a word of some sentence of the text, and larger than a chunk. */
  ghost predicate OversizedWord(text: string, splits: Splits, size: nat, s: string)
    requires Divides(text, splits)
  {
    exists k, i :: 0 <= k < |splits.clusters| &&
      IsOversizedWord(Trim(SentenceAt(text, splits, k)), splits.clusters[k], size, i, s)
  }

  ghost predicate IsOversizedWord(t: string, cuts: seq<nat>, size: nat, i: nat, s: string)
    requires IsPartition(cuts, |t|)
  {
    var words := WordsOf(t, cuts);
    i < |words| && words[i].start <= words[i].end <= |t| && s == t[words[i].start..words[i].end] && Estimate(s) > size
  }

  /** The units of one sentence, before they are placed in the joined text. */
  ghost predicate SentenceLaw(joined: string, t: string, cuts: seq<nat>, size: nat, u: Unit)
    requires IsPartition(cuts, |t|)
  {
    && Fair(joined, u)
    && (u.tokens > size ==>
          && u.tokens == Estimate(joined[u.start..u.end])
          && exists i :: IsOversizedWord(t, cuts, size, i, joined[u.start..u.end]))
  }

  // ---- words and pieces ----

  lemma WordGapIsBlank(t: string, words: seq<Range>, m: nat)
    requires Apart(words, |t|) && CoversText(t, words, |t|) && m + 1 < |words|
    ensures words[m].end < words[m + 1].start && IsBlank(t[words[m].end..words[m + 1].start])
  {
    var gap := t[words[m].end..words[m + 1].start];
    forall q | 0 <= q < |gap| ensures IsWhitespace(gap[q]) {
      NoWordInGap(words, |t|, m, words[m].end + q);
    }
  }

  lemma NoWordInGap(words: seq<Range>, length: nat, m: nat, p: nat)
    requires Apart(words, length) && m + 1 < |words| && words[m].end <= p < words[m + 1].start
    ensures forall i :: 0 <= i < |words| ==> !Within(p, words[i])
  {
    forall i | 0 <= i < |words| ensures !Within(p, words[i]) {
      assert i <= m || m + 1 <= i;
    }
  }

  lemma PieceLengthens(t: string, words: seq<Range>, a: nat, b: nat)
    requires Apart(words, |t|) && CoversText(t, words, |t|) && a < b < |words|
    ensures words[a].start < words[b - 1].end < words[b].start < words[b].end <= |t|
    ensures Estimate(t[words[a].start..words[b].end]) <=
            Estimate(t[words[a].start..words[b - 1].end]) + Estimate(t[words[b].start..words[b].end])
  {
    WordGapIsBlank(t, words, b - 1);
    assert words[a].start < words[b - 1].end;
    var i, j, k, l := words[a].start, words[b - 1].end, words[b].start, words[b].end;
    assert t[i..l] == t[i..j] + t[j..k] + t[k..l];
    GapIsFree(t[i..j], t[j..k], t[k..l]);
  }

  /** The words of a piece add up to at least the estimate of the piece, gaps included. */
  lemma {:induction false} PieceIsFair(t: string, words: seq<Range>, counts: seq<nat>, a: nat, b: nat)
    requires Apart(words, |t|) && CoversText(t, words, |t|) && a < b <= |words| && counts == WordTokens(t, words)
    ensures words[a].start < words[b - 1].end <= |t|
    ensures Estimate(t[words[a].start..words[b - 1].end]) <= Sum(counts, a, b)
    decreases b
  {
    assert counts[b - 1] == Estimate(t[words[b - 1].start..words[b - 1].end]);
    if b == a + 1 {
      SingleItem(counts, a);
    } else {
      PieceIsFair(t, words, counts, a, b - 1);
      PieceLengthens(t, words, a, b - 1);
      assert Sum(counts, a, b) == Sum(counts, a, b - 1) + counts[b - 1];
    }
  }

  lemma SingleItem(counts: seq<nat>, a: nat)
    requires a < |counts|
    ensures Sum(counts, a, a + 1) == counts[a]
  {
    assert Sum(counts, a, a) == 0;
  }

  lemma {:induction false} PiecesInOrder(ws: seq<Window>, i: nat, j: nat)
    requires forall k :: 0 <= k < |ws| ==> ws[k].start < ws[k].end
    requires forall k, l :: 0 <= k && l == k + 1 < |ws| ==> ws[k].end == ws[l].start
    requires i < j < |ws|
    ensures ws[i].end <= ws[j].start
    decreases j
  {
    if i < j - 1 {
      PiecesInOrder(ws, i, j - 1);
    }
  }

  lemma {:induction false} PieceOfItem(t: seq<nat>, start: nat, size: nat, m: nat) returns (i: nat)
    requires start <= m < |t|
    ensures var ws := Pieces(t, start, size); i < |ws| && ws[i].start <= m < ws[i].end
    decreases |t| - start
  {
    var end := GreedyEnd(t, start, size);
    if m < end {
      i := 0;
    } else {
      var j := PieceOfItem(t, end, size, m);
      i := j + 1;
    }
  }

  // ---- one sentence ----

  /** `t` occurs in the joined text at `begin`. */
  predicate OccursAt(joined: string, t: string, begin: nat) {
    begin + |t| <= |joined| && joined[begin..begin + |t|] == t
  }

  lemma SliceOfOccurrence(joined: string, t: string, begin: nat, a: nat, b: nat)
    requires OccursAt(joined, t, begin) && a <= b <= |t|
    ensures joined[begin + a..begin + b] == t[a..b]
  {
    forall q | 0 <= q < b - a ensures joined[begin + a..begin + b][q] == t[a..b][q] {
      assert joined[begin..begin + |t|][a + q] == t[a + q];
    }
  }

  lemma PieceInside(t: string, words: seq<Range>, w: Window, begin: nat, segment: nat)
    requires Apart(words, |t|) && w.start < w.end <= |words|
    ensures var u := PieceUnit(t, words, w, begin, segment); begin <= u.start < u.end <= begin + |t|
  {
    WordsBracket(words, |t|, w, w.start);
  }

  lemma PiecesDisjoint(t: string, words: seq<Range>, v: Window, w: Window, begin: nat, segment: nat)
    requires Apart(words, |t|) && v.start < v.end <= w.start < w.end <= |words|
    ensures PieceUnit(t, words, v, begin, segment).end <= PieceUnit(t, words, w, begin, segment).start
  {
  }

  lemma PiecesInRow(t: string, cuts: seq<nat>, begin: nat, segment: nat, size: nat)
    requires IsPartition(cuts, |t|)
    ensures Apart(WordsOf(t, cuts), |t|)
    ensures var words := WordsOf(t, cuts);
            var ws := Pieces(WordTokens(t, words), 0, size);
            && Proper(ws, |words|)
            && InRow(PieceUnits(t, words, ws, begin, segment), begin, begin + |t|)
  {
    WordsAreMaximalRuns(t, cuts);
    var words := WordsOf(t, cuts);
    var counts := WordTokens(t, words);
    var ws := Pieces(counts, 0, size);
    if counts != [] {
      PiecesCover(counts, 0, size);
      var us := PieceUnits(t, words, ws, begin, segment);
      forall i | 0 <= i < |us| ensures begin <= us[i].start < us[i].end <= begin + |t| {
        PieceInside(t, words, ws[i], begin, segment);
      }
      forall i, j | 0 <= i < j < |us| ensures us[i].end <= us[j].start {
        PiecesInOrder(ws, i, j);
        PiecesDisjoint(t, words, ws[i], ws[j], begin, segment);
      }
    }
  }

  lemma PieceObeys(joined: string, t: string, cuts: seq<nat>, begin: nat, segment: nat, size: nat, w: Window)
    requires IsPartition(cuts, |t|) && OccursAt(joined, t, begin) && Apart(WordsOf(t, cuts), |t|)
    requires Fits(WordTokens(t, WordsOf(t, cuts)), w.start, w.end, size)
    ensures SentenceLaw(joined, t, cuts, size, PieceUnit(t, WordsOf(t, cuts), w, begin, segment))
  {
    WordsAreMaximalRuns(t, cuts);
    var words := WordsOf(t, cuts);
    PieceIsFairUnit(joined, t, words, begin, segment, w);
    if PieceUnit(t, words, w, begin, segment).tokens > size {
      LargePieceIsWord(joined, t, words, begin, segment, size, w);
      assert IsOversizedWord(t, cuts, size, w.start, t[words[w.start].start..words[w.start].end]);
    }
  }

  lemma PieceIsFairUnit(joined: string, t: string, words: seq<Range>, begin: nat, segment: nat, w: Window)
    requires OccursAt(joined, t, begin) && Apart(words, |t|) && CoversText(t, words, |t|) && w.start < w.end <= |words|
    ensures Fair(joined, PieceUnit(t, words, w, begin, segment))
  {
    PieceIsFair(t, words, WordTokens(t, words), w.start, w.end);
    var from, to := words[w.start].start, words[w.end - 1].end;
    SliceOfOccurrence(joined, t, begin, from, to);
    var u := PieceUnit(t, words, w, begin, segment);
    assert joined[u.start..u.end] == t[from..to];
  }

  /** A piece over the limit is one word, with that word's own estimate. */
  lemma LargePieceIsWord(joined: string, t: string, words: seq<Range>, begin: nat, segment: nat, size: nat, w: Window)
    requires OccursAt(joined, t, begin) && Apart(words, |t|)
    requires Fits(WordTokens(t, words), w.start, w.end, size) && Sum(WordTokens(t, words), w.start, w.end) > size
    ensures w.end == w.start + 1 <= |words|
    ensures var u := PieceUnit(t, words, w, begin, segment);
            var word := t[words[w.start].start..words[w.start].end];
            u.start <= u.end <= |joined| && joined[u.start..u.end] == word && u.tokens == Estimate(word)
  {
    SingleItem(WordTokens(t, words), w.start);
    SliceOfOccurrence(joined, t, begin, words[w.start].start, words[w.start].end);
  }

  lemma PiecesCoverText(joined: string, t: string, cuts: seq<nat>, begin: nat, segment: nat, size: nat)
    requires IsPartition(cuts, |t|) && OccursAt(joined, t, begin) && Apart(WordsOf(t, cuts), |t|)
    requires Proper(Pieces(WordTokens(t, WordsOf(t, cuts)), 0, size), |WordsOf(t, cuts)|)
    ensures var words := WordsOf(t, cuts);
            var us := PieceUnits(t, words, Pieces(WordTokens(t, words), 0, size), begin, segment);
            Covered(joined, us, begin, begin + |t|)
  {
    WordsAreMaximalRuns(t, cuts);
    var words := WordsOf(t, cuts);
    var us := PieceUnits(t, words, Pieces(WordTokens(t, words), 0, size), begin, segment);
    forall p | begin <= p < begin + |t| && !IsWhitespace(joined[p])
      ensures exists i :: 0 <= i < |us| && Holds(us[i], p)
    {
      assert joined[begin..begin + |t|][p - begin] == joined[p];
      var m :| 0 <= m < |words| && Within(p - begin, words[m]);
      var i := PieceOfWord(t, words, begin, segment, size, m, p);
      assert Holds(us[i], p);
    }
  }

  /** The piece that holds a position of a word. */
  lemma PieceOfWord(t: string, words: seq<Range>, begin: nat, segment: nat, size: nat, m: nat, p: nat) returns (i: nat)
    requires Apart(words, |t|) && Proper(Pieces(WordTokens(t, words), 0, size), |words|)
    requires m < |words| && begin <= p && Within(p - begin, words[m])
    ensures var us := PieceUnits(t, words, Pieces(WordTokens(t, words), 0, size), begin, segment);
            i < |us| && Holds(us[i], p)
  {
    var ws := Pieces(WordTokens(t, words), 0, size);
    i := PieceOfItem(WordTokens(t, words), 0, size, m);
    assert PieceUnits(t, words, ws, begin, segment)[i] == PieceUnit(t, words, ws[i], begin, segment);
    WordsBracket(words, |t|, ws[i], m);
  }

  lemma WordsBracket(words: seq<Range>, length: nat, w: Window, m: nat)
    requires Apart(words, length) && w.start <= m < w.end <= |words|
    ensures words[w.start].start <= words[m].start && words[m].end <= words[w.end - 1].end
  {
  }

  /** Only the first piece of a sentence is marked as its start, and later ones have text before them. */
  lemma PieceFlags(t: string, cuts: seq<nat>, begin: nat, segment: nat, w: Window)
    requires IsPartition(cuts, |t|) && Apart(WordsOf(t, cuts), |t|) && w.start < w.end <= |WordsOf(t, cuts)|
    requires t != "" && !IsWhitespace(t[0])
    ensures var u := PieceUnit(t, WordsOf(t, cuts), w, begin, segment);
            && begin <= u.start < begin + |t|
            && (u.sentenceStart <==> u.start == begin)
  {
    WordsAreMaximalRuns(t, cuts);
    var words := WordsOf(t, cuts);
    var i :| 0 <= i < |words| && Within(0, words[i]);
    FirstWordStarts(words, |t|, i, w.start);
  }

  /** When a word holds position 0, only the first word starts there. */
  lemma FirstWordStarts(words: seq<Range>, length: nat, i: nat, a: nat)
    requires Apart(words, length) && i < |words| && Within(0, words[i]) && a < |words|
    ensures words[a].start < length && (words[a].start == 0 <==> a == 0)
  {
    StartsGrow(words, length, 0, i);
    StartsGrow(words, length, 0, a);
  }

  lemma StartsGrow(words: seq<Range>, length: nat, a: nat, b: nat)
    requires Apart(words, length) && a <= b < |words|
    ensures words[a].start <= words[b].start && (a < b ==> words[a].start < words[b].start)
  {
    if a < b {
      assert words[a].start < words[a].end < words[b].start;
    }
  }

  /** The laws of one unit of the sentence `t` that begins at `begin`. */
  ghost predicate UnitLaw(joined: string, t: string, cuts: seq<nat>, size: nat, segment: nat, begin: nat, u: Unit)
    requires IsPartition(cuts, |t|)
  {
    UnitPlace(joined, t, cuts, size, segment, begin, u) && UnitCount(t, cuts, size, begin, u)
  }

  ghost predicate UnitPlace(joined: string, t: string, cuts: seq<nat>, size: nat, segment: nat, begin: nat, u: Unit)
    requires IsPartition(cuts, |t|)
  {
    && u.segment == segment && SentenceLaw(joined, t, cuts, size, u)
    && u.start >= begin && (u.sentenceStart <==> u.start == begin)
    && (Estimate(t) <= size ==> u.start == begin && u.end == begin + |t|)
  }

  /** A unit is the sentence if that fits into a chunk, else a run of its words; it counts exactly that. */
  ghost predicate UnitCount(t: string, cuts: seq<nat>, size: nat, begin: nat, u: Unit)
    requires IsPartition(cuts, |t|)
  {
    if Estimate(t) <= size then u.start == begin && u.end == begin + |t| && u.tokens == Estimate(t)
    else IsPiece(t, cuts, size, begin, u)
  }

  /** The unit is a run of words of `t`, counts what they are estimated at, and could not take one word more. */
  ghost predicate IsPiece(t: string, cuts: seq<nat>, size: nat, begin: nat, u: Unit)
    requires IsPartition(cuts, |t|)
  {
    exists counts, a, b :: IsRunOfWords(t, WordsOf(t, cuts), counts, size, begin, a, b, u)
  }

  ghost predicate IsRunOfWords(t: string, words: seq<Range>, counts: seq<nat>, size: nat, begin: nat, a: nat, b: nat,
                               u: Unit)
  {
    Apart(words, |t|) && Counted(t, words, counts) && IsFullRun(words, counts, size, begin, a, b, u)
  }

  predicate IsFullRun(words: seq<Range>, counts: seq<nat>, size: nat, begin: nat, a: nat, b: nat, u: Unit) {
    && a < b <= |words| == |counts|
    && u.start == begin + words[a].start && u.end == begin + words[b - 1].end && u.tokens == Sum(counts, a, b)
    && (b == a + 1 || u.tokens <= size) && (b == |words| || u.tokens + counts[b] > size)
  }

  lemma PieceIsRun(t: string, cuts: seq<nat>, begin: nat, segment: nat, size: nat, i: nat)
    requires IsPartition(cuts, |t|) && Apart(WordsOf(t, cuts), |t|)
    requires i < |Pieces(WordTokens(t, WordsOf(t, cuts)), 0, size)|
    ensures var w := Pieces(WordTokens(t, WordsOf(t, cuts)), 0, size)[i];
            && w.start < w.end <= |WordsOf(t, cuts)|
            && IsPiece(t, cuts, size, begin, PieceUnit(t, WordsOf(t, cuts), w, begin, segment))
  {
    var counts := WordTokens(t, WordsOf(t, cuts));
    PiecesFit(counts, size, i);
    PieceIsFull(counts, 0, size, i);
    FullPieceIsRun(t, cuts, begin, segment, size, Pieces(counts, 0, size)[i]);
  }

  lemma FullPieceIsRun(t: string, cuts: seq<nat>, begin: nat, segment: nat, size: nat, w: Window)
    requires IsPartition(cuts, |t|) && Apart(WordsOf(t, cuts), |t|)
    requires Fits(WordTokens(t, WordsOf(t, cuts)), w.start, w.end, size)
    requires var counts := WordTokens(t, WordsOf(t, cuts));
             w.end < |counts| ==> Sum(counts, w.start, w.end) + counts[w.end] > size
    ensures IsPiece(t, cuts, size, begin, PieceUnit(t, WordsOf(t, cuts), w, begin, segment))
  {
    var words := WordsOf(t, cuts);
    var counts, u := WordTokens(t, words), PieceUnit(t, words, w, begin, segment);
    TokensAreCounts(t, words);
    PieceIsFullRun(t, words, begin, segment, size, w);
    RunIsPiece(t, cuts, counts, size, begin, w.start, w.end, u);
  }

  lemma RunIsPiece(t: string, cuts: seq<nat>, counts: seq<nat>, size: nat, begin: nat, a: nat, b: nat, u: Unit)
    requires IsPartition(cuts, |t|) && Apart(WordsOf(t, cuts), |t|)
    requires Counted(t, WordsOf(t, cuts), counts) && IsFullRun(WordsOf(t, cuts), counts, size, begin, a, b, u)
    ensures IsPiece(t, cuts, size, begin, u)
  {
    assert IsRunOfWords(t, WordsOf(t, cuts), counts, size, begin, a, b, u);
  }

  lemma PieceIsFullRun(t: string, words: seq<Range>, begin: nat, segment: nat, size: nat, w: Window)
    requires Apart(words, |t|) && Fits(WordTokens(t, words), w.start, w.end, size)
    requires w.end < |words| ==> Sum(WordTokens(t, words), w.start, w.end) + WordTokens(t, words)[w.end] > size
    ensures IsFullRun(words, WordTokens(t, words), size, begin, w.start, w.end, PieceUnit(t, words, w, begin, segment))
  {
  }

  lemma TokensAreCounts(t: string, words: seq<Range>)
    requires Apart(words, |t|)
    ensures Counted(t, words, WordTokens(t, words))
  {
  }

  /** A piece that is not the last could not take one item more. */
  lemma {:induction false} PieceIsFull(t: seq<nat>, start: nat, size: nat, i: nat)
    requires i < |Pieces(t, start, size)|
    ensures var w := Pieces(t, start, size)[i];
            && w.start < w.end <= |t|
            && (w.end < |t| ==> Sum(t, w.start, w.end) + t[w.end] > size)
    decreases i
  {
    var end := GreedyEnd(t, start, size);
    if i == 0 {
      if end < |t| {
        GreedyEndIsLargest(t, start, size, end + 1);
      }
    } else {
      PieceIsFull(t, end, size, i - 1);
    }
  }

  ghost predicate UnitLaws(joined: string, t: string, cuts: seq<nat>, size: nat, segment: nat, begin: nat,
                           us: seq<Unit>)
    requires IsPartition(cuts, |t|)
  {
    forall i :: 0 <= i < |us| ==> UnitLaw(joined, t, cuts, size, segment, begin, us[i])
  }

  lemma PiecesObey(joined: string, t: string, cuts: seq<nat>, begin: nat, segment: nat, size: nat)
    requires IsPartition(cuts, |t|) && OccursAt(joined, t, begin) && t != "" && !IsWhitespace(t[0])
    requires Estimate(t) > size
    ensures var us := LongSentenceUnits(t, cuts, begin, segment, size);
            && InRow(us, begin, begin + |t|) && Covered(joined, us, begin, begin + |t|)
            && UnitLaws(joined, t, cuts, size, segment, begin, us)
  {
    PiecesInRow(t, cuts, begin, segment, size);
    PiecesCoverText(joined, t, cuts, begin, segment, size);
    var words := WordsOf(t, cuts);
    var ws := Pieces(WordTokens(t, words), 0, size);
    var us := PieceUnits(t, words, ws, begin, segment);
    forall i | 0 <= i < |us| ensures UnitLaw(joined, t, cuts, size, segment, begin, us[i]) {
      assert us[i] == PieceUnit(t, words, ws[i], begin, segment);
      PiecesFit(WordTokens(t, words), size, i);
      PieceObeys(joined, t, cuts, begin, segment, size, ws[i]);
      PieceFlags(t, cuts, begin, segment, ws[i]);
      PieceIsRun(t, cuts, begin, segment, size, i);
    }
  }

  lemma WholeObeys(joined: string, t: string, cuts: seq<nat>, begin: nat, segment: nat, size: nat)
    requires IsPartition(cuts, |t|) && OccursAt(joined, t, begin) && t != "" && Estimate(t) <= size
    ensures var us := [Unit(begin, begin + |t|, Estimate(t), segment, true)];
            && InRow(us, begin, begin + |t|) && Covered(joined, us, begin, begin + |t|)
            && UnitLaws(joined, t, cuts, size, segment, begin, us)
  {
    var u := Unit(begin, begin + |t|, Estimate(t), segment, true);
    assert Fair(joined, u) && UnitLaw(joined, t, cuts, size, segment, begin, u);
    OneUnitCovers(joined, u, begin, begin + |t|);
  }

  lemma OneUnitCovers(joined: string, u: Unit, lo: nat, hi: nat)
    requires lo < hi <= |joined| && u.start == lo && u.end == hi
    ensures InRow([u], lo, hi) && Covered(joined, [u], lo, hi)
  {
    var us := [u];
    forall p | lo <= p < hi && !IsWhitespace(joined[p]) ensures exists i :: 0 <= i < |us| && Holds(us[i], p) {
      assert Holds(us[0], p);
    }
  }

  /** Blank text around units does not matter. */
  lemma Widens(joined: string, us: seq<Unit>, lo: nat, hi: nat, wideLo: nat, wideHi: nat)
    requires wideLo <= lo && hi <= wideHi <= |joined| && InRow(us, lo, hi) && Covered(joined, us, lo, hi)
    requires forall p :: wideLo <= p < wideHi && !IsWhitespace(joined[p]) ==> lo <= p < hi
    ensures InRow(us, wideLo, wideHi) && Covered(joined, us, wideLo, wideHi)
  {
  }

  /** `us` are lawful units for a sentence of `length` that stands at `base`. */
  ghost predicate SentenceLaws(joined: string, sentence: string, cuts: seq<nat>, base: nat, segment: nat, size: nat,
                               us: seq<Unit>)
    requires IsPartition(cuts, |Trim(sentence)|) && base + |sentence| <= |joined|
  {
    && InRow(us, base, base + |sentence|) && Covered(joined, us, base, base + |sentence|)
    && UnitLaws(joined, Trim(sentence), cuts, size, segment, base + Lead(sentence), us)
  }

  lemma TrimmedObeys(joined: string, sentence: string, cuts: seq<nat>, base: nat, segment: nat, size: nat,
                     us: seq<Unit>)
    requires IsPartition(cuts, |Trim(sentence)|) && OccursAt(joined, sentence, base)
    requires var t, begin := Trim(sentence), base + Lead(sentence);
             begin + |t| <= |joined| && InRow(us, begin, begin + |t|) && Covered(joined, us, begin, begin + |t|)
             && UnitLaws(joined, t, cuts, size, segment, begin, us)
    ensures SentenceLaws(joined, sentence, cuts, base, segment, size, us)
  {
    TrimIsSlice(sentence);
    OnlyTrimmedMatters(joined, sentence, base);
    Widens(joined, us, base + Lead(sentence), base + Lead(sentence) + |Trim(sentence)|, base, base + |sentence|);
  }

  lemma BlankObeys(joined: string, sentence: string, cuts: seq<nat>, base: nat, segment: nat, size: nat)
    requires IsPartition(cuts, |Trim(sentence)|) && OccursAt(joined, sentence, base) && Trim(sentence) == ""
    ensures SentenceLaws(joined, sentence, cuts, base, segment, size, [])
  {
    OnlyTrimmedMatters(joined, sentence, base);
  }

  lemma SmallSentenceObeys(joined: string, sentence: string, cuts: seq<nat>, base: nat, segment: nat, size: nat)
    requires IsPartition(cuts, |Trim(sentence)|) && OccursAt(joined, sentence, base)
    requires Trim(sentence) != "" && Estimate(Trim(sentence)) <= size
    requires OccursAt(joined, Trim(sentence), base + Lead(sentence))
    ensures SentenceLaws(joined, sentence, cuts, base, segment, size,
                         SentenceUnits(sentence, cuts, base, segment, size))
  {
    var t, begin := Trim(sentence), base + Lead(sentence);
    var us := [Unit(begin, begin + |t|, Estimate(t), segment, true)];
    assert SentenceUnits(sentence, cuts, base, segment, size) == us;
    WholeObeys(joined, t, cuts, begin, segment, size);
    TrimmedObeys(joined, sentence, cuts, base, segment, size, us);
  }

  lemma LargeSentenceObeys(joined: string, sentence: string, cuts: seq<nat>, base: nat, segment: nat, size: nat)
    requires IsPartition(cuts, |Trim(sentence)|) && OccursAt(joined, sentence, base)
    requires Trim(sentence) != "" && Estimate(Trim(sentence)) > size
    requires OccursAt(joined, Trim(sentence), base + Lead(sentence))
    ensures SentenceLaws(joined, sentence, cuts, base, segment, size,
                         LongSentenceUnits(Trim(sentence), cuts, base + Lead(sentence), segment, size))
  {
    TrimHasNoBlankEnds(sentence);
    PiecesObey(joined, Trim(sentence), cuts, base + Lead(sentence), segment, size);
    TrimmedObeys(joined, sentence, cuts, base, segment, size,
                 LongSentenceUnits(Trim(sentence), cuts, base + Lead(sentence), segment, size));
  }

  lemma LargeUnits(sentence: string, cuts: seq<nat>, base: nat, segment: nat, size: nat)
    requires IsPartition(cuts, |Trim(sentence)|) && Trim(sentence) != "" && Estimate(Trim(sentence)) > size
    ensures SentenceUnits(sentence, cuts, base, segment, size)
         == LongSentenceUnits(Trim(sentence), cuts, base + Lead(sentence), segment, size)
  {
  }

  /** The laws of the units of one sentence. */
  lemma SentenceObeys(joined: string, sentence: string, cuts: seq<nat>, base: nat, segment: nat, size: nat)
    requires IsPartition(cuts, |Trim(sentence)|) && OccursAt(joined, sentence, base)
    ensures SentenceLaws(joined, sentence, cuts, base, segment, size,
                         SentenceUnits(sentence, cuts, base, segment, size))
  {
    TrimIsSlice(sentence);
    SliceOfOccurrence(joined, sentence, base, Lead(sentence), Lead(sentence) + |Trim(sentence)|);
    if Trim(sentence) == "" {
      BlankObeys(joined, sentence, cuts, base, segment, size);
    } else if Estimate(Trim(sentence)) <= size {
      SmallSentenceObeys(joined, sentence, cuts, base, segment, size);
    } else {
      LargeUnits(sentence, cuts, base, segment, size);
      LargeSentenceObeys(joined, sentence, cuts, base, segment, size);
    }
  }

  lemma PiecesFit(t: seq<nat>, size: nat, i: nat)
    requires i < |Pieces(t, 0, size)|
    ensures Fits(t, Pieces(t, 0, size)[i].start, Pieces(t, 0, size)[i].end, size)
  {
    PiecesCover(t, 0, size);
  }

  lemma TrimHasNoBlankEnds(s: string)
    ensures Trim(s) != "" ==> !IsWhitespace(Trim(s)[0])
  {
    TrimStartCuts(s);
    TrimEndCuts(TrimStart(s));
  }

  /** What is not white space in a sentence is in its trimmed text. */
  lemma OnlyTrimmedMatters(joined: string, sentence: string, base: nat)
    requires OccursAt(joined, sentence, base)
    ensures forall p :: base <= p < base + |sentence| && !IsWhitespace(joined[p]) ==>
              base + Lead(sentence) <= p < base + Lead(sentence) + |Trim(sentence)|
  {
    TrimIsSlice(sentence);
    var lead, end := Lead(sentence), Lead(sentence) + |Trim(sentence)|;
    BlankStretch(sentence, 0, lead);
    BlankStretch(sentence, end, |sentence|);
    forall p | base <= p < base + |sentence| && !IsWhitespace(joined[p]) ensures base + lead <= p < base + end {
      assert joined[base..base + |sentence|][p - base] == joined[p];
    }
  }

  lemma BlankStretch(s: string, a: nat, b: nat)
    requires a <= b <= |s| && IsBlank(s[a..b])
    ensures forall i :: a <= i < b ==> IsWhitespace(s[i])
  {
    forall i | a <= i < b ensures IsWhitespace(s[i]) {
      assert s[a..b][i - a] == s[i];
    }
  }

  // ---- one segment ----

  /** Position `p` of the segment is where its sentence `k` begins, its blank lead aside. */
  ghost predicate SentenceBegins(text: string, splits: Splits, p: int, k: nat)
    requires Divides(text, splits) && k < |splits.clusters|
  {
    p == splits.sentences[k] + Lead(SentenceAt(text, splits, k))
  }

  ghost predicate StartsSentence(text: string, splits: Splits, p: int)
    requires Divides(text, splits)
  {
    exists k :: 0 <= k < |splits.clusters| && SentenceBegins(text, splits, p, k)
  }

  /** Position `p` of the segment is strictly inside its sentence `k`, blank ends aside. */
  ghost predicate InsideSentence(text: string, splits: Splits, p: int, k: nat)
    requires Divides(text, splits) && k < |splits.clusters|
  {
    var begin, t := splits.sentences[k] + Lead(SentenceAt(text, splits, k)), Trim(SentenceAt(text, splits, k));
    begin < p < begin + |t|
  }

  /** A cut at `p` goes through no sentence that fits into a chunk. */
  ghost predicate SparesSentences(text: string, splits: Splits, size: nat, p: int)
    requires Divides(text, splits)
  {
    forall k :: 0 <= k < |splits.clusters| && InsideSentence(text, splits, p, k) ==>
      Estimate(Trim(SentenceAt(text, splits, k))) > size
  }

  /** Sentences keep out of each other: a position of sentence `k`, its end included, is inside no other. */
  lemma InsideOneSentence(text: string, splits: Splits, k: nat, m: nat, p: int)
    requires Divides(text, splits) && k < |splits.clusters| && m < |splits.clusters| && k != m
    requires splits.sentences[k] <= p <= splits.sentences[k + 1]
    ensures !InsideSentence(text, splits, p, m)
  {
    TrimIsSlice(SentenceAt(text, splits, m));
    if m < k {
      assert splits.sentences[m + 1] <= splits.sentences[k];
    } else {
      assert splits.sentences[k + 1] <= splits.sentences[m];
    }
  }

  lemma InsideNoOther(text: string, splits: Splits, k: nat, p: int)
    requires Divides(text, splits) && k < |splits.clusters|
    requires splits.sentences[k] <= p <= splits.sentences[k + 1]
    ensures forall m :: 0 <= m < |splits.clusters| && m != k ==> !InsideSentence(text, splits, p, m)
  {
    forall m | 0 <= m < |splits.clusters| && m != k ensures !InsideSentence(text, splits, p, m) {
      InsideOneSentence(text, splits, k, m, p);
    }
  }

  lemma UnitSparesSentences(joined: string, text: string, splits: Splits, offset: nat, segment: nat, size: nat, k: nat,
                            u: Unit)
    requires Divides(text, splits) && k < |splits.clusters|
    requires var begin := offset + splits.sentences[k] + Lead(SentenceAt(text, splits, k));
             UnitPlace(joined, Trim(SentenceAt(text, splits, k)), splits.clusters[k], size, segment, begin, u)
    requires offset + splits.sentences[k] <= u.start < u.end <= offset + splits.sentences[k + 1]
    ensures SparesSentences(text, splits, size, u.start - offset)
    ensures SparesSentences(text, splits, size, u.end - offset)
  {
    InsideNoOther(text, splits, k, u.start - offset);
    InsideNoOther(text, splits, k, u.end - offset);
  }

  /** The laws of one unit of a segment that stands at `offset`. */
  ghost predicate SegmentLaw(joined: string, text: string, splits: Splits, offset: nat, segment: nat, size: nat,
                             u: Unit)
    requires Divides(text, splits)
  {
    && SegmentPlace(joined, text, splits, offset, segment, size, u)
    && exists k :: 0 <= k < |splits.clusters| && IsPart(text, splits, offset, size, k, u)
  }

  ghost predicate SegmentPlace(joined: string, text: string, splits: Splits, offset: nat, segment: nat, size: nat,
                               u: Unit)
    requires Divides(text, splits)
  {
    && u.segment == segment && Fair(joined, u)
    && (u.tokens > size ==>
          u.tokens == Estimate(joined[u.start..u.end]) && OversizedWord(text, splits, size, joined[u.start..u.end]))
    && (u.sentenceStart <==> StartsSentence(text, splits, u.start - offset))
    && SparesSentences(text, splits, size, u.start - offset) && SparesSentences(text, splits, size, u.end - offset)
  }

  /** The unit counts what it is, in sentence `k`. */
  ghost predicate IsPart(text: string, splits: Splits, offset: nat, size: nat, k: nat, u: Unit)
    requires Divides(text, splits) && k < |splits.clusters|
  {
    UnitCount(Trim(SentenceAt(text, splits, k)), splits.clusters[k], size,
              offset + splits.sentences[k] + Lead(SentenceAt(text, splits, k)), u)
  }

  ghost predicate SegmentLaws(joined: string, text: string, splits: Splits, offset: nat, segment: nat, size: nat,
                              us: seq<Unit>)
    requires Divides(text, splits)
  {
    forall i :: 0 <= i < |us| ==> SegmentLaw(joined, text, splits, offset, segment, size, us[i])
  }

  lemma RowsJoin(joined: string, us: seq<Unit>, vs: seq<Unit>, lo: nat, mid: nat, next: nat, hi: nat)
    requires InRow(us, lo, mid) && InRow(vs, next, hi) && mid <= next && hi <= |joined|
    requires Covered(joined, us, lo, mid) && Covered(joined, vs, next, hi)
    requires forall p :: mid <= p < next ==> IsWhitespace(joined[p])
    ensures InRow(us + vs, lo, hi) && Covered(joined, us + vs, lo, hi)
  {
    var all := us + vs;
    forall p | lo <= p < hi && !IsWhitespace(joined[p]) ensures exists i :: 0 <= i < |all| && Holds(all[i], p) {
      if p < mid {
        var i :| 0 <= i < |us| && Holds(us[i], p);
        assert Holds(all[i], p);
      } else {
        var i :| 0 <= i < |vs| && Holds(vs[i], p);
        assert Holds(all[|us| + i], p);
      }
    }
  }

  lemma UnitOfSentenceObeys(joined: string, text: string, splits: Splits, offset: nat, segment: nat, size: nat, k: nat,
                            u: Unit)
    requires Divides(text, splits) && k < |splits.clusters|
    requires var begin := offset + splits.sentences[k] + Lead(SentenceAt(text, splits, k));
             UnitLaw(joined, Trim(SentenceAt(text, splits, k)), splits.clusters[k], size, segment, begin, u)
    requires offset + splits.sentences[k] <= u.start < u.end <= offset + splits.sentences[k + 1]
    ensures SegmentLaw(joined, text, splits, offset, segment, size, u)
  {
    UnitOfSentenceFits(joined, text, splits, offset, segment, size, k, u);
    assert IsPart(text, splits, offset, size, k, u);
  }

  lemma UnitOfSentenceFits(joined: string, text: string, splits: Splits, offset: nat, segment: nat, size: nat, k: nat,
                           u: Unit)
    requires Divides(text, splits) && k < |splits.clusters|
    requires var begin := offset + splits.sentences[k] + Lead(SentenceAt(text, splits, k));
             UnitPlace(joined, Trim(SentenceAt(text, splits, k)), splits.clusters[k], size, segment, begin, u)
    requires offset + splits.sentences[k] <= u.start < u.end <= offset + splits.sentences[k + 1]
    ensures SegmentPlace(joined, text, splits, offset, segment, size, u)
  {
    UnitSparesSentences(joined, text, splits, offset, segment, size, k, u);
    if u.sentenceStart {
      assert SentenceBegins(text, splits, u.start - offset, k);
    } else {
      var p := u.start - offset;
      forall m | 0 <= m < |splits.clusters| ensures !SentenceBegins(text, splits, p, m) {
        TrimIsSlice(SentenceAt(text, splits, m));
        if m < k {
          assert splits.sentences[m + 1] <= splits.sentences[k];
        } else if m > k {
          assert splits.sentences[k + 1] <= splits.sentences[m];
        }
      }
    }
    if u.tokens > size {
      var i :| IsOversizedWord(Trim(SentenceAt(text, splits, k)), splits.clusters[k], size, i, joined[u.start..u.end]);
      assert IsOversizedWord(Trim(SentenceAt(text, splits, k)), splits.clusters[k], size, i, joined[u.start..u.end]);
    }
  }

  /** `us` are lawful units of sentence `k` and cover it. */
  ghost predicate LawfulPart(joined: string, text: string, splits: Splits, offset: nat, segment: nat, size: nat,
                             k: nat, j: nat, us: seq<Unit>)
    requires Divides(text, splits) && j == k + 1 <= |splits.clusters|
  {
    && offset + splits.sentences[j] <= |joined|
    && InRow(us, offset + splits.sentences[k], offset + splits.sentences[j])
    && Covered(joined, us, offset + splits.sentences[k], offset + splits.sentences[j])
    && SegmentLaws(joined, text, splits, offset, segment, size, us)
  }

  lemma SentenceInSegment(joined: string, text: string, splits: Splits, offset: nat, segment: nat, size: nat, k: nat,
                          j: nat)
    requires Divides(text, splits) && OccursAt(joined, text, offset) && j == k + 1 <= |splits.clusters|
    ensures LawfulPart(joined, text, splits, offset, segment, size, k, j,
                       UnitsAt(text, splits, offset, segment, size, k))
  {
    CutInside(text, splits, j);
    SliceOfOccurrence(joined, text, offset, splits.sentences[k], splits.sentences[j]);
    var us := UnitsAt(text, splits, offset, segment, size, k);
    SentenceObeys(joined, SentenceAt(text, splits, k), splits.clusters[k], offset + splits.sentences[k], segment, size);
    PartIsLawful(joined, text, splits, offset, segment, size, k, j, us);
  }

  lemma PartIsLawful(joined: string, text: string, splits: Splits, offset: nat, segment: nat, size: nat, k: nat, j: nat,
                     us: seq<Unit>)
    requires Divides(text, splits) && OccursAt(joined, text, offset) && j == k + 1 <= |splits.clusters|
    requires splits.sentences[j] <= |text|
    requires SentenceLaws(joined, SentenceAt(text, splits, k), splits.clusters[k], offset + splits.sentences[k],
                          segment, size, us)
    ensures LawfulPart(joined, text, splits, offset, segment, size, k, j, us)
  {
    assert offset + splits.sentences[k] + |SentenceAt(text, splits, k)| == offset + splits.sentences[j];
    UnitsOfSentenceObey(joined, text, splits, offset, segment, size, k, us);
  }

  lemma UnitsOfSentenceObey(joined: string, text: string, splits: Splits, offset: nat, segment: nat, size: nat, k: nat,
                            us: seq<Unit>)
    requires Divides(text, splits) && k < |splits.clusters|
    requires var begin := offset + splits.sentences[k] + Lead(SentenceAt(text, splits, k));
             UnitLaws(joined, Trim(SentenceAt(text, splits, k)), splits.clusters[k], size, segment, begin, us)
    requires InRow(us, offset + splits.sentences[k], offset + splits.sentences[k + 1])
    ensures SegmentLaws(joined, text, splits, offset, segment, size, us)
  {
    forall i | 0 <= i < |us| ensures SegmentLaw(joined, text, splits, offset, segment, size, us[i]) {
      UnitOfSentenceObeys(joined, text, splits, offset, segment, size, k, us[i]);
    }
  }

  ghost predicate LawfulTo(joined: string, text: string, splits: Splits, offset: nat, segment: nat, size: nat, k: nat,
                           us: seq<Unit>)
    requires Divides(text, splits) && OccursAt(joined, text, offset) && k <= |splits.clusters|
  {
    && splits.sentences[k] <= |text|
    && InRow(us, offset, offset + splits.sentences[k])
    && Covered(joined, us, offset, offset + splits.sentences[k])
    && SegmentLaws(joined, text, splits, offset, segment, size, us)
  }

  lemma LawfulJoin(joined: string, text: string, splits: Splits, offset: nat, segment: nat, size: nat, k: nat, j: nat,
                   us: seq<Unit>, more: seq<Unit>)
    requires Divides(text, splits) && OccursAt(joined, text, offset) && j == k + 1 <= |splits.clusters|
    requires LawfulTo(joined, text, splits, offset, segment, size, k, us)
    requires LawfulPart(joined, text, splits, offset, segment, size, k, j, more)
    ensures LawfulTo(joined, text, splits, offset, segment, size, j, us + more)
  {
    CutInside(text, splits, j);
    var mid := offset + splits.sentences[k];
    RowsJoin(joined, us, more, offset, mid, mid, offset + splits.sentences[j]);
    LawsJoin(joined, text, splits, offset, segment, size, us, more);
  }

  lemma LawfulStep(joined: string, text: string, splits: Splits, offset: nat, segment: nat, size: nat, k: nat, j: nat)
    requires Divides(text, splits) && OccursAt(joined, text, offset) && j == k + 1 <= |splits.clusters|
    requires LawfulTo(joined, text, splits, offset, segment, size, k, UnitsTo(text, splits, offset, segment, size, k))
    ensures LawfulTo(joined, text, splits, offset, segment, size, j, UnitsTo(text, splits, offset, segment, size, j))
  {
    UnitsToStep(text, splits, offset, segment, size, k, j);
    SentenceInSegment(joined, text, splits, offset, segment, size, k, j);
    LawfulJoin(joined, text, splits, offset, segment, size, k, j, UnitsTo(text, splits, offset, segment, size, k),
               UnitsAt(text, splits, offset, segment, size, k));
  }

  lemma CutInside(text: string, splits: Splits, k: nat)
    requires Divides(text, splits) && k <= |splits.clusters|
    ensures splits.sentences[k] <= |text|
  {
    assert splits.sentences[|splits.sentences| - 1] == |text|;
  }

  /** The laws of the units of the first `k` sentences. */
  lemma {:induction false} SegmentObeys(joined: string, text: string, splits: Splits, offset: nat, segment: nat,
                                        size: nat, k: nat)
    requires Divides(text, splits) && OccursAt(joined, text, offset) && k <= |splits.clusters|
    ensures LawfulTo(joined, text, splits, offset, segment, size, k, UnitsTo(text, splits, offset, segment, size, k))
  {
    CutInside(text, splits, k);
    if k > 0 {
      SegmentObeys(joined, text, splits, offset, segment, size, k - 1);
      LawfulStep(joined, text, splits, offset, segment, size, k - 1, k);
    }
  }

  lemma LawsJoin(joined: string, text: string, splits: Splits, offset: nat, segment: nat, size: nat, us: seq<Unit>,
                 vs: seq<Unit>)
    requires Divides(text, splits)
    requires SegmentLaws(joined, text, splits, offset, segment, size, us)
    requires SegmentLaws(joined, text, splits, offset, segment, size, vs)
    ensures SegmentLaws(joined, text, splits, offset, segment, size, us + vs)
  {
  }
}
