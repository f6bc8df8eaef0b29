/**
 * Packing units: whole sentences, or pieces of a sentence that is larger than a chunk.
 * Sentence cuts are given (Unicode Standard Annex #29, section 5), as grapheme cuts are.
 */
module ChunkUnits {
  import opened Wrappers
  import opened Seqs
  import opened Text
  import opened Words
  import opened TokenEstimate
  import opened Greedy

  datatype Unit = Unit(start: nat, end: nat, tokens: nat, segment: nat, sentenceStart: bool)

  /** The given splits of a segment: its sentence cuts, and for every trimmed sentence its grapheme cuts. */
  datatype Splits = Splits(sentences: seq<nat>, clusters: seq<seq<nat>>)

  ghost predicate Divides(text: string, splits: Splits) {
    && IsPartition(splits.sentences, |text|)
    && |splits.clusters| == |splits.sentences| - 1
    && forall k :: 0 <= k < |splits.clusters| ==> IsPartition(splits.clusters[k], |Trim(SentenceAt(text, splits, k))|)
  }

  function SentenceAt(text: string, splits: Splits, k: nat): string
    requires IsPartition(splits.sentences, |text|) && k + 1 < |splits.sentences|
  {
    text[splits.sentences[k]..splits.sentences[k + 1]]
  }

  /** The blank lead that trimming cuts off. */
  function Lead(s: string): nat {
    TrimStartCuts(s);
    |s| - |TrimStart(s)|
  }

  lemma TrimIsSlice(s: string)
    ensures Lead(s) + |Trim(s)| <= |s| && Trim(s) == s[Lead(s)..Lead(s) + |Trim(s)|]
    ensures IsBlank(s[..Lead(s)]) && IsBlank(s[Lead(s) + |Trim(s)|..])
  {
    TrimStartCuts(s);
    TrimEndCuts(TrimStart(s));
    var t := TrimStart(s);
    assert t == s[Lead(s)..];
    assert s[Lead(s) + |Trim(s)|..] == t[|Trim(s)|..];
  }

  function WordTokens(t: string, words: seq<Range>): (r: seq<nat>)
    requires Apart(words, |t|)
    ensures |r| == |words|
  {
    seq(|words|, i requires 0 <= i < |words| => Estimate(t[words[i].start..words[i].end]))
  }

  /** The unit of a window of words of the trimmed sentence `t`, which starts at `begin`. */
  function PieceUnit(t: string, words: seq<Range>, w: Window, begin: nat, segment: nat): Unit
    requires Apart(words, |t|) && w.start < w.end <= |words|
  {
    Unit(begin + words[w.start].start, begin + words[w.end - 1].end,
         Sum(WordTokens(t, words), w.start, w.end), segment, w.start == 0)
  }

  function PieceUnits(t: string, words: seq<Range>, ws: seq<Window>, begin: nat, segment: nat): (r: seq<Unit>)
    requires Apart(words, |t|) && Proper(ws, |words|)
    ensures |r| == |ws|
  {
    seq(|ws|, i requires 0 <= i < |ws| => PieceUnit(t, words, ws[i], begin, segment))
  }

  /** The units of one sentence that starts at `base`; `cuts` are the clusters of its trimmed text. */
  function SentenceUnits(sentence: string, cuts: seq<nat>, base: nat, segment: nat, size: nat): seq<Unit>
    requires IsPartition(cuts, |Trim(sentence)|)
  {
    var t, begin := Trim(sentence), base + Lead(sentence);
    if t == "" then []
    else if Estimate(t) <= size then [Unit(begin, begin + |t|, Estimate(t), segment, true)]
    else LongSentenceUnits(t, cuts, begin, segment, size)
  }

  /** The pieces of a trimmed sentence that is larger than a chunk. */
  function LongSentenceUnits(t: string, cuts: seq<nat>, begin: nat, segment: nat, size: nat): seq<Unit>
    requires IsPartition(cuts, |t|)
  {
    var words := WordsOf(t, cuts);
    WordsAreMaximalRuns(t, cuts);
    PiecesAreProper(WordTokens(t, words), size);
    PieceUnits(t, words, Pieces(WordTokens(t, words), 0, size), begin, segment)
  }

  lemma PiecesAreProper(t: seq<nat>, size: nat)
    ensures Proper(Pieces(t, 0, size), |t|)
  {
    if t != [] {
      PiecesCover(t, 0, size);
    }
  }

  /** The units of the first `k` sentences of a segment that starts at `offset`. */
  function UnitsTo(text: string, splits: Splits, offset: nat, segment: nat, size: nat, k: nat): seq<Unit>
    requires Divides(text, splits) && k <= |splits.clusters|
  {
    if k == 0 then []
    else
      UnitsTo(text, splits, offset, segment, size, k - 1) + UnitsAt(text, splits, offset, segment, size, k - 1)
  }

  /** The units of sentence `k` of a segment that starts at `offset`. */
  function UnitsAt(text: string, splits: Splits, offset: nat, segment: nat, size: nat, k: nat): seq<Unit>
    requires Divides(text, splits) && k < |splits.clusters|
  {
    SentenceUnits(SentenceAt(text, splits, k), splits.clusters[k], offset + splits.sentences[k], segment, size)
  }

  function SegmentUnits(text: string, splits: Splits, offset: nat, segment: nat, size: nat): seq<Unit>
    requires Divides(text, splits)
  {
    UnitsTo(text, splits, offset, segment, size, |splits.clusters|)
  }

  /** `sentence_units`: pushes the units of a segment onto those collected so far. */
  method PushUnits(text: string, splits: Splits, offset: nat, segment: nat, size: nat, units0: seq<Unit>)
    returns (units: seq<Unit>)
    requires Divides(text, splits)
    ensures units == units0 + SegmentUnits(text, splits, offset, segment, size)
  {
    units := units0;
    for k := 0 to |splits.clusters|
      invariant SentencesPushed(text, splits, offset, segment, size, k, units0, units)
    {
      units := PushSentence(text, splits, offset, segment, size, k, units, units0);
    }
  }

  /** One turn of the sentence loop. */
  method PushSentence(text: string, splits: Splits, offset: nat, segment: nat, size: nat, k: nat,
                      units1: seq<Unit>, ghost units0: seq<Unit>)
    returns (units: seq<Unit>)
    requires Divides(text, splits) && k < |splits.clusters|
    requires SentencesPushed(text, splits, offset, segment, size, k, units0, units1)
    ensures SentencesPushed(text, splits, offset, segment, size, k + 1, units0, units)
  {
    var more := UnitsOfSentence(SentenceAt(text, splits, k), splits.clusters[k],
                                offset + splits.sentences[k], segment, size);
    SentencePushed(text, splits, offset, segment, size, k, units0, units1, more, k + 1);
    units := units1 + more;
  }

  lemma UnitsToStep(text: string, splits: Splits, offset: nat, segment: nat, size: nat, k: nat, j: nat)
    requires Divides(text, splits) && j == k + 1 <= |splits.clusters|
    ensures UnitsTo(text, splits, offset, segment, size, j) ==
            UnitsTo(text, splits, offset, segment, size, k) + UnitsAt(text, splits, offset, segment, size, k)
  {
  }

  ghost predicate SentencesPushed(text: string, splits: Splits, offset: nat, segment: nat, size: nat, k: nat,
                                  units0: seq<Unit>, units: seq<Unit>)
    requires Divides(text, splits) && k <= |splits.clusters|
  {
    units == units0 + UnitsTo(text, splits, offset, segment, size, k)
  }

  lemma SentencePushed(text: string, splits: Splits, offset: nat, segment: nat, size: nat, k: nat,
                       units0: seq<Unit>, units: seq<Unit>, more: seq<Unit>, j: nat)
    requires Divides(text, splits) && j == k + 1 <= |splits.clusters|
    requires SentencesPushed(text, splits, offset, segment, size, k, units0, units)
    requires more == UnitsAt(text, splits, offset, segment, size, k)
    ensures SentencesPushed(text, splits, offset, segment, size, j, units0, units + more)
  {
    UnitsToStep(text, splits, offset, segment, size, k, j);
    AppendLater(units0, UnitsTo(text, splits, offset, segment, size, k), more,
                UnitsTo(text, splits, offset, segment, size, j));
  }

  /** The body of the sentence loop: the units it pushes. */
  method UnitsOfSentence(sentence: string, cuts: seq<nat>, base: nat, segment: nat, size: nat)
    returns (units: seq<Unit>)
    requires IsPartition(cuts, |Trim(sentence)|)
    ensures units == SentenceUnits(sentence, cuts, base, segment, size)
  {
    var trimmed := Trim(sentence);
    if trimmed == "" {
      return [];
    }
    var begin := base + Lead(sentence);
    var tokens := EstimateTokens(trimmed);
    if tokens <= size {
      return [Unit(begin, begin + |trimmed|, tokens, segment, true)];
    }
    var words := ScanWords(trimmed, cuts);
    WordsAreMaximalRuns(trimmed, cuts);
    PiecesAreProper(WordTokens(trimmed, words), size);
    units := PushPieces(trimmed, words, begin, segment, size, Pieces(WordTokens(trimmed, words), 0, size));
  }

  /** The first `n` pieces have been closed, and the open one starts at `start`. */
  ghost predicate Closed(counts: seq<nat>, size: nat, all: seq<Window>, n: nat, start: nat) {
    n <= |all| && all[n..] == Pieces(counts, start, size)
  }

  lemma CloseNext(counts: seq<nat>, size: nat, all: seq<Window>, n: nat, start: nat)
    requires Closed(counts, size, all, n, start) && start < |counts|
    ensures n < |all| && all[n] == Window(start, GreedyEnd(counts, start, size))
    ensures Closed(counts, size, all, n + 1, GreedyEnd(counts, start, size))
  {
    assert all[n..][1..] == all[n + 1..];
  }

  /** The first `n` pieces have been pushed as units. */
  ghost predicate Pushed(t: string, words: seq<Range>, all: seq<Window>, begin: nat, segment: nat, n: nat,
                         units: seq<Unit>)
    requires Apart(words, |t|) && Proper(all, |words|)
  {
    n <= |all| && units == PieceUnits(t, words, all[..n], begin, segment)
  }

  lemma PushNext(t: string, words: seq<Range>, all: seq<Window>, begin: nat, segment: nat, n: nat, units: seq<Unit>)
    requires Apart(words, |t|) && Proper(all, |words|)
    requires Pushed(t, words, all, begin, segment, n, units) && n < |all|
    ensures Pushed(t, words, all, begin, segment, n + 1, units + [PieceUnit(t, words, all[n], begin, segment)])
  {
    assert PieceUnits(t, words, all[..n + 1], begin, segment) ==
           PieceUnits(t, words, all[..n], begin, segment) + [PieceUnit(t, words, all[n], begin, segment)];
  }

  /** The open piece: the words from `start` on, with their tokens added up. */
  ghost predicate Open(counts: seq<nat>, words: seq<Range>, size: nat, start: nat, i: nat, piece: Option<Range>,
                       tokens: nat)
  {
    && start < i <= |words| == |counts|
    && piece == Some(Range(words[start].start, words[i - 1].end))
    && tokens == Sum(counts, start, i) && Fits(counts, start, i, size)
  }

  /** Closing the open piece pushes exactly its unit. */
  lemma PieceCloses(t: string, words: seq<Range>, counts: seq<nat>, size: nat, all: seq<Window>, begin: nat,
                    segment: nat, n: nat, start: nat, i: nat, piece: Option<Range>, tokens: nat, units: seq<Unit>)
    requires Apart(words, |t|) && counts == WordTokens(t, words)
    requires Proper(all, |words|)
    requires Closed(counts, size, all, n, start) && Pushed(t, words, all, begin, segment, n, units)
    requires Open(counts, words, size, start, i, piece, tokens)
    requires i == |counts| || tokens + counts[i] > size
    ensures Closed(counts, size, all, n + 1, i)
    ensures Pushed(t, words, all, begin, segment, n + 1,
                   units + [Unit(begin + piece.value.start, begin + piece.value.end, tokens, segment, start == 0)])
  {
    EndsHere(counts, size, start, i, tokens);
    CloseNext(counts, size, all, n, start);
    OpenIsUnit(t, words, counts, size, begin, segment, start, i, piece, tokens);
    PushNext(t, words, all, begin, segment, n, units);
  }

  /** A window that fits and cannot take the next item is the greedy one. */
  lemma EndsHere(counts: seq<nat>, size: nat, start: nat, i: nat, tokens: nat)
    requires start < i <= |counts| && tokens == Sum(counts, start, i) && Fits(counts, start, i, size)
    requires i == |counts| || tokens + counts[i] > size
    ensures GreedyEnd(counts, start, size) == i
  {
    if i < |counts| {
      NextItem(counts, start, i, size);
    } else {
      LastItem(counts, start, size);
    }
  }

  /** The open piece is the unit of its window of words. */
  lemma OpenIsUnit(t: string, words: seq<Range>, counts: seq<nat>, size: nat, begin: nat, segment: nat,
                   start: nat, i: nat, piece: Option<Range>, tokens: nat)
    requires Apart(words, |t|) && counts == WordTokens(t, words)
    requires Open(counts, words, size, start, i, piece, tokens)
    ensures Unit(begin + piece.value.start, begin + piece.value.end, tokens, segment, start == 0)
         == PieceUnit(t, words, Window(start, i), begin, segment)
  {
  }

  lemma PieceGrows(counts: seq<nat>, words: seq<Range>, size: nat, start: nat, i: nat, piece: Option<Range>,
                   tokens: nat)
    requires Open(counts, words, size, start, i, piece, tokens) && i < |counts| && tokens + counts[i] <= size
    ensures Open(counts, words, size, start, i + 1, Some(Range(piece.value.start, words[i].end)), tokens + counts[i])
  {
    NextItem(counts, start, i, size);
  }

  lemma PieceOpens(counts: seq<nat>, words: seq<Range>, size: nat, i: nat)
    requires i < |words| == |counts|
    ensures Open(counts, words, size, i, i + 1, Some(words[i]), counts[i])
  {
    assert Sum(counts, i, i) == 0;
  }

  lemma AllPushed(t: string, words: seq<Range>, counts: seq<nat>, size: nat, all: seq<Window>, begin: nat, segment: nat,
                  n: nat, units: seq<Unit>)
    requires Apart(words, |t|) && Proper(all, |words|)
    requires Closed(counts, size, all, n, |counts|) && Pushed(t, words, all, begin, segment, n, units)
    ensures units == PieceUnits(t, words, all, begin, segment)
  {
    assert all[..n] == all;
  }

  /** The loop has taken `i` words: `n` pieces are pushed and one may be open. */
  ghost predicate Packing(t: string, words: seq<Range>, size: nat, all: seq<Window>, begin: nat, segment: nat,
                          n: nat, start: nat, i: nat, first: bool, piece: Option<Range>, tokens: nat,
                          units: seq<Unit>)
    requires Apart(words, |t|) && Proper(all, |words|)
  {
    var counts := WordTokens(t, words);
    && Closed(counts, size, all, n, start) && Pushed(t, words, all, begin, segment, n, units)
    && (first <==> start == 0)
    && if piece == None then start == i && tokens == 0 else Open(counts, words, size, start, i, piece, tokens)
  }

  lemma PackingStarts(t: string, words: seq<Range>, size: nat, all: seq<Window>, begin: nat, segment: nat)
    requires Apart(words, |t|) && Proper(all, |words|)
    requires all == Pieces(WordTokens(t, words), 0, size)
    ensures Packing(t, words, size, all, begin, segment, 0, 0, 0, true, None, 0, [])
  {
    assert all[0..] == all && PieceUnits(t, words, all[..0], begin, segment) == [];
  }

  /** The variables of the word loop. */
  datatype Packer = Packer(first: bool, piece: Option<Range>, tokens: nat, units: seq<Unit>)

  function ClosePiece(p: Packer, begin: nat, segment: nat): Packer
    requires p.piece.Some?
  {
    Packer(false, None, 0,
           p.units + [Unit(begin + p.piece.value.start, begin + p.piece.value.end, p.tokens, segment, p.first)])
  }

  /** One turn of the word loop: closes the open piece if the word does not fit, then takes the word in. */
  function TakeWord(p: Packer, word: Range, wordTokens: nat, begin: nat, segment: nat, size: nat): Packer {
    var q := if p.piece.Some? && p.tokens + wordTokens > size then ClosePiece(p, begin, segment) else p;
    q.(piece := Some(Range(if q.piece.Some? then q.piece.value.start else word.start, word.end)),
       tokens := q.tokens + wordTokens)
  }

  function TakeWords(counts: seq<nat>, words: seq<Range>, begin: nat, segment: nat, size: nat, i: nat): Packer
    requires i <= |words| == |counts|
  {
    if i == 0 then Packer(true, None, 0, [])
    else TakeWord(TakeWords(counts, words, begin, segment, size, i - 1),
                  words[i - 1], counts[i - 1], begin, segment, size)
  }

  ghost predicate PackedTo(t: string, words: seq<Range>, size: nat, all: seq<Window>, begin: nat, segment: nat,
                           n: nat, start: nat, i: nat, p: Packer)
    requires Apart(words, |t|) && Proper(all, |words|)
  {
    Packing(t, words, size, all, begin, segment, n, start, i, p.first, p.piece, p.tokens, p.units)
  }

  lemma ClosePacks(t: string, words: seq<Range>, size: nat, all: seq<Window>, begin: nat, segment: nat,
                   n: nat, m: nat, start: nat, i: nat, p: Packer)
    requires Apart(words, |t|) && Proper(all, |words|) && i < |words| && m == n + 1
    requires PackedTo(t, words, size, all, begin, segment, n, start, i, p)
    requires p.piece.Some? && p.tokens + WordTokens(t, words)[i] > size
    ensures PackedTo(t, words, size, all, begin, segment, m, i, i, ClosePiece(p, begin, segment))
  {
    PieceCloses(t, words, WordTokens(t, words), size, all, begin, segment, n, start, i, p.piece, p.tokens, p.units);
    NonePacks(t, words, size, all, begin, segment, m, i, ClosePiece(p, begin, segment));
  }

  /** With no piece open. */
  lemma NonePacks(t: string, words: seq<Range>, size: nat, all: seq<Window>, begin: nat, segment: nat,
                  m: nat, i: nat, p: Packer)
    requires Apart(words, |t|) && Proper(all, |words|) && i > 0
    requires Closed(WordTokens(t, words), size, all, m, i) && Pushed(t, words, all, begin, segment, m, p.units)
    requires !p.first && p.piece == None && p.tokens == 0
    ensures PackedTo(t, words, size, all, begin, segment, m, i, i, p)
  {
  }

  lemma PutPacks(t: string, words: seq<Range>, size: nat, all: seq<Window>, begin: nat, segment: nat,
                 n: nat, start: nat, i: nat, j: nat, p: Packer)
    requires Apart(words, |t|) && Proper(all, |words|) && j == i + 1 <= |words|
    requires PackedTo(t, words, size, all, begin, segment, n, start, i, p)
    requires p.piece.Some? ==> p.tokens + WordTokens(t, words)[i] <= size
    ensures PackedTo(t, words, size, all, begin, segment, n, start, j,
                     TakeWord(p, words[i], WordTokens(t, words)[i], begin, segment, size))
  {
    var counts := WordTokens(t, words);
    if p.piece.Some? {
      PieceGrows(counts, words, size, start, i, p.piece, p.tokens);
    } else {
      PieceOpens(counts, words, size, i);
    }
  }

  lemma TakeWordPacks(t: string, words: seq<Range>, size: nat, all: seq<Window>, begin: nat, segment: nat,
                      n0: nat, start0: nat, i: nat, j: nat, p: Packer) returns (n: nat, start: nat)
    requires Apart(words, |t|) && Proper(all, |words|) && j == i + 1 <= |words|
    requires PackedTo(t, words, size, all, begin, segment, n0, start0, i, p)
    ensures PackedTo(t, words, size, all, begin, segment, n, start, j,
                     TakeWord(p, words[i], WordTokens(t, words)[i], begin, segment, size))
  {
    if p.piece.Some? && p.tokens + WordTokens(t, words)[i] > size {
      n, start := n0 + 1, i;
      ClosePacks(t, words, size, all, begin, segment, n0, n, start0, i, p);
      PutPacks(t, words, size, all, begin, segment, n, start, i, j, ClosePiece(p, begin, segment));
    } else {
      n, start := n0, start0;
      PutPacks(t, words, size, all, begin, segment, n, start, i, j, p);
    }
  }

  lemma {:induction false} TakeWordsPacks(t: string, words: seq<Range>, size: nat, all: seq<Window>, begin: nat,
                                          segment: nat, i: nat) returns (n: nat, start: nat)
    requires Apart(words, |t|) && Proper(all, |words|) && i <= |words|
    requires all == Pieces(WordTokens(t, words), 0, size)
    ensures PackedTo(t, words, size, all, begin, segment, n, start, i,
                     TakeWords(WordTokens(t, words), words, begin, segment, size, i))
  {
    if i == 0 {
      n, start := 0, 0;
      PackingStarts(t, words, size, all, begin, segment);
    } else {
      n, start := TakeWordsPacks(t, words, size, all, begin, segment, i - 1);
      n, start := TakeWordPacks(t, words, size, all, begin, segment, n, start, i - 1, i,
                                TakeWords(WordTokens(t, words), words, begin, segment, size, i - 1));
    }
  }

  /** Closing what is open after the last word leaves exactly the units of the greedy pieces. */
  lemma PackedAll(t: string, words: seq<Range>, size: nat, all: seq<Window>, begin: nat, segment: nat,
                  n: nat, start: nat, p: Packer)
    requires Apart(words, |t|) && Proper(all, |words|)
    requires PackedTo(t, words, size, all, begin, segment, n, start, |words|, p)
    ensures (if p.piece.Some? then ClosePiece(p, begin, segment) else p).units ==
            PieceUnits(t, words, all, begin, segment)
  {
    var counts := WordTokens(t, words);
    if p.piece.Some? {
      PieceCloses(t, words, counts, size, all, begin, segment, n, start, |words|, p.piece, p.tokens, p.units);
      AllPushed(t, words, counts, size, all, begin, segment, n + 1, ClosePiece(p, begin, segment).units);
    } else {
      AllPushed(t, words, counts, size, all, begin, segment, n, p.units);
    }
  }

  lemma AllWordsPack(t: string, words: seq<Range>, size: nat, all: seq<Window>, begin: nat, segment: nat, p: Packer)
    requires Apart(words, |t|) && Proper(all, |words|) && all == Pieces(WordTokens(t, words), 0, size)
    requires p == TakeWords(WordTokens(t, words), words, begin, segment, size, |words|)
    ensures (if p.piece.Some? then ClosePiece(p, begin, segment) else p).units ==
            PieceUnits(t, words, all, begin, segment)
  {
    var n, start := TakeWordsPacks(t, words, size, all, begin, segment, |words|);
    PackedAll(t, words, size, all, begin, segment, n, start, p);
  }

  /** `counts` are the token estimates of the words. */
  ghost predicate Counted(t: string, words: seq<Range>, counts: seq<nat>)
    requires Apart(words, |t|)
  {
    && |counts| == |words|
    && forall i {:trigger t[words[i].start..words[i].end]} :: 0 <= i < |words| ==>
         counts[i] == Estimate(t[words[i].start..words[i].end])
  }

  method EstimateWord(t: string, words: seq<Range>, i: nat, ghost counts: seq<nat>) returns (tokens: nat)
    requires Apart(words, |t|) && i < |words| && Counted(t, words, counts)
    ensures tokens == counts[i]
  {
    tokens := EstimateTokens(t[words[i].start..words[i].end]);
  }

  /** The word loop for a sentence that is too large: closes a piece when the next word does not fit. */
  method PushWords(trimmed: string, words: seq<Range>, begin: nat, segment: nat, size: nat, ghost counts: seq<nat>)
    returns (first: bool, piece: Option<Range>, pieceTokens: nat, units: seq<Unit>)
    requires Apart(words, |trimmed|) && Counted(trimmed, words, counts)
    ensures Packer(first, piece, pieceTokens, units) == TakeWords(counts, words, begin, segment, size, |words|)
  {
    units, first, piece, pieceTokens := [], true, None, 0;
    for i := 0 to |words|
      invariant Packer(first, piece, pieceTokens, units) == TakeWords(counts, words, begin, segment, size, i)
    {
      var word := words[i];
      var wordTokens := EstimateWord(trimmed, words, i, counts);
      if piece.Some? && pieceTokens + wordTokens > size {
        units := units + [Unit(begin + piece.value.start, begin + piece.value.end, pieceTokens, segment, first)];
        first := false;
        piece := None;
        pieceTokens := 0;
      }
      piece := Some(Range(if piece.Some? then piece.value.start else word.start, word.end));
      pieceTokens := pieceTokens + wordTokens;
    }
  }

  method PushPieces(trimmed: string, words: seq<Range>, begin: nat, segment: nat, size: nat, ghost all: seq<Window>)
    returns (units: seq<Unit>)
    requires Apart(words, |trimmed|) && all == Pieces(WordTokens(trimmed, words), 0, size)
    requires Proper(all, |words|)
    ensures units == PieceUnits(trimmed, words, all, begin, segment)
  {
    ghost var counts := WordTokens(trimmed, words);
    var first, piece, pieceTokens, pushed := PushWords(trimmed, words, begin, segment, size, counts);
    var p := Packer(first, piece, pieceTokens, pushed);
    AllWordsPack(trimmed, words, size, all, begin, segment, p);
    units := (if p.piece.Some? then ClosePiece(p, begin, segment) else p).units;
  }
}
