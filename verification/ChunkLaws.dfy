/** End to end: what every chunk of a document is, how neighbours overlap, and that nothing is lost. */
module ChunkLaws {
  import opened Seqs
  import opened Text
  import opened TokenEstimate
  import opened Greedy
  import opened ChunkUnits
  import opened ChunkUnitLaws
  import opened ChunkPack
  import opened ChunkPackLaws
  import opened ChunkSegments

  /** Segment `s` holds position `p` of the joined text. */
  predicate SegmentHolds(doc: Doc, s: nat, p: nat) {
    s < |doc.segments| == |doc.offsets| && doc.offsets[s] <= p < End(doc, s)
  }

  /** Segment `j` and the chunk have text in common. */
  predicate Meets(doc: Doc, j: nat, c: SectionChunk) {
    j < |doc.segments| == |doc.offsets| && doc.offsets[j] < c.end && c.start < End(doc, j)
  }

  /** The chunk is a slice of the joined text, and its token count is an upper bound of its estimate. */
  ghost predicate SliceLaw(doc: Doc, c: SectionChunk) {
    && c.start < c.end <= |doc.joined| && c.text == doc.joined[c.start..c.end]
    && Estimate(c.text) <= c.tokenCount
  }

  /** A chunk above the size is one oversized word. */
  ghost predicate SizeLaw(doc: Doc, size: nat, c: SectionChunk)
    requires Valid(doc)
  {
    c.tokenCount > size ==>
      && c.tokenCount == Estimate(c.text)
      && exists s :: 0 <= s < |doc.segments| && OversizedWord(doc.segments[s].text, doc.splits[s], size, c.text)
  }

  /** A chunk is labelled by the segment it starts in, and never mixes two top-level sections. */
  ghost predicate SectionLaw(doc: Doc, c: SectionChunk) {
    && (exists s: nat :: SegmentHolds(doc, s, c.start)
                        && c.section == doc.segments[s].section && c.page == doc.segments[s].page)
    && (forall j: nat :: Meets(doc, j, c) ==> SameTop(doc.segments[j].section, c.section))
  }

  /** A cut at position `p` goes through no sentence of any segment that fits into a chunk. */
  ghost predicate CutLaw(doc: Doc, size: nat, p: nat)
    requires Valid(doc)
  {
    forall s {:trigger doc.segments[s]} :: 0 <= s < |doc.segments| ==>
      SparesSentences(doc.segments[s].text, doc.splits[s], size, p - doc.offsets[s])
  }

  ghost predicate ChunkLaw(doc: Doc, size: nat, c: SectionChunk)
    requires Valid(doc)
  {
    && SliceLaw(doc, c) && SizeLaw(doc, size, c) && SectionLaw(doc, c)
    && CutLaw(doc, size, c.start) && CutLaw(doc, size, c.end)
  }

  /** Neighbours move on at both ends; what they share starts a sentence, and its estimate is within the overlap. */
  ghost predicate PairLaw(doc: Doc, overlap: nat, c: SectionChunk, d: SectionChunk)
    requires Valid(doc)
  {
    && c.start < d.start && c.end < d.end <= |doc.joined|
    && (d.start < c.end ==>
          && Estimate(doc.joined[d.start..c.end]) <= overlap
          && exists s: nat :: SegmentHolds(doc, s, d.start)
                         && StartsSentence(doc.segments[s].text, doc.splits[s], d.start - doc.offsets[s]))
  }

  ghost predicate ChunksLawful(doc: Doc, size: nat, overlap: nat, cs: seq<SectionChunk>)
    requires Valid(doc)
  {
    && (forall i {:trigger ChunkLaw(doc, size, cs[i])} :: 0 <= i < |cs| ==> ChunkLaw(doc, size, cs[i]))
    && (forall i, j {:trigger PairLaw(doc, overlap, cs[i], cs[j])} ::
          0 <= i && j == i + 1 < |cs| ==> PairLaw(doc, overlap, cs[i], cs[j]))
  }

  /** Two chunks in a row with no other top-level section from the one to the other. */
  ghost predicate SameRun(doc: Doc, c: SectionChunk, d: SectionChunk)
    requires Valid(doc)
  {
    forall j {:trigger doc.segments[j]} ::
      0 <= j < |doc.segments| && c.start < End(doc, j) && doc.offsets[j] <= d.start ==>
        SameTop(doc.segments[j].section, c.section)
  }

  /** The chunks are the windows `v` and `w` of a row of lawful units, as `Carries` says. */
  ghost predicate ArePacked(doc: Doc, size: nat, overlap: nat, start: nat, end: nat, us: seq<Unit>,
                            v: Window, w: Window, c: SectionChunk, d: SectionChunk)
    requires Valid(doc)
  {
    && start < end <= |doc.segments| && GroupRow(doc, start, end, size, us)
    && v.start < v.end <= |us| && w.start < w.end <= |us|
    && c.start == us[v.start].start && c.end == us[v.end - 1].end && c.tokenCount == Sum(Counts(us), v.start, v.end)
    && d.start == us[w.start].start && d.end == us[w.end - 1].end && d.tokenCount == Sum(Counts(us), w.start, w.end)
    && Carries(Counts(us), Marks(us), size, overlap, v, w)
  }

  /** A chunk takes all that fits, and the next one starts at the earliest sentence that the overlap permits. */
  ghost predicate PackLaw(doc: Doc, size: nat, overlap: nat, c: SectionChunk, d: SectionChunk)
    requires Valid(doc)
  {
    SameRun(doc, c, d) ==> exists start, end, us, v, w :: ArePacked(doc, size, overlap, start, end, us, v, w, c, d)
  }

  ghost predicate PairsPacked(doc: Doc, size: nat, overlap: nat, cs: seq<SectionChunk>)
    requires Valid(doc)
  {
    forall i, j {:trigger PackLaw(doc, size, overlap, cs[i], cs[j])} ::
      0 <= i && j == i + 1 < |cs| ==> PackLaw(doc, size, overlap, cs[i], cs[j])
  }

  ghost predicate CoversFrom(doc: Doc, cs: seq<SectionChunk>, lo: nat, hi: nat)
    requires hi <= |doc.joined|
  {
    forall p :: lo <= p < hi && !IsWhitespace(doc.joined[p]) ==> exists i :: 0 <= i < |cs| && InChunk(cs[i], p)
  }

  /** Every chunk lies between two positions. */
  ghost predicate Within(cs: seq<SectionChunk>, lo: nat, hi: nat) {
    forall i {:trigger cs[i]} :: 0 <= i < |cs| ==> lo <= cs[i].start && cs[i].end <= hi
  }

  lemma {:induction false} RunHasOneTop(doc: Doc, start: nat, end: nat)
    requires start < end <= |doc.segments|
    requires forall j :: start <= j < end ==> Top(doc.segments[j].section) == Top(doc.segments[start].section)
    ensures var r := RunEnd(doc.segments, start, end);
            && (forall j :: start <= j < r ==> Top(doc.segments[j].section) == Top(doc.segments[start].section))
            && (r < |doc.segments| ==> Top(doc.segments[r].section) != Top(doc.segments[start].section))
    decreases |doc.segments| - end
  {
    if end < |doc.segments| && Top(doc.segments[end].section) == Top(doc.segments[start].section) {
      RunHasOneTop(doc, start, end + 1);
    }
  }

  /** A chunk inside a group only meets segments of the group. */
  lemma MeetsGroup(doc: Doc, start: nat, end: nat, c: SectionChunk, j: nat)
    requires LaidOut(doc) && start < end <= |doc.segments|
    requires doc.offsets[start] <= c.start && c.end <= End(doc, end - 1) && Meets(doc, j, c)
    ensures start <= j < end
  {
    if j < start {
      OffsetsGrow(doc, j, start);
    } else if j >= end {
      OffsetsGrow(doc, end - 1, j);
    }
  }

  lemma GroupChunkIsLabelled(doc: Doc, start: nat, end: nat, size: nat, u: Unit, c: SectionChunk)
    requires Valid(doc) && start < end <= |doc.segments| && u.start < u.end
    requires GroupPlace(doc, start, end, size, u) && c.start == u.start
    requires c.section == doc.segments[u.segment].section && c.page == doc.segments[u.segment].page
    requires doc.offsets[start] <= c.start && c.end <= End(doc, end - 1)
    requires forall j :: start <= j < end ==> Top(doc.segments[j].section) == Top(doc.segments[start].section)
    ensures SectionLaw(doc, c)
  {
    assert SegmentHolds(doc, u.segment, c.start);
    forall j: nat | Meets(doc, j, c) ensures SameTop(doc.segments[j].section, c.section) {
      MeetsGroup(doc, start, end, c, j);
    }
  }

  /** A position outside a segment's text, or at its ends, is inside none of its sentences. */
  lemma OutsideSparesSentences(text: string, splits: Splits, size: nat, p: int)
    requires Divides(text, splits) && (p <= 0 || p >= |text|)
    ensures SparesSentences(text, splits, size, p)
  {
    forall k | 0 <= k < |splits.clusters| ensures !InsideSentence(text, splits, p, k) {
      TrimIsSlice(SentenceAt(text, splits, k));
      CutInside(text, splits, k + 1);
    }
  }

  /** What one segment allows, the others do: a position of one segment is inside no sentence of another. */
  lemma CutOfSegment(doc: Doc, size: nat, s: nat, p: nat)
    requires Valid(doc) && s < |doc.segments| && doc.offsets[s] <= p <= End(doc, s)
    requires SparesSentences(doc.segments[s].text, doc.splits[s], size, p - doc.offsets[s])
    ensures CutLaw(doc, size, p)
  {
    forall m {:trigger doc.segments[m]} | 0 <= m < |doc.segments|
      ensures SparesSentences(doc.segments[m].text, doc.splits[m], size, p - doc.offsets[m])
    {
      assert Divides(doc.segments[m].text, doc.splits[m]);
      if m < s {
        OffsetsGrow(doc, m, s);
        OutsideSparesSentences(doc.segments[m].text, doc.splits[m], size, p - doc.offsets[m]);
      } else if m > s {
        OffsetsGrow(doc, s, m);
        OutsideSparesSentences(doc.segments[m].text, doc.splits[m], size, p - doc.offsets[m]);
      }
    }
  }

  lemma GroupChunkSpares(doc: Doc, start: nat, end: nat, size: nat, u: Unit)
    requires Valid(doc) && start < end <= |doc.segments| && GroupPlace(doc, start, end, size, u) && u.start < u.end
    ensures CutLaw(doc, size, u.start) && CutLaw(doc, size, u.end)
  {
    CutOfSegment(doc, size, u.segment, u.start);
    CutOfSegment(doc, size, u.segment, u.end);
  }

  /** The first and the last unit of a window stand inside the group and are lawful. */
  lemma WindowInGroup(doc: Doc, start: nat, end: nat, size: nat, us: seq<Unit>, w: Window)
    requires Valid(doc) && start < end <= |doc.segments|
    requires GroupRow(doc, start, end, size, us) && w.start < w.end <= |us|
    ensures var first, last := us[w.start], us[w.end - 1];
            && GroupPlace(doc, start, end, size, first) && GroupPlace(doc, start, end, size, last)
            && first.start < first.end && last.start < last.end
            && doc.offsets[start] <= first.start && last.end <= End(doc, end - 1)
  {
    LawIsPlace(doc, start, end, size, us[w.start]);
    LawIsPlace(doc, start, end, size, us[w.end - 1]);
  }

  lemma GroupChunkObeys(doc: Doc, start: nat, end: nat, size: nat,
                        us: seq<Unit>, w: Window, c: SectionChunk)
    requires Valid(doc) && start < end <= |doc.segments|
    requires GroupRow(doc, start, end, size, us) && Placed(us, |doc.joined|, |doc.segments|)
    requires forall j :: start <= j < end ==> Top(doc.segments[j].section) == Top(doc.segments[start].section)
    requires PackedLaw(doc.joined, us, size, w, c) && c == ChunkOf(doc.joined, doc.segments, us, w)
    ensures ChunkLaw(doc, size, c)
    ensures doc.offsets[start] <= c.start && c.end <= End(doc, end - 1)
  {
    WindowInGroup(doc, start, end, size, us, w);
    SpanObeys(doc, start, end, size, us[w.start], us[w.end - 1], c);
  }

  /** The chunk of a group from one unit to another. */
  lemma SpanObeys(doc: Doc, start: nat, end: nat, size: nat, first: Unit, last: Unit, c: SectionChunk)
    requires Valid(doc) && start < end <= |doc.segments|
    requires GroupPlace(doc, start, end, size, first) && GroupPlace(doc, start, end, size, last)
    requires first.start < first.end && last.start < last.end && c.start == first.start && c.end == last.end
    requires doc.offsets[start] <= c.start < c.end <= End(doc, end - 1) && c.end <= |doc.joined|
    requires forall j :: start <= j < end ==> Top(doc.segments[j].section) == Top(doc.segments[start].section)
    requires SliceLaw(doc, c) && (c.tokenCount > size ==> first == last && c.tokenCount == first.tokens)
    requires c.section == doc.segments[first.segment].section && c.page == doc.segments[first.segment].page
    ensures ChunkLaw(doc, size, c)
  {
    GroupChunkSpares(doc, start, end, size, first);
    GroupChunkSpares(doc, start, end, size, last);
    GroupChunkIsLabelled(doc, start, end, size, first, c);
    OversizedChunkIsWord(doc, start, end, size, first, c);
  }

  lemma OversizedChunkIsWord(doc: Doc, start: nat, end: nat, size: nat, u: Unit, c: SectionChunk)
    requires Valid(doc) && start < end <= |doc.segments|
    requires GroupPlace(doc, start, end, size, u) && u.start <= u.end <= |doc.joined|
    requires c.tokenCount > size ==> u.tokens == c.tokenCount && c.text == doc.joined[u.start..u.end]
    ensures SizeLaw(doc, size, c)
  {
    if c.tokenCount > size {
      assert OversizedWord(doc.segments[u.segment].text, doc.splits[u.segment], size, c.text);
    }
  }

  lemma GroupPairObeys(doc: Doc, start: nat, end: nat, size: nat, overlap: nat,
                       us: seq<Unit>, v: Window, w: Window, c: SectionChunk, d: SectionChunk)
    requires Valid(doc) && start < end <= |doc.segments|
    requires GroupLaws(doc, start, end, size, us)
    requires Follows(doc.joined, us, overlap, v, w, c, d)
    ensures PairLaw(doc, overlap, c, d)
  {
    if d.start < c.end {
      var u := us[w.start];
      LawIsPlace(doc, start, end, size, u);
      assert Fair(doc.joined, u);
      assert SegmentHolds(doc, u.segment, d.start);
    }
  }

  /** The units of a group and the chunks they are packed into. */
  ghost predicate IsGroup(doc: Doc, start: nat, end: nat, size: nat, overlap: nat,
                          us: seq<Unit>, cs: seq<SectionChunk>)
    requires Valid(doc) && start < end <= |doc.segments|
  {
    && GroupRow(doc, start, end, size, us)
    && Placed(us, |doc.joined|, |doc.segments|) && AllFair(doc.joined, us)
    && cs == Packed(doc.joined, doc.segments, us, size, overlap)
    && (forall j :: start <= j < end ==> Top(doc.segments[j].section) == Top(doc.segments[start].section))
  }

  lemma GroupIsGroup(doc: Doc, start: nat, end: nat, size: nat, overlap: nat)
    requires Valid(doc) && start < |doc.segments| && end == RunEnd(doc.segments, start, start + 1)
    ensures IsGroup(doc, start, end, size, overlap,
                    GroupUnits(doc, start, end, size), GroupChunks(doc, start, end, size, overlap))
  {
    GroupObeys(doc, start, end, size);
    GroupIsPlaced(doc, start, end, size);
    RunTop(doc, start, end);
  }

  lemma RunTop(doc: Doc, start: nat, end: nat)
    requires start < |doc.segments| && end == RunEnd(doc.segments, start, start + 1)
    ensures forall j :: start <= j < end ==> Top(doc.segments[j].section) == Top(doc.segments[start].section)
  {
    RunHasOneTop(doc, start, start + 1);
  }

  lemma GroupChunksObey(doc: Doc, start: nat, end: nat, size: nat, overlap: nat,
                        us: seq<Unit>, cs: seq<SectionChunk>)
    requires Valid(doc) && start < end <= |doc.segments|
    requires IsGroup(doc, start, end, size, overlap, us, cs)
    ensures forall i {:trigger ChunkLaw(doc, size, cs[i])} :: 0 <= i < |cs| ==> ChunkLaw(doc, size, cs[i])
    ensures Within(cs, doc.offsets[start], End(doc, end - 1))
  {
    var ws := UnitWindows(us, size, overlap);
    PackedObeys(doc.joined, doc.segments, us, doc.offsets[start], End(doc, end - 1), size, overlap);
    forall i | 0 <= i < |cs|
      ensures ChunkLaw(doc, size, cs[i]) && doc.offsets[start] <= cs[i].start && cs[i].end <= End(doc, end - 1)
    {
      GroupChunkObeys(doc, start, end, size, us, ws[i], cs[i]);
    }
  }

  lemma GroupPairsObey(doc: Doc, start: nat, end: nat, size: nat, overlap: nat,
                       us: seq<Unit>, cs: seq<SectionChunk>)
    requires Valid(doc) && start < end <= |doc.segments|
    requires IsGroup(doc, start, end, size, overlap, us, cs)
    ensures forall i, j {:trigger PairLaw(doc, overlap, cs[i], cs[j])} ::
              0 <= i && j == i + 1 < |cs| ==> PairLaw(doc, overlap, cs[i], cs[j])
  {
    var ws := UnitWindows(us, size, overlap);
    PackedObeys(doc.joined, doc.segments, us, doc.offsets[start], End(doc, end - 1), size, overlap);
    forall i, j | 0 <= i && j == i + 1 < |cs| ensures PairLaw(doc, overlap, cs[i], cs[j]) {
      GroupPairObeys(doc, start, end, size, overlap, us, ws[i], ws[j], cs[i], cs[j]);
    }
  }

  lemma GroupCovers(doc: Doc, start: nat, end: nat, size: nat, overlap: nat,
                    us: seq<Unit>, cs: seq<SectionChunk>)
    requires Valid(doc) && start < end <= |doc.segments|
    requires IsGroup(doc, start, end, size, overlap, us, cs)
    ensures CoversFrom(doc, cs, doc.offsets[start], End(doc, end - 1))
  {
    forall p | doc.offsets[start] <= p < End(doc, end - 1) && !IsWhitespace(doc.joined[p])
      ensures exists i :: 0 <= i < |cs| && InChunk(cs[i], p)
    {
      PackedCovers(doc.joined, doc.segments, us, doc.offsets[start], End(doc, end - 1), size, overlap, p);
    }
  }

  /** Lawful chunks between two positions that cover what is there. */
  ghost predicate Stretch(doc: Doc, size: nat, overlap: nat, cs: seq<SectionChunk>, lo: nat, hi: nat)
    requires Valid(doc)
  {
    && lo <= hi <= |doc.joined|
    && ChunksLawful(doc, size, overlap, cs) && Within(cs, lo, hi) && CoversFrom(doc, cs, lo, hi)
  }

  /** The laws of one group. */
  lemma GroupIsLawful(doc: Doc, start: nat, end: nat, size: nat, overlap: nat)
    requires Valid(doc) && start < |doc.segments| && end == RunEnd(doc.segments, start, start + 1)
    ensures Stretch(doc, size, overlap, GroupChunks(doc, start, end, size, overlap),
                    doc.offsets[start], End(doc, end - 1))
  {
    GroupIsGroup(doc, start, end, size, overlap);
    var us, cs := GroupUnits(doc, start, end, size), GroupChunks(doc, start, end, size, overlap);
    GroupChunksObey(doc, start, end, size, overlap, us, cs);
    GroupPairsObey(doc, start, end, size, overlap, us, cs);
    GroupCovers(doc, start, end, size, overlap, us, cs);
  }

  /** Two groups in a row do not overlap. */
  lemma GroupsJoin(doc: Doc, size: nat, overlap: nat,
                   cs: seq<SectionChunk>, ds: seq<SectionChunk>, lo: nat, mid: nat, next: nat, hi: nat)
    requires Valid(doc) && mid < next && hi <= |doc.joined| && mid <= |doc.joined|
    requires ChunksLawful(doc, size, overlap, cs) && ChunksLawful(doc, size, overlap, ds)
    requires Within(cs, lo, mid) && Within(ds, next, hi) && lo <= next && mid <= hi
    ensures ChunksLawful(doc, size, overlap, cs + ds) && Within(cs + ds, lo, hi)
  {
    var all := cs + ds;
    forall i, j | 0 <= i && j == i + 1 < |all| ensures PairLaw(doc, overlap, all[i], all[j]) {
      if j < |cs| {
        assert all[i] == cs[i] && all[j] == cs[j];
      } else if i >= |cs| {
        assert all[i] == ds[i - |cs|] && all[j] == ds[j - |cs|];
      } else {
        assert all[i] == cs[i] && all[j] == ds[0];
        assert ChunkLaw(doc, size, cs[i]) && ChunkLaw(doc, size, ds[0]);
      }
    }
  }

  lemma CoverageJoins(doc: Doc, cs: seq<SectionChunk>, ds: seq<SectionChunk>, lo: nat, mid: nat, next: nat, hi: nat)
    requires mid <= next && next <= hi <= |doc.joined|
    requires CoversFrom(doc, cs, lo, mid) && CoversFrom(doc, ds, next, hi)
    requires forall p :: mid <= p < next ==> IsWhitespace(doc.joined[p])
    ensures CoversFrom(doc, cs + ds, lo, hi)
  {
    var all := cs + ds;
    forall p | lo <= p < hi && !IsWhitespace(doc.joined[p]) ensures exists i :: 0 <= i < |all| && InChunk(all[i], p) {
      if p < mid {
        var i :| 0 <= i < |cs| && InChunk(cs[i], p);
        assert InChunk(all[i], p);
      } else {
        var i :| 0 <= i < |ds| && InChunk(ds[i], p);
        assert InChunk(all[|cs| + i], p);
      }
    }
  }

  lemma StretchesJoin(doc: Doc, size: nat, overlap: nat,
                      cs: seq<SectionChunk>, ds: seq<SectionChunk>, lo: nat, mid: nat, next: nat, hi: nat)
    requires Valid(doc) && mid < next
    requires Stretch(doc, size, overlap, cs, lo, mid) && Stretch(doc, size, overlap, ds, next, hi)
    requires forall p :: mid <= p < next ==> IsWhitespace(doc.joined[p])
    ensures Stretch(doc, size, overlap, cs + ds, lo, hi)
  {
    GroupsJoin(doc, size, overlap, cs, ds, lo, mid, next, hi);
    CoverageJoins(doc, cs, ds, lo, mid, next, hi);
  }

  /** The chunks from segment `start` on: lawful, in place, and covering the rest of the text. */
  lemma {:induction false} RestIsLawful(doc: Doc, start: nat, size: nat, overlap: nat)
    requires Valid(doc) && start < |doc.segments|
    ensures Stretch(doc, size, overlap, ChunksFrom(doc, start, size, overlap),
                    doc.offsets[start], |doc.joined|)
    decreases |doc.segments| - start
  {
    var end := RunEnd(doc.segments, start, start + 1);
    GroupIsLawful(doc, start, end, size, overlap);
    ChunksUnfold(doc, start, end, size, overlap);
    if end < |doc.segments| {
      RestIsLawful(doc, end, size, overlap);
    }
    StretchExtends(doc, size, overlap, GroupChunks(doc, start, end, size, overlap), ChunksFrom(doc, end, size, overlap),
                   ChunksFrom(doc, start, size, overlap), start, end);
  }

  lemma StretchExtends(doc: Doc, size: nat, overlap: nat, cs: seq<SectionChunk>, ds: seq<SectionChunk>,
                       all: seq<SectionChunk>, start: nat, end: nat)
    requires Valid(doc) && start < end <= |doc.segments|
    requires Stretch(doc, size, overlap, cs, doc.offsets[start], End(doc, end - 1))
    requires end < |doc.segments| ==> Stretch(doc, size, overlap, ds, doc.offsets[end], |doc.joined|)
    requires all == if end == |doc.segments| then cs else cs + ds
    ensures Stretch(doc, size, overlap, all, doc.offsets[start], |doc.joined|)
  {
    if end < |doc.segments| {
      NextOffset(doc, end - 1);
      StretchesJoin(doc, size, overlap, cs, ds, doc.offsets[start], End(doc, end - 1), doc.offsets[end], |doc.joined|);
    }
  }

  lemma ChunksUnfold(doc: Doc, start: nat, end: nat, size: nat, overlap: nat)
    requires Valid(doc) && start < |doc.segments| && end == RunEnd(doc.segments, start, start + 1)
    ensures ChunksFrom(doc, start, size, overlap) ==
            if end == |doc.segments| then GroupChunks(doc, start, end, size, overlap)
            else GroupChunks(doc, start, end, size, overlap) + ChunksFrom(doc, end, size, overlap)
  {
    if end == |doc.segments| {
      assert ChunksFrom(doc, end, size, overlap) == [];
      NothingAppended(GroupChunks(doc, start, end, size, overlap));
    }
  }

  // ---- how full chunks are, and how far back the next one starts ----

  lemma GroupPairsArePacked(doc: Doc, start: nat, end: nat, size: nat, overlap: nat,
                            us: seq<Unit>, cs: seq<SectionChunk>)
    requires Valid(doc) && start < end <= |doc.segments|
    requires IsGroup(doc, start, end, size, overlap, us, cs)
    ensures PairsPacked(doc, size, overlap, cs)
  {
    var ws := UnitWindows(us, size, overlap);
    PackedObeys(doc.joined, doc.segments, us, doc.offsets[start], End(doc, end - 1), size, overlap);
    PackedCarries(doc.joined, doc.segments, us, size, overlap);
    forall i, j | 0 <= i && j == i + 1 < |cs| ensures PackLaw(doc, size, overlap, cs[i], cs[j]) {
      assert ArePacked(doc, size, overlap, start, end, us, ws[i], ws[j], cs[i], cs[j]);
    }
  }

  /** A chunk of one run and one that comes after the next run began. */
  lemma RunsDiffer(doc: Doc, start: nat, end: nat, c: SectionChunk, d: SectionChunk)
    requires Valid(doc) && start < end < |doc.segments| && end == RunEnd(doc.segments, start, start + 1)
    requires SectionLaw(doc, c) && doc.offsets[start] <= c.start < c.end <= End(doc, end - 1)
    requires doc.offsets[end] <= d.start
    ensures !SameRun(doc, c, d)
  {
    RunHasOneTop(doc, start, start + 1);
    var s: nat :| SegmentHolds(doc, s, c.start) && c.section == doc.segments[s].section;
    MeetsGroup(doc, start, end, c, s);
    OffsetsGrow(doc, end - 1, end);
    assert !SameTop(doc.segments[end].section, c.section);
  }

  lemma PackedJoin(doc: Doc, start: nat, end: nat, size: nat, overlap: nat,
                   cs: seq<SectionChunk>, ds: seq<SectionChunk>)
    requires Valid(doc) && start < end < |doc.segments| && end == RunEnd(doc.segments, start, start + 1)
    requires PairsPacked(doc, size, overlap, cs) && PairsPacked(doc, size, overlap, ds)
    requires Stretch(doc, size, overlap, cs, doc.offsets[start], End(doc, end - 1))
    requires Stretch(doc, size, overlap, ds, doc.offsets[end], |doc.joined|)
    ensures PairsPacked(doc, size, overlap, cs + ds)
  {
    var all := cs + ds;
    forall i, j | 0 <= i && j == i + 1 < |all| ensures PackLaw(doc, size, overlap, all[i], all[j]) {
      if j < |cs| {
        assert all[i] == cs[i] && all[j] == cs[j];
      } else if i >= |cs| {
        assert all[i] == ds[i - |cs|] && all[j] == ds[j - |cs|];
      } else {
        assert all[i] == cs[i] && all[j] == ds[0] && ChunkLaw(doc, size, cs[i]);
        RunsDiffer(doc, start, end, cs[i], ds[0]);
      }
    }
  }

  lemma {:induction false} RestIsPacked(doc: Doc, start: nat, size: nat, overlap: nat)
    requires Valid(doc) && start < |doc.segments|
    ensures PairsPacked(doc, size, overlap, ChunksFrom(doc, start, size, overlap))
    decreases |doc.segments| - start
  {
    var end := RunEnd(doc.segments, start, start + 1);
    GroupIsGroup(doc, start, end, size, overlap);
    GroupPairsArePacked(doc, start, end, size, overlap, GroupUnits(doc, start, end, size),
                        GroupChunks(doc, start, end, size, overlap));
    ChunksUnfold(doc, start, end, size, overlap);
    if end < |doc.segments| {
      RestIsPacked(doc, end, size, overlap);
      GroupIsLawful(doc, start, end, size, overlap);
      RestIsLawful(doc, end, size, overlap);
      PackedJoin(doc, start, end, size, overlap, GroupChunks(doc, start, end, size, overlap),
                 ChunksFrom(doc, end, size, overlap));
    }
  }

  /**
   * The promise of the section chunker, for every document, size and overlap: no text is lost, every
   * chunk obeys `ChunkLaw`, and every pair of neighbours obeys `PairLaw` and `PackLaw`.
   */
  lemma ChunksKeepTheirPromise(doc: Doc, size: nat, overlap: nat)
    requires Valid(doc)
    ensures var cs := ChunksFrom(doc, 0, size, overlap);
            && ChunksLawful(doc, size, overlap, cs) && CoversFrom(doc, cs, 0, |doc.joined|)
            && PairsPacked(doc, size, overlap, cs)
  {
    if doc.segments != [] {
      RestIsLawful(doc, 0, size, overlap);
      RestIsPacked(doc, 0, size, overlap);
    }
  }
}
