/** What packing does to a row of units: cover, order, token bounds and what may be carried over. */
module ChunkPackLaws {
  import opened Text
  import opened TokenEstimate
  import opened Greedy
  import opened ChunkUnits
  import opened ChunkUnitLaws
  import opened ChunkPack

  ghost predicate AllFair(joined: string, us: seq<Unit>) {
    forall i {:trigger Fair(joined, us[i])} :: 0 <= i < |us| ==> Fair(joined, us[i])
  }

  lemma UnitGapIsBlank(joined: string, us: seq<Unit>, lo: nat, hi: nat, m: nat)
    requires hi <= |joined| && InRow(us, lo, hi) && Covered(joined, us, lo, hi) && m + 1 < |us|
    ensures us[m].end <= us[m + 1].start <= |joined| && IsBlank(joined[us[m].end..us[m + 1].start])
  {
    var gap := joined[us[m].end..us[m + 1].start];
    forall q | 0 <= q < |gap| ensures IsWhitespace(gap[q]) {
      var p := us[m].end + q;
      if !IsWhitespace(joined[p]) {
        var i :| 0 <= i < |us| && Holds(us[i], p);
        assert i <= m || m + 1 <= i;
        assert i < m ==> us[i].end <= us[m].start;
        assert i > m + 1 ==> us[m + 1].end <= us[i].start;
      }
    }
  }

  lemma SpanLengthens(joined: string, us: seq<Unit>, lo: nat, hi: nat, a: nat, b: nat)
    requires hi <= |joined| && InRow(us, lo, hi) && Covered(joined, us, lo, hi) && a < b < |us|
    ensures us[a].start < us[b - 1].end <= us[b].start < us[b].end <= |joined|
    ensures Estimate(joined[us[a].start..us[b].end]) <=
            Estimate(joined[us[a].start..us[b - 1].end]) + Estimate(joined[us[b].start..us[b].end])
  {
    UnitGapIsBlank(joined, us, lo, hi, b - 1);
    var i, j, k, l := us[a].start, us[b - 1].end, us[b].start, us[b].end;
    assert i < j by { if a < b - 1 { assert us[a].end <= us[b - 1].start; } }
    assert joined[i..l] == joined[i..j] + joined[j..k] + joined[k..l];
    GapIsFree(joined[i..j], joined[j..k], joined[k..l]);
  }

  /** Units in a row count at least as many tokens as the text they span. */
  lemma {:induction false} SpanIsFair(joined: string, us: seq<Unit>, counts: seq<nat>, lo: nat, hi: nat, a: nat, b: nat)
    requires hi <= |joined| && InRow(us, lo, hi) && Covered(joined, us, lo, hi) && AllFair(joined, us)
    requires a < b <= |us| && counts == Counts(us)
    ensures us[a].start < us[b - 1].end <= |joined|
    ensures Estimate(joined[us[a].start..us[b - 1].end]) <= Sum(counts, a, b)
    decreases b
  {
    assert Fair(joined, us[b - 1]);
    if b == a + 1 {
      SingleItem(counts, a);
    } else {
      SpanIsFair(joined, us, counts, lo, hi, a, b - 1);
      SpanLengthens(joined, us, lo, hi, a, b - 1);
      assert Sum(counts, a, b) == Sum(counts, a, b - 1) + counts[b - 1];
    }
  }

  /** A chunk of the packing: its text, its token count, and whether it is one large unit. */
  ghost predicate PackedLaw(joined: string, us: seq<Unit>, size: nat, w: Window, c: SectionChunk) {
    && w.start < w.end <= |us|
    && c.start == us[w.start].start && c.end == us[w.end - 1].end
    && c.start < c.end <= |joined| && c.text == joined[c.start..c.end]
    && Estimate(c.text) <= c.tokenCount
    && (c.tokenCount > size ==> w.end == w.start + 1 && c.tokenCount == us[w.start].tokens)
  }

  lemma ChunkObeys(joined: string, segments: seq<Segment>, us: seq<Unit>, lo: nat, hi: nat, size: nat, w: Window)
    requires hi <= |joined| && InRow(us, lo, hi) && Covered(joined, us, lo, hi) && AllFair(joined, us)
    requires Placed(us, |joined|, |segments|) && Fits(Counts(us), w.start, w.end, size)
    ensures PackedLaw(joined, us, size, w, ChunkOf(joined, segments, us, w))
  {
    SpanIsFair(joined, us, Counts(us), lo, hi, w.start, w.end);
    SingleItem(Counts(us), w.start);
  }

  /** Two chunks in a row: both ends move on; a shared stretch is small and starts at a marked unit. */
  ghost predicate Follows(joined: string, us: seq<Unit>, overlap: nat, v: Window, w: Window, c: SectionChunk,
                          d: SectionChunk)
  {
    && c.start < d.start && c.end < d.end <= |joined|
    && (d.start < c.end ==>
          && w.start < |us| && us[w.start].start == d.start && us[w.start].sentenceStart
          && Estimate(joined[d.start..c.end]) <= overlap)
  }

  lemma ChunksFollow(joined: string, segments: seq<Segment>, us: seq<Unit>, lo: nat, hi: nat, size: nat, overlap: nat,
                     v: Window, w: Window)
    requires hi <= |joined| && InRow(us, lo, hi) && Covered(joined, us, lo, hi) && AllFair(joined, us)
    requires Placed(us, |joined|, |segments|) && v.start < v.end <= |us| && w.start < w.end <= |us|
    requires Chained(v, w) && Carries(Counts(us), Marks(us), size, overlap, v, w)
    ensures Follows(joined, us, overlap, v, w, ChunkOf(joined, segments, us, v), ChunkOf(joined, segments, us, w))
  {
    WindowsMoveOn(us, lo, hi, v, w);
    if w.start < v.end {
      CarriedIsFair(joined, us, lo, hi, size, overlap, v, w);
    }
    SpansFollow(joined, segments, us, overlap, v, w);
  }

  lemma SpansFollow(joined: string, segments: seq<Segment>, us: seq<Unit>, overlap: nat, v: Window, w: Window)
    requires Placed(us, |joined|, |segments|) && v.start < v.end <= |us| && w.start < w.end <= |us|
    requires us[v.start].start < us[w.start].start && us[v.end - 1].end < us[w.end - 1].end
    requires if w.start < v.end then
               && us[w.start].start < us[v.end - 1].end <= |joined| && us[w.start].sentenceStart
               && Estimate(joined[us[w.start].start..us[v.end - 1].end]) <= overlap
             else us[v.end - 1].end <= us[w.start].start
    ensures Follows(joined, us, overlap, v, w, ChunkOf(joined, segments, us, v), ChunkOf(joined, segments, us, w))
  {
    WindowIsSpan(us, |joined|, |segments|, w);
  }

  lemma CarriedIsFair(joined: string, us: seq<Unit>, lo: nat, hi: nat, size: nat, overlap: nat, v: Window, w: Window)
    requires hi <= |joined| && InRow(us, lo, hi) && Covered(joined, us, lo, hi) && AllFair(joined, us)
    requires w.start < v.end <= |us| && Carries(Counts(us), Marks(us), size, overlap, v, w)
    ensures us[w.start].start < us[v.end - 1].end <= |joined| && us[w.start].sentenceStart
    ensures Estimate(joined[us[w.start].start..us[v.end - 1].end]) <= overlap
  {
    SpanIsFair(joined, us, Counts(us), lo, hi, w.start, v.end);
  }

  lemma WindowsMoveOn(us: seq<Unit>, lo: nat, hi: nat, v: Window, w: Window)
    requires InRow(us, lo, hi) && v.start < v.end <= |us| && w.start < w.end <= |us| && Chained(v, w)
    ensures us[v.start].start < us[w.start].start && us[v.end - 1].end < us[w.end - 1].end
    ensures w.start == v.end ==> us[v.end - 1].end <= us[w.start].start
  {
    UnitsInOrder(us, lo, hi, v.end - 1, w.end - 1);
    UnitsInOrder(us, lo, hi, v.start, w.start);
    if w.start == v.end {
      UnitsInOrder(us, lo, hi, v.end - 1, w.start);
    }
  }

  lemma UnitsInOrder(us: seq<Unit>, lo: nat, hi: nat, i: nat, j: nat)
    requires InRow(us, lo, hi) && i < j < |us|
    ensures us[i].start < us[i].end <= us[j].start < us[j].end <= hi
  {
  }

  /** The chunk whose window holds unit `m`. */
  lemma {:induction false} WindowOfUnit(ws: seq<Window>, m: nat) returns (i: nat)
    requires ws != [] && ws[0].start <= m < ws[|ws| - 1].end
    requires forall i, j :: 0 <= i && j == i + 1 < |ws| ==> Chained(ws[i], ws[j])
    ensures i < |ws| && ws[i].start <= m < ws[i].end
    decreases |ws|
  {
    if |ws| == 1 || m < ws[0].end {
      i := 0;
    } else {
      assert Chained(ws[0], ws[1]);
      var j := WindowOfUnit(ws[1..], m);
      i := j + 1;
    }
  }

  predicate InChunk(c: SectionChunk, p: nat) {
    c.start <= p < c.end
  }

  lemma PackedCovers(joined: string, segments: seq<Segment>, us: seq<Unit>, lo: nat, hi: nat, size: nat, overlap: nat,
                     p: nat)
    requires hi <= |joined| && InRow(us, lo, hi) && Covered(joined, us, lo, hi)
    requires Placed(us, |joined|, |segments|) && lo <= p < hi && !IsWhitespace(joined[p])
    ensures exists i :: 0 <= i < |Packed(joined, segments, us, size, overlap)|
                  && InChunk(Packed(joined, segments, us, size, overlap)[i], p)
  {
    var m :| 0 <= m < |us| && Holds(us[m], p);
    var ws := UnitWindows(us, size, overlap);
    WindowsCover(Counts(us), Marks(us), 0, size, overlap);
    WindowsAreProper(us, size, overlap);
    var i := WindowOfUnit(ws, m);
    WindowHolds(joined, segments, us, lo, hi, ws[i], m, p);
    assert Packed(joined, segments, us, size, overlap)[i] == ChunkOf(joined, segments, us, ws[i]);
  }

  lemma WindowHolds(joined: string, segments: seq<Segment>, us: seq<Unit>, lo: nat, hi: nat, w: Window, m: nat, p: nat)
    requires InRow(us, lo, hi) && Placed(us, |joined|, |segments|)
    requires w.start <= m < w.end <= |us| && Holds(us[m], p)
    ensures InChunk(ChunkOf(joined, segments, us, w), p)
  {
    UnitsBracket(us, lo, hi, w, m);
  }

  lemma UnitsBracket(us: seq<Unit>, lo: nat, hi: nat, w: Window, m: nat)
    requires InRow(us, lo, hi) && w.start <= m < w.end <= |us|
    ensures us[w.start].start <= us[m].start && us[m].end <= us[w.end - 1].end
  {
  }

  /** Every law of a packed group, chunk by chunk and pair by pair. */
  lemma PackedObeys(joined: string, segments: seq<Segment>, us: seq<Unit>, lo: nat, hi: nat, size: nat, overlap: nat)
    requires hi <= |joined| && InRow(us, lo, hi) && Covered(joined, us, lo, hi) && AllFair(joined, us)
    requires Placed(us, |joined|, |segments|)
    ensures var ws, cs := UnitWindows(us, size, overlap), Packed(joined, segments, us, size, overlap);
            && |cs| == |ws| && Proper(ws, |us|)
            && (forall i :: 0 <= i < |cs| ==> PackedLaw(joined, us, size, ws[i], cs[i]))
            && (forall i :: 0 <= i < |cs| ==> cs[i] == ChunkOf(joined, segments, us, ws[i]))
            && (forall i, j :: 0 <= i && j == i + 1 < |cs| ==> Follows(joined, us, overlap, ws[i], ws[j], cs[i], cs[j]))
  {
    var ws, cs := UnitWindows(us, size, overlap), Packed(joined, segments, us, size, overlap);
    WindowsAreProper(us, size, overlap);
    if us != [] {
      WindowsCover(Counts(us), Marks(us), 0, size, overlap);
      PackedChunksObey(joined, segments, us, lo, hi, size, ws, cs);
      PackedPairsFollow(joined, segments, us, lo, hi, size, overlap, ws, cs);
    }
  }

  /** The windows of two chunks in a row. */
  lemma PackedCarries(joined: string, segments: seq<Segment>, us: seq<Unit>, size: nat, overlap: nat)
    requires Placed(us, |joined|, |segments|)
    ensures var ws := UnitWindows(us, size, overlap);
            forall i, j :: 0 <= i && j == i + 1 < |ws| ==>
              Carries(Counts(us), Marks(us), size, overlap, ws[i], ws[j])
  {
    if us != [] {
      WindowsCover(Counts(us), Marks(us), 0, size, overlap);
    }
  }

  /** The chunks `cs` are those of the windows `ws`. */
  ghost predicate AreChunksOf(joined: string, segments: seq<Segment>, us: seq<Unit>, ws: seq<Window>,
                              cs: seq<SectionChunk>)
    requires Placed(us, |joined|, |segments|) && Proper(ws, |us|)
  {
    |cs| == |ws| && forall i :: 0 <= i < |cs| ==> cs[i] == ChunkOf(joined, segments, us, ws[i])
  }

  lemma PackedChunksObey(joined: string, segments: seq<Segment>, us: seq<Unit>, lo: nat, hi: nat, size: nat,
                         ws: seq<Window>, cs: seq<SectionChunk>)
    requires hi <= |joined| && InRow(us, lo, hi) && Covered(joined, us, lo, hi) && AllFair(joined, us)
    requires Placed(us, |joined|, |segments|) && Proper(ws, |us|) && AreChunksOf(joined, segments, us, ws, cs)
    requires forall i :: 0 <= i < |ws| ==> Fits(Counts(us), ws[i].start, ws[i].end, size)
    ensures forall i :: 0 <= i < |cs| ==> PackedLaw(joined, us, size, ws[i], cs[i])
  {
    forall i | 0 <= i < |cs| ensures PackedLaw(joined, us, size, ws[i], cs[i]) {
      ChunkObeys(joined, segments, us, lo, hi, size, ws[i]);
    }
  }

  lemma PackedPairsFollow(joined: string, segments: seq<Segment>, us: seq<Unit>, lo: nat, hi: nat, size: nat,
                          overlap: nat, ws: seq<Window>, cs: seq<SectionChunk>)
    requires hi <= |joined| && InRow(us, lo, hi) && Covered(joined, us, lo, hi) && AllFair(joined, us)
    requires Placed(us, |joined|, |segments|) && Proper(ws, |us|) && AreChunksOf(joined, segments, us, ws, cs)
    requires forall i, j :: 0 <= i && j == i + 1 < |ws| ==>
               Chained(ws[i], ws[j]) && Carries(Counts(us), Marks(us), size, overlap, ws[i], ws[j])
    ensures forall i, j :: 0 <= i && j == i + 1 < |cs| ==> Follows(joined, us, overlap, ws[i], ws[j], cs[i], cs[j])
  {
    forall i, j | 0 <= i && j == i + 1 < |cs| ensures Follows(joined, us, overlap, ws[i], ws[j], cs[i], cs[j]) {
      ChunksFollow(joined, segments, us, lo, hi, size, overlap, ws[i], ws[j]);
    }
  }
}
