/** `pack`: greedy windows of units, backing up to a sentence start for the overlap. */
module ChunkPack {
  import opened Wrappers
  import opened Greedy
  import opened ChunkUnits

  datatype Segment = Segment(text: string, section: seq<string>, page: Option<nat>)

  datatype SectionChunk = SectionChunk(text: string, start: nat, end: nat, tokenCount: nat, section: seq<string>,
                                       page: Option<nat>)

  function Counts(units: seq<Unit>): (r: seq<nat>)
    ensures |r| == |units| && forall i :: 0 <= i < |units| ==> r[i] == units[i].tokens
  {
    seq(|units|, i requires 0 <= i < |units| => units[i].tokens)
  }

  function Marks(units: seq<Unit>): (r: seq<bool>)
    ensures |r| == |units| && forall i :: 0 <= i < |units| ==> r[i] == units[i].sentenceStart
  {
    seq(|units|, i requires 0 <= i < |units| => units[i].sentenceStart)
  }

  /** The windows of a group of units. */
  function UnitWindows(units: seq<Unit>, size: nat, overlap: nat): seq<Window> {
    Windows(Counts(units), Marks(units), 0, size, overlap)
  }

  /** Units in a row inside the joined text, of known segments. */
  ghost predicate Placed(units: seq<Unit>, length: nat, segments: nat) {
    && (forall i :: 0 <= i < |units| ==> units[i].start < units[i].end <= length && units[i].segment < segments)
    && (forall i, j :: 0 <= i < j < |units| ==> units[i].end <= units[j].start)
  }

  function ChunkOf(joined: string, segments: seq<Segment>, units: seq<Unit>, w: Window): SectionChunk
    requires Placed(units, |joined|, |segments|) && w.start < w.end <= |units|
  {
    var first, last := units[w.start], units[w.end - 1];
    WindowIsSpan(units, |joined|, |segments|, w);
    SectionChunk(joined[first.start..last.end], first.start, last.end, Sum(Counts(units), w.start, w.end),
                 segments[first.segment].section, segments[first.segment].page)
  }

  lemma WindowIsSpan(units: seq<Unit>, length: nat, segments: nat, w: Window)
    requires Placed(units, length, segments) && w.start < w.end <= |units|
    ensures units[w.start].start < units[w.end - 1].end <= length
  {
  }

  function ChunksOf(joined: string, segments: seq<Segment>, units: seq<Unit>, ws: seq<Window>): (r: seq<SectionChunk>)
    requires Placed(units, |joined|, |segments|) && Proper(ws, |units|)
    ensures |r| == |ws|
  {
    seq(|ws|, i requires 0 <= i < |ws| => ChunkOf(joined, segments, units, ws[i]))
  }

  /** What packing a group of units yields. */
  function Packed(joined: string, segments: seq<Segment>, units: seq<Unit>, size: nat, overlap: nat): seq<SectionChunk>
    requires Placed(units, |joined|, |segments|)
  {
    WindowsAreProper(units, size, overlap);
    ChunksOf(joined, segments, units, UnitWindows(units, size, overlap))
  }

  lemma WindowsAreProper(units: seq<Unit>, size: nat, overlap: nat)
    ensures Proper(UnitWindows(units, size, overlap), |units|)
  {
    if units != [] {
      WindowsCover(Counts(units), Marks(units), 0, size, overlap);
    }
  }

  // ---- the loops ----

  /** Takes units while they fit; always takes the first. */
  method FillWindow(units: seq<Unit>, start: nat, size: nat) returns (end: nat, tokens: nat)
    requires start < |units|
    ensures end == GreedyEnd(Counts(units), start, size) && tokens == Sum(Counts(units), start, end)
  {
    ghost var counts := Counts(units);
    end, tokens := start, 0;
    while end < |units|
      invariant start <= end <= |units| && tokens == Sum(counts, start, end)
      invariant end > start ==> Fits(counts, start, end, size)
    {
      if end > start {
        NextItem(counts, start, end, size);
        if tokens + units[end].tokens > size {
          break;
        }
      }
      tokens := tokens + units[end].tokens;
      end := end + 1;
    }
    if end == |units| {
      LastItem(counts, start, size);
    }
  }

  lemma {:induction false} SumGrowsDown(t: seq<nat>, i: nat, j: nat, k: nat)
    requires i <= j <= k <= |t|
    ensures Sum(t, i, k) >= Sum(t, j, k)
  {
    SumSplits(t, i, j, k);
  }

  lemma SumExtendsDown(t: seq<nat>, i: nat, k: nat)
    requires i < k <= |t|
    ensures Sum(t, i, k) == t[i] + Sum(t, i + 1, k)
  {
    SumSplits(t, i, i + 1, k);
    assert Sum(t, i, i) == 0;
  }

  /** A restart is fixed by being the earliest permitted place. */
  lemma RestartIsFixed(t: seq<nat>, marks: seq<bool>, start: nat, end: nat, size: nat, overlap: nat, r: nat)
    requires start < end < |t| && |marks| == |t| && start < r <= end
    requires r == end || MayRestart(t, marks, start, end, size, overlap, r)
    requires forall j :: start < j < r ==> !MayRestart(t, marks, start, end, size, overlap, j)
    ensures r == Restart(t, marks, start, end, size, overlap)
  {
    RestartIsEarliest(t, marks, start, end, size, overlap, start + 1);
  }

  /** Walks back from `end`, and stops as soon as too much would be carried over. */
  method BackUp(units: seq<Unit>, start: nat, end: nat, size: nat, overlap: nat) returns (next: nat)
    requires start < end < |units|
    ensures next == Restart(Counts(units), Marks(units), start, end, size, overlap)
  {
    ghost var counts, marks := Counts(units), Marks(units);
    next := end;
    var carried := 0;
    var candidate := end;
    while candidate > start + 1
      invariant start < candidate <= next <= end && carried == Sum(counts, candidate, end)
      invariant candidate < end ==> carried <= overlap && carried + counts[end] <= size
      invariant next == end || MayRestart(counts, marks, start, end, size, overlap, next)
      invariant forall j :: candidate <= j < next ==> !MayRestart(counts, marks, start, end, size, overlap, j)
    {
      candidate := candidate - 1;
      SumExtendsDown(counts, candidate, end);
      carried := carried + units[candidate].tokens;
      if carried > overlap || carried + units[end].tokens > size {
        forall j | start < j <= candidate ensures !MayRestart(counts, marks, start, end, size, overlap, j) {
          SumGrowsDown(counts, j, candidate, end);
        }
        break;
      }
      if units[candidate].sentenceStart {
        next := candidate;
      }
    }
    RestartIsFixed(counts, marks, start, end, size, overlap, next);
  }

  method Pack(joined: string, segments: seq<Segment>, units: seq<Unit>, size: nat, overlap: nat)
    returns (chunks: seq<SectionChunk>)
    requires Placed(units, |joined|, |segments|)
    ensures chunks == Packed(joined, segments, units, size, overlap)
  {
    WindowsAreProper(units, size, overlap);
    chunks := [];
    var start: nat := 0;
    ghost var all := UnitWindows(units, size, overlap);
    ghost var left := all;
    while start < |units|
      invariant left == Windows(Counts(units), Marks(units), start, size, overlap)
      invariant start > |units| ==> left == []
      invariant Emitted(joined, segments, units, all, left, chunks)
      decreases |left|
    {
      WindowsUnfold(Counts(units), Marks(units), start, size, overlap, left);
      var end, tokens := FillWindow(units, start, size);
      chunks := Emit(joined, segments, units, start, end, tokens, chunks, all, left);
      left := left[1..];
      if end == |units| {
        break;
      }
      start := BackUp(units, start, end, size, overlap);
    }
    assert left == [] && all[..|chunks|] == all;
  }

  /** The chunks of the windows before `left` have been pushed. */
  ghost predicate Emitted(joined: string, segments: seq<Segment>, units: seq<Unit>, all: seq<Window>, left: seq<Window>,
                          chunks: seq<SectionChunk>)
    requires Placed(units, |joined|, |segments|) && Proper(all, |units|)
  {
    && |chunks| + |left| == |all| && left == all[|chunks|..]
    && chunks == ChunksOf(joined, segments, units, all[..|chunks|])
  }

  /** Pushes the chunk of one window: the section and page of its first unit, the text from its first to its last. */
  method Emit(joined: string, segments: seq<Segment>, units: seq<Unit>, start: nat, end: nat, tokens: nat,
              chunks0: seq<SectionChunk>, ghost all: seq<Window>, ghost left: seq<Window>)
    returns (chunks: seq<SectionChunk>)
    requires Placed(units, |joined|, |segments|) && Proper(all, |units|)
    requires Emitted(joined, segments, units, all, left, chunks0)
    requires left != [] && left[0] == Window(start, end) && start < end <= |units|
    requires tokens == Sum(Counts(units), start, end)
    ensures Emitted(joined, segments, units, all, left[1..], chunks)
  {
    var first, last := units[start], units[end - 1];
    WindowIsSpan(units, |joined|, |segments|, Window(start, end));
    var segment := segments[first.segment];
    ChunksOfGrow(joined, segments, units, all, |chunks0|);
    chunks := chunks0 +
              [SectionChunk(joined[first.start..last.end], first.start, last.end, tokens,
                            segment.section, segment.page)];
  }

  lemma ChunksOfGrow(joined: string, segments: seq<Segment>, units: seq<Unit>, ws: seq<Window>, n: nat)
    requires Placed(units, |joined|, |segments|) && Proper(ws, |units|) && n < |ws|
    ensures ChunksOf(joined, segments, units, ws[..n + 1]) ==
            ChunksOf(joined, segments, units, ws[..n]) + [ChunkOf(joined, segments, units, ws[n])]
  {
  }
}
