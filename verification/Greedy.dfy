/**
 * Packing a row of token counts into windows: as many as fit, and where the next window may start.
 * Both packers of the chunker (words into pieces, units into chunks) are this one greedy rule.
 */
module Greedy {

  function Sum(t: seq<nat>, i: nat, j: nat): nat
    requires i <= j <= |t|
  {
    if i == j then 0 else Sum(t, i, j - 1) + t[j - 1]
  }

  lemma {:induction false} SumSplits(t: seq<nat>, i: nat, j: nat, k: nat)
    requires i <= j <= k <= |t|
    ensures Sum(t, i, k) == Sum(t, i, j) + Sum(t, j, k)
    decreases k
  {
    if j < k {
      SumSplits(t, i, j, k - 1);
    }
  }

  /** The window from `start` may reach `end`: it holds one item, or it fits. */
  predicate Fits(t: seq<nat>, start: nat, end: nat, size: nat) {
    start < end <= |t| && (end == start + 1 || Sum(t, start, end) <= size)
  }

  function Grow(t: seq<nat>, start: nat, end: nat, size: nat): (r: nat)
    requires start <= end <= |t|
    ensures end <= r <= |t|
    decreases |t| - end
  {
    if end < |t| && Fits(t, start, end + 1, size) then Grow(t, start, end + 1, size) else end
  }

  /** Where the greedy window from `start` ends. */
  function GreedyEnd(t: seq<nat>, start: nat, size: nat): (end: nat)
    requires start < |t|
    ensures start < end <= |t|
  {
    Grow(t, start, start + 1, size)
  }

  lemma {:induction false} GrowFits(t: seq<nat>, start: nat, end: nat, size: nat)
    requires start < end <= |t| && Fits(t, start, end, size)
    ensures Fits(t, start, Grow(t, start, end, size), size)
    ensures Grow(t, start, end, size) < |t| ==> !Fits(t, start, Grow(t, start, end, size) + 1, size)
    decreases |t| - end
  {
    if end < |t| && Fits(t, start, end + 1, size) {
      GrowFits(t, start, end + 1, size);
    }
  }

  /** Nothing longer fits than the greedy window: the counts only add up. */
  lemma GreedyEndIsLargest(t: seq<nat>, start: nat, size: nat, end: nat)
    requires start < |t|
    ensures Fits(t, start, GreedyEnd(t, start, size), size)
    ensures Fits(t, start, end, size) ==> end <= GreedyEnd(t, start, size)
  {
    var e := GreedyEnd(t, start, size);
    GrowFits(t, start, start + 1, size);
    if Fits(t, start, end, size) && end > e {
      SumSplits(t, start, e + 1, end);
    }
  }

  /** The packing loop: the next item closes the window, or joins it. */
  lemma NextItem(t: seq<nat>, start: nat, i: nat, size: nat)
    requires start < i < |t| && Fits(t, start, i, size)
    ensures Sum(t, start, i) + t[i] > size ==> GreedyEnd(t, start, size) == i
    ensures Sum(t, start, i) + t[i] <= size ==> Fits(t, start, i + 1, size)
  {
    GreedyEndIsLargest(t, start, size, i);
    GreedyEndIsLargest(t, start, size, GreedyEnd(t, start, size));
    if GreedyEnd(t, start, size) > i {
      SumSplits(t, start, i + 1, GreedyEnd(t, start, size));
    }
  }

  lemma LastItem(t: seq<nat>, start: nat, size: nat)
    requires start < |t| && Fits(t, start, |t|, size)
    ensures GreedyEnd(t, start, size) == |t|
  {
    GreedyEndIsLargest(t, start, size, |t|);
  }

  /** A window may start over at `j`: on a mark, carrying at most `overlap`, with room for the next item. */
  predicate MayRestart(t: seq<nat>, marks: seq<bool>, start: nat, end: nat, size: nat, overlap: nat, j: nat) {
    && start < j < end < |t| && |marks| == |t| && marks[j]
    && Sum(t, j, end) <= overlap && Sum(t, j, end) + t[end] <= size
  }

  /** The earliest such place from `j` on, or `end`. */
  function RestartFrom(t: seq<nat>, marks: seq<bool>, start: nat, end: nat, size: nat, overlap: nat, j: nat): (r: nat)
    requires start < j <= end < |t| && |marks| == |t|
    ensures j <= r <= end
    decreases end - j
  {
    if j == end || MayRestart(t, marks, start, end, size, overlap, j) then j
    else RestartFrom(t, marks, start, end, size, overlap, j + 1)
  }

  function Restart(t: seq<nat>, marks: seq<bool>, start: nat, end: nat, size: nat, overlap: nat): (r: nat)
    requires start < end < |t| && |marks| == |t|
    ensures start < r <= end
  {
    RestartFrom(t, marks, start, end, size, overlap, start + 1)
  }

  lemma {:induction false} RestartIsEarliest(t: seq<nat>, marks: seq<bool>, start: nat, end: nat, size: nat,
                                             overlap: nat, from: nat)
    requires start < from <= end < |t| && |marks| == |t|
    ensures var r := RestartFrom(t, marks, start, end, size, overlap, from);
            && (r == end || MayRestart(t, marks, start, end, size, overlap, r))
            && forall j :: from <= j < r ==> !MayRestart(t, marks, start, end, size, overlap, j)
    decreases end - from
  {
    if from != end && !MayRestart(t, marks, start, end, size, overlap, from) {
      RestartIsEarliest(t, marks, start, end, size, overlap, from + 1);
    }
  }

  /** Even after backing up, the next window ends later. */
  lemma RestartAdvances(t: seq<nat>, marks: seq<bool>, start: nat, end: nat, size: nat, overlap: nat)
    requires start < end < |t| && |marks| == |t|
    ensures GreedyEnd(t, Restart(t, marks, start, end, size, overlap), size) > end
  {
    var r := Restart(t, marks, start, end, size, overlap);
    RestartIsEarliest(t, marks, start, end, size, overlap, start + 1);
    GreedyEndIsLargest(t, r, size, end + 1);
  }

  datatype Window = Window(start: nat, end: nat)

  /** Windows over `n` items, none empty. */
  ghost predicate Proper(ws: seq<Window>, n: nat) {
    forall i :: 0 <= i < |ws| ==> ws[i].start < ws[i].end <= n
  }

  /** The windows of a greedy pass that restarts as `Restart` says. */
  function Windows(t: seq<nat>, marks: seq<bool>, start: nat, size: nat, overlap: nat): seq<Window>
    requires |marks| == |t|
    decreases |t| - start
  {
    if start >= |t| then []
    else
      var end := GreedyEnd(t, start, size);
      [Window(start, end)] +
      if end == |t| then [] else Windows(t, marks, Restart(t, marks, start, end, size, overlap), size, overlap)
  }

  lemma WindowsUnfold(t: seq<nat>, marks: seq<bool>, start: nat, size: nat, overlap: nat, left: seq<Window>)
    requires |marks| == |t| && start < |t| && left == Windows(t, marks, start, size, overlap)
    ensures var end := GreedyEnd(t, start, size);
            && left != [] && left[0] == Window(start, end)
            && left[1..] == if end == |t| then []
                               else Windows(t, marks, Restart(t, marks, start, end, size, overlap), size, overlap)
  {
  }

  /** The windows of a greedy pass without overlap. */
  function Pieces(t: seq<nat>, start: nat, size: nat): seq<Window>
    decreases |t| - start
  {
    if start >= |t| then []
    else [Window(start, GreedyEnd(t, start, size))] + Pieces(t, GreedyEnd(t, start, size), size)
  }

  // ---- the laws of both passes ----

  /** Two windows in a row: both ends move on, no item is skipped. */
  ghost predicate Chained(v: Window, w: Window) {
    v.start < w.start <= v.end < w.end
  }

  /** Two windows in a row, in plain sums: the first could not take one item more, what is used again starts on a
    * mark and totals at most the overlap, and from no earlier mark would that, or the room for the next item, do.
    */
  ghost predicate Carries(t: seq<nat>, marks: seq<bool>, size: nat, overlap: nat, v: Window, w: Window) {
    && v.start < w.start <= v.end < |t| && |marks| == |t|
    && Sum(t, v.start, v.end) + t[v.end] > size
    && Sum(t, w.start, v.end) <= overlap
    && (w.start < v.end ==> marks[w.start])
    && forall j :: v.start < j < w.start && marks[j] ==>
         Sum(t, j, v.end) > overlap || Sum(t, j, v.end) + t[v.end] > size
  }

  /** Every run of the overlapping pass covers all items, moves on at each window, and carries only what it may. */
  lemma {:induction false} WindowsCover(t: seq<nat>, marks: seq<bool>, start: nat, size: nat, overlap: nat)
    requires |marks| == |t| && start < |t|
    ensures var ws := Windows(t, marks, start, size, overlap);
            && ws != [] && ws[0].start == start && ws[|ws| - 1].end == |t|
            && (forall i :: 0 <= i < |ws| ==> Fits(t, ws[i].start, ws[i].end, size)
                                              && ws[i].end == GreedyEnd(t, ws[i].start, size))
            && (forall i, j :: 0 <= i && j == i + 1 < |ws| ==>
                  Chained(ws[i], ws[j]) && Carries(t, marks, size, overlap, ws[i], ws[j]))
    decreases |t| - start
  {
    var end := GreedyEnd(t, start, size);
    GreedyEndIsLargest(t, start, size, end);
    if end < |t| {
      var next := Restart(t, marks, start, end, size, overlap);
      RestartIsEarliest(t, marks, start, end, size, overlap, start + 1);
      RestartAdvances(t, marks, start, end, size, overlap);
      WindowsCover(t, marks, next, size, overlap);
      var rest := Windows(t, marks, next, size, overlap);
      assert rest[0] == Window(next, GreedyEnd(t, next, size));
      FillsAndBacksUp(t, marks, start, size, overlap, rest[0]);
      PairsStay(t, marks, size, overlap, Window(start, end), rest);
      FitsStay(t, size, Window(start, end), rest);
    }
  }

  /** A window and where the next one starts. */
  lemma FillsAndBacksUp(t: seq<nat>, marks: seq<bool>, start: nat, size: nat, overlap: nat, w: Window)
    requires |marks| == |t| && start < |t| && GreedyEnd(t, start, size) < |t|
    requires w.start == Restart(t, marks, start, GreedyEnd(t, start, size), size, overlap)
    ensures Carries(t, marks, size, overlap, Window(start, GreedyEnd(t, start, size)), w)
  {
    var end := GreedyEnd(t, start, size);
    GreedyEndIsLargest(t, start, size, end + 1);
    RestartIsEarliest(t, marks, start, end, size, overlap, start + 1);
    forall j | start < j < w.start && marks[j]
      ensures Sum(t, j, end) > overlap || Sum(t, j, end) + t[end] > size
    {
      assert !MayRestart(t, marks, start, end, size, overlap, j);
    }
  }

  lemma FitsStay(t: seq<nat>, size: nat, w: Window, rest: seq<Window>)
    requires w.start < |t| && Fits(t, w.start, w.end, size) && w.end == GreedyEnd(t, w.start, size)
    requires forall i :: 0 <= i < |rest| ==>
               Fits(t, rest[i].start, rest[i].end, size) && rest[i].end == GreedyEnd(t, rest[i].start, size)
    ensures var ws := [w] + rest;
            forall i :: 0 <= i < |ws| ==>
              Fits(t, ws[i].start, ws[i].end, size) && ws[i].end == GreedyEnd(t, ws[i].start, size)
  {
  }

  lemma PairsStay(t: seq<nat>, marks: seq<bool>, size: nat, overlap: nat, w: Window, rest: seq<Window>)
    requires rest != [] && Chained(w, rest[0]) && Carries(t, marks, size, overlap, w, rest[0])
    requires forall i, j :: 0 <= i && j == i + 1 < |rest| ==>
               Chained(rest[i], rest[j]) && Carries(t, marks, size, overlap, rest[i], rest[j])
    ensures var ws := [w] + rest;
            forall i, j :: 0 <= i && j == i + 1 < |ws| ==>
              Chained(ws[i], ws[j]) && Carries(t, marks, size, overlap, ws[i], ws[j])
  {
    var ws := [w] + rest;
    forall i, j | 0 <= i && j == i + 1 < |ws|
      ensures Chained(ws[i], ws[j]) && Carries(t, marks, size, overlap, ws[i], ws[j])
    {
      if i > 0 {
        assert ws[i] == rest[i - 1] && ws[j] == rest[j - 1];
      }
    }
  }

  /** Windows in a row from `start` to the end, each within the size or one item. */
  ghost predicate Tiles(t: seq<nat>, start: nat, size: nat, ws: seq<Window>) {
    && ws != [] && ws[0].start == start && ws[|ws| - 1].end == |t|
    && (forall i :: 0 <= i < |ws| ==> start <= ws[i].start && Fits(t, ws[i].start, ws[i].end, size))
    && (forall i, j :: 0 <= i && j == i + 1 < |ws| ==> ws[i].end == ws[j].start)
  }

  lemma TilesGrow(t: seq<nat>, start: nat, end: nat, size: nat, rest: seq<Window>)
    requires start <= end && Fits(t, start, end, size) && Tiles(t, end, size, rest)
    ensures Tiles(t, start, size, [Window(start, end)] + rest)
  {
    var ws := [Window(start, end)] + rest;
    forall i, j | 0 <= i && j == i + 1 < |ws| ensures ws[i].end == ws[j].start {
      if i > 0 {
        assert ws[i] == rest[i - 1] && ws[j] == rest[j - 1];
      }
    }
  }

  lemma {:induction false} PiecesCover(t: seq<nat>, start: nat, size: nat)
    requires start < |t|
    ensures Tiles(t, start, size, Pieces(t, start, size))
    decreases |t| - start
  {
    var end := GreedyEnd(t, start, size);
    GreedyEndIsLargest(t, start, size, end);
    if end < |t| {
      PiecesCover(t, end, size);
      TilesGrow(t, start, end, size, Pieces(t, end, size));
    }
  }
}
