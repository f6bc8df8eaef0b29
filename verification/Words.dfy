/**
 * Words as the chunkers see them: maximal runs of grapheme clusters that are not white space.
 * The clusters are given as cut positions (Unicode Standard Annex #29, section 3).
 */
module Words {
  import opened Wrappers
  import opened Text

  datatype Range = Range(start: nat, end: nat)

  /** `cuts` divides a text of the given length into non-empty clusters. */
  ghost predicate IsPartition(cuts: seq<nat>, length: nat) {
    && cuts != [] && cuts[0] == 0 && cuts[|cuts| - 1] == length
    && forall i, j :: 0 <= i < j < |cuts| ==> cuts[i] < cuts[j]
  }

  predicate BlankCluster(text: string, cuts: seq<nat>, g: nat)
    requires g + 1 < |cuts| && cuts[g] <= cuts[g + 1] <= |text|
  {
    IsBlank(text[cuts[g]..cuts[g + 1]])
  }

  /** The words closed so far, and where the open one started. */
  datatype Scan = Scan(words: seq<Range>, open: Option<nat>)

  function ScanStep(s: Scan, blank: bool, offset: nat): Scan {
    if blank then
      if s.open.Some? then Scan(s.words + [Range(s.open.value, offset)], None) else s
    else
      if s.open.Some? then s else s.(open := Some(offset))
  }

  function ScanEnd(s: Scan, length: nat): seq<Range> {
    if s.open.Some? then s.words + [Range(s.open.value, length)] else s.words
  }

  function ScanTo(text: string, cuts: seq<nat>, g: nat): Scan
    requires IsPartition(cuts, |text|) && g < |cuts|
  {
    if g == 0 then Scan([], None)
    else ScanStep(ScanTo(text, cuts, g - 1), BlankCluster(text, cuts, g - 1), cuts[g - 1])
  }

  function WordsOf(text: string, cuts: seq<nat>): seq<Range>
    requires IsPartition(cuts, |text|)
  {
    ScanEnd(ScanTo(text, cuts, |cuts| - 1), |text|)
  }

  /** The scanning loop both chunkers run. */
  method ScanWords(text: string, cuts: seq<nat>) returns (words: seq<Range>)
    requires IsPartition(cuts, |text|)
    ensures words == WordsOf(text, cuts)
  {
    words := [];
    var wordStart: Option<nat> := None;
    for g := 0 to |cuts| - 1
      invariant Scan(words, wordStart) == ScanTo(text, cuts, g)
    {
      var offset := cuts[g];
      if BlankCluster(text, cuts, g) {
        if wordStart.Some? {
          words := words + [Range(wordStart.value, offset)];
          wordStart := None;
        }
      } else if wordStart == None {
        wordStart := Some(offset);
      }
    }
    if wordStart.Some? {
      words := words + [Range(wordStart.value, |text|)];
    }
  }

  // ---- what the scan yields ----

  predicate Within(p: nat, r: Range) {
    r.start <= p < r.end
  }

  /** In order, apart from each other, not empty, inside the text. */
  ghost predicate Apart(words: seq<Range>, length: nat) {
    && (forall i :: 0 <= i < |words| ==> words[i].start < words[i].end <= length)
    && (forall i, j :: 0 <= i < j < |words| ==> words[i].end < words[j].start)
  }

  /** Every position before `upto` that is not white space lies in one of the ranges. */
  ghost predicate CoversText(text: string, words: seq<Range>, upto: nat)
    requires upto <= |text|
  {
    forall p :: 0 <= p < upto && !IsWhitespace(text[p]) ==> exists i :: 0 <= i < |words| && Within(p, words[i])
  }

  /** A cluster that is not blank lies inside a word; a blank one meets none. */
  ghost predicate ClusterPlaced(text: string, cuts: seq<nat>, words: seq<Range>, g: nat)
    requires g + 1 < |cuts| && cuts[g] <= cuts[g + 1] <= |text|
  {
    if BlankCluster(text, cuts, g)
    then forall i :: 0 <= i < |words| ==> words[i].end <= cuts[g] || cuts[g + 1] <= words[i].start
    else exists i :: 0 <= i < |words| && words[i].start <= cuts[g] && cuts[g + 1] <= words[i].end
  }

  ghost predicate ScanHolds(text: string, cuts: seq<nat>, g: nat, s: Scan)
    requires IsPartition(cuts, |text|) && g < |cuts|
  {
    var words := ScanEnd(s, cuts[g]);
    && ApartSoFar(s, cuts[g])
    && CoversText(text, words, cuts[g])
    && (forall h :: 0 <= h < g ==> ClusterPlaced(text, cuts, words, h))
  }

  /** The ranges are apart, and a cluster has passed since the last one was closed. */
  ghost predicate ApartSoFar(s: Scan, offset: nat) {
    && Apart(ScanEnd(s, offset), offset)
    && (s.open == None ==> forall i :: 0 <= i < |s.words| ==> s.words[i].end < offset)
  }

  lemma ApartKeeps(s: Scan, blank: bool, offset: nat, next: nat)
    requires ApartSoFar(s, offset) && offset < next
    ensures ApartSoFar(ScanStep(s, blank, offset), next)
  {
    var after := ScanEnd(ScanStep(s, blank, offset), next);
    if s.open.Some? {
      assert ScanEnd(s, offset)[|s.words|] == Range(s.open.value, offset);
      assert forall i :: 0 <= i < |s.words| ==> ScanEnd(s, offset)[i] == s.words[i];
    }
  }

  /** One step from `offset` to `next` keeps every range, and lengthens the last or opens one. */
  ghost predicate Grown(before: seq<Range>, after: seq<Range>, offset: nat, next: nat, blank: bool) {
    && |before| <= |after| <= |before| + 1
    && (blank ==> after == before)
    && (!blank ==> after != [] && after[|after| - 1].start <= offset && after[|after| - 1].end == next)
    && (|after| > |before| ==> after[|before|].start == offset)
    && (forall i :: 0 <= i < |before| ==>
          && before[i].start == after[i].start && before[i].end <= offset
          && (before[i].end == after[i].end || (before[i].end == offset && after[i].end == next)))
  }

  lemma ScanStepGrows(s: Scan, blank: bool, offset: nat, next: nat)
    requires ApartSoFar(s, offset) && offset < next
    ensures Grown(ScanEnd(s, offset), ScanEnd(ScanStep(s, blank, offset), next), offset, next, blank)
  {
    if s.open.Some? {
      assert ScanEnd(s, offset)[|s.words|] == Range(s.open.value, offset);
    }
  }

  lemma CoverageGrows(text: string, before: seq<Range>, after: seq<Range>, offset: nat, next: nat)
    requires offset < next <= |text| && CoversText(text, before, offset)
    requires Grown(before, after, offset, next, IsBlank(text[offset..next]))
    ensures CoversText(text, after, next)
  {
    forall p | 0 <= p < next && !IsWhitespace(text[p]) ensures exists i :: 0 <= i < |after| && Within(p, after[i]) {
      if p < offset {
        var i :| 0 <= i < |before| && Within(p, before[i]);
        assert Within(p, after[i]);
      } else {
        assert text[offset..next][p - offset] == text[p];
        assert Within(p, after[|after| - 1]);
      }
    }
  }

  lemma PlacementStays(text: string, cuts: seq<nat>, before: seq<Range>, after: seq<Range>, h: nat, g: nat)
    requires IsPartition(cuts, |text|) && h < g - 1 < |cuts| - 1
    requires ClusterPlaced(text, cuts, before, h)
    requires Grown(before, after, cuts[g - 1], cuts[g], BlankCluster(text, cuts, g - 1))
    ensures ClusterPlaced(text, cuts, after, h)
  {
    assert cuts[h + 1] <= cuts[g - 1];
    if BlankCluster(text, cuts, h) {
      forall i | 0 <= i < |after| ensures after[i].end <= cuts[h] || cuts[h + 1] <= after[i].start {
        if i < |before| {
          assert before[i].end <= cuts[h] || cuts[h + 1] <= before[i].start;
        }
      }
    } else {
      var i :| 0 <= i < |before| && before[i].start <= cuts[h] && cuts[h + 1] <= before[i].end;
      assert after[i].start <= cuts[h] && cuts[h + 1] <= after[i].end;
    }
  }

  lemma NewlyPlaced(text: string, cuts: seq<nat>, before: seq<Range>, after: seq<Range>, g: nat)
    requires IsPartition(cuts, |text|) && 0 < g < |cuts|
    requires Grown(before, after, cuts[g - 1], cuts[g], BlankCluster(text, cuts, g - 1))
    ensures ClusterPlaced(text, cuts, after, g - 1)
  {
    if !BlankCluster(text, cuts, g - 1) {
      var i := |after| - 1;
      assert after[i].start <= cuts[g - 1] && cuts[g] <= after[i].end;
    }
  }

  lemma {:induction false} ScanKeeps(text: string, cuts: seq<nat>, g: nat)
    requires IsPartition(cuts, |text|) && g < |cuts|
    ensures ScanHolds(text, cuts, g, ScanTo(text, cuts, g))
  {
    if g > 0 {
      ScanKeeps(text, cuts, g - 1);
      ScanToKeepsNext(text, cuts, g - 1, g);
    }
  }

  lemma ScanToKeepsNext(text: string, cuts: seq<nat>, f: nat, g: nat)
    requires IsPartition(cuts, |text|) && g == f + 1 < |cuts|
    requires ScanHolds(text, cuts, f, ScanTo(text, cuts, f))
    ensures ScanHolds(text, cuts, g, ScanTo(text, cuts, g))
  {
    ScanKeepsNext(text, cuts, f, g, ScanTo(text, cuts, f));
  }

  lemma ScanKeepsNext(text: string, cuts: seq<nat>, f: nat, g: nat, s: Scan)
    requires IsPartition(cuts, |text|) && g == f + 1 < |cuts| && ScanHolds(text, cuts, f, s)
    ensures ScanHolds(text, cuts, g, ScanStep(s, BlankCluster(text, cuts, f), cuts[f]))
  {
    var blank := BlankCluster(text, cuts, f);
    var next := ScanStep(s, blank, cuts[f]);
    var before, after := ScanEnd(s, cuts[f]), ScanEnd(next, cuts[g]);
    ApartKeeps(s, blank, cuts[f], cuts[g]);
    ScanStepGrows(s, blank, cuts[f], cuts[g]);
    CoverageGrows(text, before, after, cuts[f], cuts[g]);
    forall h | 0 <= h < g ensures ClusterPlaced(text, cuts, after, h) {
      if h < f {
        PlacementStays(text, cuts, before, after, h, g);
      } else {
        NewlyPlaced(text, cuts, before, after, g);
      }
    }
  }

  /** Words are apart, cover all that is not white space, and are made of exactly the clusters that are not blank. */
  lemma WordsAreMaximalRuns(text: string, cuts: seq<nat>)
    requires IsPartition(cuts, |text|)
    ensures var words := WordsOf(text, cuts);
            && Apart(words, |text|) && CoversText(text, words, |text|)
            && (forall g :: 0 <= g < |cuts| - 1 ==> ClusterPlaced(text, cuts, words, g))
  {
    ScanKeeps(text, cuts, |cuts| - 1);
  }
}
