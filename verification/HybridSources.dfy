/** Where the parts of a merged hit come from, said by places in the three lists. */
module HybridSources {
  import opened Wrappers
  import opened Fusion
  import opened HybridMerge
  import opened HybridLaws

  /** The last hit of the id in the list. */
  predicate IsLast(hits: seq<Hit>, r: nat, id: string) {
    r < |hits| && hits[r].id == id && forall q :: r < q < |hits| ==> hits[q].id != id
  }

  /** The first hit of the id in the list. */
  predicate IsFirst(hits: seq<Hit>, r: nat, id: string) {
    r < |hits| && hits[r].id == id && forall q :: 0 <= q < r ==> hits[q].id != id
  }

  predicate Absent(hits: seq<Hit>, id: string) {
    forall q :: 0 <= q < |hits| ==> hits[q].id != id
  }

  /** Some keyword hit is not among the semantic ones. */
  predicate Lacking(semantic: seq<Hit>, lexical: seq<Hit>) {
    exists j :: 0 <= j < |lexical| && Absent(semantic, lexical[j].id)
  }

  lemma {:induction false} LastIsFound(hits: seq<Hit>, r: nat, id: string)
    requires IsLast(hits, r, id)
    ensures LastOf(hits, id) == Some(hits[r])
    decreases |hits|
  {
    if r < |hits| - 1 {
      var front := hits[..|hits| - 1];
      LastIsFound(front, r, id);
    }
  }

  lemma {:induction false} FirstIsFound(hits: seq<Hit>, r: nat, id: string)
    requires IsFirst(hits, r, id)
    ensures FirstOf(hits, id) == Some(hits[r])
  {
    if r > 0 {
      var rest := hits[1..];
      FirstIsFound(rest, r - 1, id);
    }
  }

  lemma AbsentIsNotFound(hits: seq<Hit>, id: string)
    ensures Absent(hits, id) <==> LastOf(hits, id).None?
  {
    if LastOf(hits, id).Some? {
      var q :| 0 <= q < |hits| && hits[q] == LastOf(hits, id).value;
    } else {
      forall q | 0 <= q < |hits| ensures hits[q].id != id {
        assert hits[q] in hits;
      }
    }
  }

  lemma LackingIsMissing(semantic: seq<Hit>, lexical: seq<Hit>)
    ensures Lacking(semantic, lexical) <==> AnyMissing(semantic, lexical)
  {
    forall j | 0 <= j < |lexical|
      ensures Absent(semantic, lexical[j].id) <==> LastOf(semantic, lexical[j].id).None?
    {
      AbsentIsNotFound(semantic, lexical[j].id);
    }
  }

  /** The hit an id has before the pass: the last one the rescoring query returned, if it ran; else the last
    * semantic one; else the first keyword one.
    */
  lemma SourceByPlace(semantic: seq<Hit>, lexical: seq<Hit>, rescored: seq<Hit>, id: string, r: nat)
    ensures Lacking(semantic, lexical) && IsLast(rescored, r, id) ==>
              Source(semantic, lexical, rescored, id) == Some(rescored[r])
    ensures (!Lacking(semantic, lexical) || Absent(rescored, id)) && IsLast(semantic, r, id) ==>
              Source(semantic, lexical, rescored, id) == Some(semantic[r])
    ensures Absent(rescored, id) && Absent(semantic, id) && IsFirst(lexical, r, id) ==>
              Source(semantic, lexical, rescored, id) == Some(lexical[r])
  {
    LackingIsMissing(semantic, lexical);
    AbsentIsNotFound(rescored, id);
    AbsentIsNotFound(semantic, id);
    if IsLast(rescored, r, id) { LastIsFound(rescored, r, id); }
    if IsLast(semantic, r, id) { LastIsFound(semantic, r, id); }
    if IsFirst(lexical, r, id) { FirstIsFound(lexical, r, id); }
  }

  lemma HitHasItsSource(hits: seq<Hit>, semantic: seq<Hit>, lexical: seq<Hit>, rescored: seq<Hit>, k: nat,
                        minScore: real, fused: seq<Fused>, i: nat)
    requires IsMerge(hits, semantic, lexical, rescored, k, minScore, fused) && i < |hits|
    ensures var source := Source(semantic, lexical, rescored, hits[i].id);
            && source.Some? && hits[i].score == source.value.score && hits[i].chunk == source.value.chunk
            && hits[i].keywordScore == KeywordScore(lexical, hits[i].id)
  {
    var n := EntryOfHit(hits, semantic, lexical, rescored, k, minScore, fused, i);
  }

  /** The score and the stored fields of a hit are those of one hit found, picked by place. */
  lemma HitShowsItsSource(hits: seq<Hit>, semantic: seq<Hit>, lexical: seq<Hit>, rescored: seq<Hit>, k: nat,
                          minScore: real, fused: seq<Fused>, i: nat, r: nat)
    requires IsMerge(hits, semantic, lexical, rescored, k, minScore, fused) && i < |hits|
    ensures var h := hits[i];
            && (Lacking(semantic, lexical) && IsLast(rescored, r, h.id) ==>
                  h.score == rescored[r].score && h.chunk == rescored[r].chunk)
            && ((!Lacking(semantic, lexical) || Absent(rescored, h.id)) && IsLast(semantic, r, h.id) ==>
                  h.score == semantic[r].score && h.chunk == semantic[r].chunk)
            && (Absent(rescored, h.id) && Absent(semantic, h.id) && IsFirst(lexical, r, h.id) ==>
                  h.score == lexical[r].score && h.chunk == lexical[r].chunk)
  {
    HitHasItsSource(hits, semantic, lexical, rescored, k, minScore, fused, i);
    SourceByPlace(semantic, lexical, rescored, hits[i].id, r);
  }

  /** An id only the keyword search found is shown as the rescoring query scored it. */
  lemma KeywordOnlyHitIsRescored(hits: seq<Hit>, semantic: seq<Hit>, lexical: seq<Hit>, rescored: seq<Hit>, k: nat,
                                 minScore: real, fused: seq<Fused>, i: nat, r: nat)
    requires IsMerge(hits, semantic, lexical, rescored, k, minScore, fused) && i < |hits|
    requires Absent(semantic, hits[i].id) && IsLast(rescored, r, hits[i].id)
    ensures hits[i].score == rescored[r].score && hits[i].chunk == rescored[r].chunk
  {
    HitWasFound(hits, semantic, lexical, rescored, k, minScore, fused, i);
    FoundOnlyThere(semantic, lexical, hits[i].id);
    HitShowsItsSource(hits, semantic, lexical, rescored, k, minScore, fused, i, r);
  }

  lemma HitWasFound(hits: seq<Hit>, semantic: seq<Hit>, lexical: seq<Hit>, rescored: seq<Hit>, k: nat,
                    minScore: real, fused: seq<Fused>, i: nat)
    requires IsMerge(hits, semantic, lexical, rescored, k, minScore, fused) && i < |hits|
    ensures hits[i].id in Ids(semantic) || hits[i].id in Ids(lexical)
  {
    var n := EntryOfHit(hits, semantic, lexical, rescored, k, minScore, fused, i);
    assert fused[n] in fused;
  }

  lemma FoundOnlyThere(semantic: seq<Hit>, lexical: seq<Hit>, id: string)
    requires Absent(semantic, id) && (id in Ids(semantic) || id in Ids(lexical))
    ensures Lacking(semantic, lexical)
  {
    var j :| 0 <= j < |lexical| && Ids(lexical)[j] == id;
    assert Absent(semantic, lexical[j].id);
  }

  /** The keyword score is that of the last keyword hit of the id, 0 if it has none, and absent without such a hit. */
  lemma HitShowsItsKeywordScore(hits: seq<Hit>, semantic: seq<Hit>, lexical: seq<Hit>, rescored: seq<Hit>, k: nat,
                                minScore: real, fused: seq<Fused>, i: nat, r: nat)
    requires IsMerge(hits, semantic, lexical, rescored, k, minScore, fused) && i < |hits|
    ensures Absent(lexical, hits[i].id) ==> hits[i].keywordScore == None
    ensures IsLast(lexical, r, hits[i].id) ==>
              hits[i].keywordScore ==
              Some(if lexical[r].keywordScore.Some? then lexical[r].keywordScore.value else 0.0)
  {
    HitHasItsSource(hits, semantic, lexical, rescored, k, minScore, fused, i);
    AbsentIsNotFound(lexical, hits[i].id);
    if IsLast(lexical, r, hits[i].id) { LastIsFound(lexical, r, hits[i].id); }
  }

  lemma {:induction false} RowsIgnoreRescoring(semantic: seq<Hit>, lexical: seq<Hit>, one: seq<Hit>, two: seq<Hit>,
                                               minScore: real, fused: seq<Fused>)
    requires !AnyMissing(semantic, lexical)
    ensures Rows(semantic, lexical, one, minScore, fused) == Rows(semantic, lexical, two, minScore, fused)
    decreases |fused|
  {
    if fused != [] {
      var last := fused[|fused| - 1];
      RowsIgnoreRescoring(semantic, lexical, one, two, minScore, fused[..|fused| - 1]);
      assert Source(semantic, lexical, one, last.id) == Source(semantic, lexical, two, last.id);
    }
  }

  /** When the semantic search has every keyword hit, no rescoring matters. */
  lemma RescoringIsIgnored(hits: seq<Hit>, semantic: seq<Hit>, lexical: seq<Hit>, one: seq<Hit>, two: seq<Hit>, k: nat,
                           minScore: real, fused: seq<Fused>)
    requires !Lacking(semantic, lexical)
    ensures IsMerge(hits, semantic, lexical, one, k, minScore, fused) <==>
            IsMerge(hits, semantic, lexical, two, k, minScore, fused)
  {
    LackingIsMissing(semantic, lexical);
    RowsIgnoreRescoring(semantic, lexical, one, two, minScore, fused);
  }

  /** Before `k` hits are there, a semantic id is dropped only below `minScore`, and a keyword id never. */
  lemma NoneIsDroppedEarly(hits: seq<Hit>, semantic: seq<Hit>, lexical: seq<Hit>, rescored: seq<Hit>, k: nat,
                           minScore: real, fused: seq<Fused>, id: string, r: nat)
    requires IsMerge(hits, semantic, lexical, rescored, k, minScore, fused) && |hits| < k
    requires !Absent(lexical, id) || (IsLast(semantic, r, id) && semantic[r].score >= minScore
                                      && (!Lacking(semantic, lexical) || Absent(rescored, id)))
    ensures exists i :: 0 <= i < |hits| && hits[i].id == id
  {
    if !Absent(lexical, id) {
      var q :| 0 <= q < |lexical| && lexical[q].id == id;
      assert Ids(lexical)[q] == id;
    } else {
      assert Ids(semantic)[r] == id;
      SourceByPlace(semantic, lexical, rescored, id, r);
    }
    EveryIdIsAccountedFor(hits, semantic, lexical, rescored, k, minScore, fused, id);
  }
}
