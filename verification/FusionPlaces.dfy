/** Scores and order of a fused list, said by places in the two lists. */
module FusionPlaces {
  import opened Wrappers
  import opened Ordering
  import opened Seqs
  import opened Fusion

  /** The first place of the id, counted from zero. */
  predicate IsFirst(list: seq<string>, m: nat, id: string) {
    m < |list| && list[m] == id && id !in list[..m]
  }

  /** Among the first `n` of either list. */
  predicate Within(vector: seq<string>, keyword: seq<string>, id: string, n: nat) {
    id in Take(vector, n) || id in Take(keyword, n)
  }

  /** However many of the two lists one takes: when `y` is among them, `x` is. */
  ghost predicate NoLater(vector: seq<string>, keyword: seq<string>, x: string, y: string) {
    forall n: nat :: Within(vector, keyword, y, n) ==> Within(vector, keyword, x, n)
  }

  lemma RankIsPlace(list: seq<string>, m: nat, id: string)
    requires IsFirst(list, m, id)
    ensures FirstRank(list, id) == Some(m + 1)
  {
  }

  /** A hit of one list only scores the reciprocal of the constant plus its 1-based rank there; a pole is infinite. */
  lemma OneListScores(fused: seq<Fused>, vector: seq<string>, keyword: seq<string>, k: real, f: Fused, m: nat)
    requires IsFusion(fused, vector, keyword, WorthBy(k)) && f in fused
    requires (IsFirst(vector, m, f.id) && f.id !in keyword) || (f.id !in vector && IsFirst(keyword, m, f.id))
    ensures var d := k + (m + 1) as real;
            f.score == if d == 0.0 then Infinite else Finite(1.0 / d)
  {
    if f.id in vector {
      RankIsPlace(vector, m, f.id);
    } else {
      RankIsPlace(keyword, m, f.id);
    }
  }

  /** A hit of both lists scores the sum of the two reciprocals. */
  lemma TwoListsScore(fused: seq<Fused>, vector: seq<string>, keyword: seq<string>, k: real, f: Fused, m: nat, n: nat)
    requires IsFusion(fused, vector, keyword, WorthBy(k)) && f in fused
    requires IsFirst(vector, m, f.id) && IsFirst(keyword, n, f.id)
    ensures var d, e := k + (m + 1) as real, k + (n + 1) as real;
            f.score == if d == 0.0 || e == 0.0 then Infinite else Finite(1.0 / d + 1.0 / e)
  {
    RankIsPlace(vector, m, f.id);
    RankIsPlace(keyword, n, f.id);
  }

  /** Being among the first `n` is having a rank of at most `n`. */
  lemma RankIsWithin(list: seq<string>, id: string, n: nat)
    ensures id in Take(list, n) <==> FirstRank(list, id).Some? && FirstRank(list, id).value <= n
  {
  }

  lemma BestIsFirstWithin(vector: seq<string>, keyword: seq<string>, worth: Scale, id: string, n: nat)
    requires |vector| <= USIZE_MAX && |keyword| <= USIZE_MAX && (id in vector || id in keyword)
    ensures Within(vector, keyword, id, n) <==> BestRank(Entry(vector, keyword, worth, id)) <= n
  {
    RankIsWithin(vector, id, n);
    RankIsWithin(keyword, id, n);
  }

  lemma NoLaterIsBestRank(vector: seq<string>, keyword: seq<string>, worth: Scale, x: string, y: string)
    requires |vector| <= USIZE_MAX && |keyword| <= USIZE_MAX
    requires (x in vector || x in keyword) && (y in vector || y in keyword)
    ensures NoLater(vector, keyword, x, y) <==>
            BestRank(Entry(vector, keyword, worth, x)) <= BestRank(Entry(vector, keyword, worth, y))
  {
    var best := BestRank(Entry(vector, keyword, worth, y));
    BestIsFirstWithin(vector, keyword, worth, y, best);
    BestIsFirstWithin(vector, keyword, worth, x, best);
    forall n: nat
      ensures Within(vector, keyword, y, n) <==> best <= n
      ensures Within(vector, keyword, x, n) <==> BestRank(Entry(vector, keyword, worth, x)) <= n
    {
      BestIsFirstWithin(vector, keyword, worth, y, n);
      BestIsFirstWithin(vector, keyword, worth, x, n);
    }
  }

  /** Scores never rise along the list. Between equal scores no hit follows one that, unlike it, the keyword list
    * lacks; with that equal too, the one that stands first in either list is first; and then the smaller id.
    */
  lemma TiesAreBroken(fused: seq<Fused>, vector: seq<string>, keyword: seq<string>, worth: Scale, i: nat, j: nat)
    requires IsFusion(fused, vector, keyword, worth) && i < j < |fused|
    requires |vector| <= USIZE_MAX && |keyword| <= USIZE_MAX
    ensures var x, y := fused[i], fused[j];
            && (y.score.Infinite? ==> x.score.Infinite?)
            && (x.score.Finite? && y.score.Finite? ==> x.score.value >= y.score.value)
            && (x.score == y.score && y.id in keyword ==> x.id in keyword)
            && (x.score == y.score && (y.id in keyword || x.id !in keyword) ==>
                  && NoLater(vector, keyword, x.id, y.id)
                  && (NoLater(vector, keyword, y.id, x.id) ==> Less(x.id, y.id)))
  {
    var x, y := fused[i], fused[j];
    assert x in fused && y in fused && Ahead(x, y);
    NoLaterIsBestRank(vector, keyword, worth, x.id, y.id);
    NoLaterIsBestRank(vector, keyword, worth, y.id, x.id);
  }
}
