/** Reciprocal rank fusion of two result lists; scores are reals and an infinity. */
module Fusion {
  import opened Wrappers
  import opened Ordering

  /** A score; a constant that cancels a rank makes it infinite. */
  datatype Score = Finite(value: real) | Infinite

  datatype Fused = Fused(id: string, score: Score, vectorRank: Option<nat>, keywordRank: Option<nat>)

  datatype Provenance = Vector | Keyword | Both

  const USIZE_MAX := 0xFFFF_FFFF_FFFF_FFFF

  function ProvenanceOf(f: Fused): Provenance {
    match (f.vectorRank, f.keywordRank)
    case (Some(_), Some(_)) => Both
    case (None, Some(_)) => Keyword
    case _ => Vector
  }

  function BestRank(f: Fused): nat {
    var v := if f.vectorRank.Some? then f.vectorRank.value else USIZE_MAX;
    var w := if f.keywordRank.Some? then f.keywordRank.value else USIZE_MAX;
    if v <= w then v else w
  }

  // ---- scores ----

  predicate Above(a: Score, b: Score) {
    b.Finite? && (a.Finite? ==> a.value > b.value)
  }

  function Plus(a: Score, b: Score): Score {
    if a.Finite? && b.Finite? then Finite(a.value + b.value) else Infinite
  }

  function Reciprocal(d: real): Score {
    if d == 0.0 then Infinite else Finite(1.0 / d)
  }

  /** What rank `n` of a list is worth. */
  function Worth(k: real, n: nat): Score {
    Reciprocal(k + n as real)
  }

  /** What each rank is worth. */
  type Scale = nat -> Score

  function WorthBy(k: real): Scale {
    (n: nat) => Worth(k, n)
  }

  // ---- the comparator ----

  /** Score downwards, keyword hits first, better best rank, then id. */
  predicate NotBehind(x: Fused, y: Fused) {
    if x.score != y.score then Above(x.score, y.score)
    else if x.keywordRank.Some? != y.keywordRank.Some? then x.keywordRank.Some?
    else if BestRank(x) != BestRank(y) then BestRank(x) < BestRank(y)
    else AtMost(x.id, y.id)
  }

  ghost predicate Ahead(x: Fused, y: Fused) {
    NotBehind(x, y) && !NotBehind(y, x)
  }

  lemma NotBehindIsTotal(x: Fused, y: Fused)
    ensures NotBehind(x, y) || NotBehind(y, x)
    ensures NotBehind(x, y) && NotBehind(y, x) ==> x.id == y.id
  {
    LessIsTotal(x.id, y.id);
    if x.id != y.id && Less(x.id, y.id) {
      LessIsStrict(x.id, y.id);
    }
  }

  lemma NotBehindIsTransitive(x: Fused, y: Fused, z: Fused)
    requires NotBehind(x, y) && NotBehind(y, z)
    ensures NotBehind(x, z)
  {
    if Less(x.id, y.id) && Less(y.id, z.id) {
      LessIsTransitive(x.id, y.id, z.id);
    }
  }

  lemma AheadIsAsymmetric()
    ensures Asymmetric(Ahead)
  {
  }

  // ---- what an entry has to say ----

  /** The 1-based place of the first `id` in `list`. */
  function FirstRank(list: seq<string>, id: string): (r: Option<nat>)
    ensures r.Some? <==> id in list
    ensures r.Some? ==> 1 <= r.value <= |list| && list[r.value - 1] == id && id !in list[..r.value - 1]
    decreases |list|
  {
    if list == [] then None
    else
      var front := list[..|list| - 1];
      assert list == front + [list[|list| - 1]];
      var earlier := FirstRank(front, id);
      if earlier.Some? then
        assert front[..earlier.value - 1] == list[..earlier.value - 1];
        earlier
      else if list[|list| - 1] == id then Some(|list|) else None
  }

  /** The sum of what two ranks are worth; an absent one adds nothing. */
  function Total(worth: Scale, v: Option<nat>, w: Option<nat>): Score {
    match (v, w)
    case (Some(m), Some(n)) => Plus(worth(m), worth(n))
    case (Some(m), None) => worth(m)
    case (None, Some(n)) => worth(n)
    case (None, None) => Finite(0.0)
  }

  function Ranked(worth: Scale, id: string, v: Option<nat>, w: Option<nat>): Fused {
    Fused(id, Total(worth, v, w), v, w)
  }

  function Entry(vector: seq<string>, keyword: seq<string>, worth: Scale, id: string): Fused {
    Ranked(worth, id, FirstRank(vector, id), FirstRank(keyword, id))
  }

  /** Each distinct id once, with its first rank in each list and the score they give, in comparator order. */
  ghost predicate IsFusion(fused: seq<Fused>, vector: seq<string>, keyword: seq<string>, worth: Scale)
  {
    && (forall f :: f in fused <==> (f.id in vector || f.id in keyword) && f == Entry(vector, keyword, worth, f.id))
    && Strictly(fused, Ahead)
  }

  /** There is one such list. */
  lemma FusionIsUnique(a: seq<Fused>, b: seq<Fused>, vector: seq<string>, keyword: seq<string>, worth: Scale)
    requires IsFusion(a, vector, keyword, worth) && IsFusion(b, vector, keyword, worth)
    ensures a == b
  {
    AheadIsAsymmetric();
    StrictListsAreUnique(a, b, Ahead);
  }

  // ---- accumulating ----

  /** Every entry is what the ids `v` and `w` make it. */
  ghost predicate Exact(fused: seq<Fused>, v: seq<string>, w: seq<string>, worth: Scale)
  {
    forall p :: 0 <= p < |fused| ==> IsEntry(fused[p], v, w, worth)
  }

  ghost predicate IsEntry(f: Fused, v: seq<string>, w: seq<string>, worth: Scale)
  {
    f == Entry(v, w, worth, f.id)
  }

  /** What the loops keep after the ids `v` of the first list and `w` of the second. */
  ghost predicate Tracks(fused: seq<Fused>, positions: map<string, nat>, v: seq<string>, w: seq<string>, worth: Scale)
  {
    && Indexed(fused, positions)
    && Exact(fused, v, w, worth)
    && (forall id :: id in positions <==> id in v || id in w)
  }

  /** `positions` says where each id's entry is. */
  ghost predicate Indexed(fused: seq<Fused>, positions: map<string, nat>) {
    && (forall p :: 0 <= p < |fused| ==> fused[p].id in positions && positions[fused[p].id] == p)
    && (forall id :: id in positions ==> positions[id] < |fused| && fused[positions[id]].id == id)
  }

  lemma RankAppends(list: seq<string>, id: string, x: string)
    ensures FirstRank(list + [id], x) ==
            if FirstRank(list, x).Some? then FirstRank(list, x)
            else if x == id then Some(|list| + 1) else None
  {
    assert (list + [id])[..|list|] == list;
  }

  /** `entry(id).or_insert_with(...)`: the id's place, made at the end when it is new. */
  method Locate(before: seq<Fused>, places: map<string, nat>, id: string, ghost v: seq<string>, ghost w: seq<string>,
                ghost worth: Scale)
    returns (fused: seq<Fused>, positions: map<string, nat>)
    requires Tracks(before, places, v, w, worth)
    ensures Indexed(fused, positions) && id in positions && Exact(fused, v, w, worth)
    ensures forall x :: x in positions <==> x in v || x in w || x == id
  {
    fused, positions := before, places;
    if id !in positions {
      positions := positions[id := |fused|];
      fused := fused + [Fused(id, Finite(0.0), None, None)];
    }
  }

  /** The first time an id shows up in a list, its rank there is set and its share added. */
  function Counted(f: Fused, rank: nat, fromVector: bool, gain: Score): Fused {
    if fromVector then
      if f.vectorRank.None? then f.(vectorRank := Some(rank), score := Plus(f.score, gain)) else f
    else
      if f.keywordRank.None? then f.(keywordRank := Some(rank), score := Plus(f.score, gain)) else f
  }

  lemma PlusNothing(nothing: Score, a: Score)
    requires nothing.Finite? && nothing.value == 0.0
    ensures Plus(nothing, a) == a
  {
  }

  lemma PlusCommutes(a: Score, b: Score)
    ensures Plus(a, b) == Plus(b, a)
  {
  }

  lemma TotalGrows(worth: Scale, v: Option<nat>, w: Option<nat>, rank: nat, total: Score)
    requires total == Total(worth, v, w)
    ensures v.None? ==> Plus(total, worth(rank)) == Total(worth, Some(rank), w)
    ensures w.None? ==> Plus(total, worth(rank)) == Total(worth, v, Some(rank))
  {
    if v.None? && w.None? {
      PlusNothing(total, worth(rank));
    } else if w.Some? {
      PlusCommutes(total, worth(rank));
    }
  }

  /** The entry of `x` after one more `id` in one of the lists. */
  lemma EntryAppends(v: seq<string>, w: seq<string>, id: string, x: string, fromVector: bool, worth: Scale)
    ensures Entry(if fromVector then v + [id] else v, if fromVector then w else w + [id], worth, x)
         == var rank := if fromVector then |v| + 1 else |w| + 1;
            if x == id then Counted(Entry(v, w, worth, x), rank, fromVector, worth(rank)) else Entry(v, w, worth, x)
  {
    TotalGrows(worth, FirstRank(v, x), FirstRank(w, x), if fromVector then |v| + 1 else |w| + 1,
               Entry(v, w, worth, x).score);
    if fromVector {
      RankAppends(v, id, x);
    } else {
      RankAppends(w, id, x);
    }
  }

  lemma EntryStays(f: Fused, v: seq<string>, w: seq<string>, v1: seq<string>, w1: seq<string>, id: string, worth: Scale)
    requires IsEntry(f, v, w, worth) && f.id != id
    requires (v1 == v + [id] && w1 == w) || (v1 == v && w1 == w + [id])
    ensures IsEntry(f, v1, w1, worth)
  {
    EntryAppends(v, w, id, f.id, v1 != v, worth);
  }

  lemma EntryCounts(f: Fused, v: seq<string>, w: seq<string>, id: string, rank: nat, fromVector: bool, worth: Scale)
    requires IsEntry(f, v, w, worth) && f.id == id && rank == (if fromVector then |v| else |w|) + 1
    ensures Counted(f, rank, fromVector, worth(rank)).id == id
    ensures IsEntry(Counted(f, rank, fromVector, worth(rank)), if fromVector then v + [id] else v,
                    if fromVector then w else w + [id], worth)
  {
    EntryAppends(v, w, id, id, fromVector, worth);
  }

  lemma UpdateStays(located: seq<Fused>, position: nat, updated: Fused, worth: Scale,
                    v: seq<string>, w: seq<string>, v1: seq<string>, w1: seq<string>, id: string)
    requires position < |located| && Exact(located, v, w, worth)
    requires forall p :: 0 <= p < |located| && p != position ==> located[p].id != id
    requires (v1 == v + [id] && w1 == w) || (v1 == v && w1 == w + [id])
    requires IsEntry(updated, v1, w1, worth)
    ensures Exact(located[position := updated], v1, w1, worth)
  {
    var fused := located[position := updated];
    forall p | 0 <= p < |fused| ensures IsEntry(fused[p], v1, w1, worth) {
      if p != position {
        EntryStays(located[p], v, w, v1, w1, id, worth);
      }
    }
  }

  lemma IndexStays(located: seq<Fused>, positions: map<string, nat>, position: nat, updated: Fused)
    requires Indexed(located, positions) && position < |located| && updated.id == located[position].id
    ensures Indexed(located[position := updated], positions)
  {
  }

  lemma IdsAppend(v: seq<string>, id: string, x: string)
    ensures x in v + [id] <==> x in v || x == id
  {
  }

  /** One turn of the loops: the id at `rank` of the current list. */
  method Count(before: seq<Fused>, places: map<string, nat>, id: string, rank: nat, fromVector: bool, gain: Score,
               ghost v: seq<string>, ghost w: seq<string>, ghost worth: Scale)
    returns (fused: seq<Fused>, positions: map<string, nat>)
    requires Tracks(before, places, v, w, worth)
    requires rank == (if fromVector then |v| else |w|) + 1 && gain == worth(rank)
    ensures Tracks(fused, positions, if fromVector then v + [id] else v, if fromVector then w else w + [id], worth)
  {
    fused, positions := Locate(before, places, id, v, w, worth);
    var entry := Counted(fused[positions[id]], rank, fromVector, gain);
    ghost var v1, w1 := if fromVector then v + [id] else v, if fromVector then w else w + [id];
    EntryCounts(fused[positions[id]], v, w, id, rank, fromVector, worth);
    UpdateStays(fused, positions[id], entry, worth, v, w, v1, w1, id);
    IndexStays(fused, positions, positions[id], entry);
    forall x ensures x in positions <==> x in v1 || x in w1 {
      IdsAppend(v, id, x);
      IdsAppend(w, id, x);
    }
    fused := fused[positions[id] := entry];
  }

  method Accumulate(vector: seq<string>, keyword: seq<string>, k: real, ghost worth: Scale)
    returns (fused: seq<Fused>, positions: map<string, nat>)
    requires worth == WorthBy(k)
    ensures Tracks(fused, positions, vector, keyword, worth)
  {
    fused, positions := [], map[];
    for rank := 0 to |vector|
      invariant Tracks(fused, positions, vector[..rank], [], worth)
    {
      fused, positions := Count(fused, positions, vector[rank], rank + 1, true, Worth(k, rank + 1),
                                vector[..rank], [], worth);
      assert vector[..rank] + [vector[rank]] == vector[..rank + 1];
    }
    assert vector[..|vector|] == vector;
    for rank := 0 to |keyword|
      invariant Tracks(fused, positions, vector, keyword[..rank], worth)
    {
      fused, positions := Count(fused, positions, keyword[rank], rank + 1, false, Worth(k, rank + 1),
                                vector, keyword[..rank], worth);
      assert keyword[..rank] + [keyword[rank]] == keyword[..rank + 1];
    }
    assert keyword[..|keyword|] == keyword;
  }

  lemma TrackedMembers(fused: seq<Fused>, positions: map<string, nat>, v: seq<string>, w: seq<string>, worth: Scale,
                       f: Fused)
    requires Tracks(fused, positions, v, w, worth)
    ensures f in fused <==> (f.id in v || f.id in w) && f == Entry(v, w, worth, f.id)
  {
    if f.id in positions && f == Entry(v, w, worth, f.id) {
      assert fused[positions[f.id]] == f;
    }
  }

  /** Entries with different ids never tie, so sorting leaves one order. */
  lemma SortedIsStrict(fused: seq<Fused>)
    requires forall p, q :: 0 <= p < q < |fused| ==> fused[p].id != fused[q].id
    ensures Strictly(SortBy(fused, NotBehind), Ahead)
  {
    var never := (x: Fused, y: Fused) => false;
    forall x, y ensures NotBehind(x, y) || NotBehind(y, x) {
      NotBehindIsTotal(x, y);
    }
    forall x, y, z | NotBehind(x, y) && NotBehind(y, z) ensures NotBehind(x, z) {
      NotBehindIsTransitive(x, y, z);
    }
    forall p, q | 0 <= p < q < |fused| && NotBehind(fused[p], fused[q]) && NotBehind(fused[q], fused[p]) ensures false {
      NotBehindIsTotal(fused[p], fused[q]);
    }
    assert TiesInOrder(fused, NotBehind, never);
    SortBySorts(fused, NotBehind, never);
  }

  method ReciprocalRankFusion(vector: seq<string>, keyword: seq<string>, k: real) returns (fused: seq<Fused>)
    ensures IsFusion(fused, vector, keyword, WorthBy(k))
  {
    ghost var worth := WorthBy(k);
    var entries, positions := Accumulate(vector, keyword, k, worth);
    fused := SortBy(entries, NotBehind);
    MembersAgree(fused, entries);
    SortedIsStrict(entries);
    forall f ensures f in fused <==> (f.id in vector || f.id in keyword) && f == Entry(vector, keyword, worth, f.id) {
      TrackedMembers(entries, positions, vector, keyword, worth, f);
    }
  }

  // ---- dominance ----

  /** Ranked no worse; an absent rank is the worst. */
  predicate NoWorse(r: Option<nat>, s: Option<nat>) {
    s.None? || (r.Some? && r.value <= s.value)
  }

  lemma WorthIsPositive(k: real, n: nat)
    requires k >= -1.0 && n >= 1
    ensures Above(Worth(k, n), Finite(0.0))
  {
    var d := k + n as real;
    if d != 0.0 {
      assert (1.0 / d) * d == 1.0;
      PositiveFactor(1.0 / d, d);
    }
  }

  lemma WorthFalls(k: real, m: nat, n: nat)
    requires k >= -1.0 && 1 <= m < n
    ensures Above(Worth(k, m), Worth(k, n))
  {
    if k + m as real != 0.0 {
      ReciprocalShrinks(k + m as real, k + n as real);
    }
  }

  /** An earlier rank of a list is worth more, for all ranks, exactly when the constant is at least -1. */
  lemma EarlierIsWorthMore(k: real)
    ensures (forall m, n :: 1 <= m < n ==> Above(Worth(k, m), Worth(k, n))) <==> k >= -1.0
  {
    if k >= -1.0 {
      forall m, n | 1 <= m < n ensures Above(Worth(k, m), Worth(k, n)) {
        WorthFalls(k, m, n);
      }
    } else {
      var p := (-k).Floor;
      assert p as real <= -k < (p + 1) as real;
      if k + p as real == 0.0 {
        assert k + (p - 1) as real == -1.0;
        assert !Above(Worth(k, p - 1), Worth(k, p));
      } else {
        NegativeWorth(k, p);
        assert !Above(Worth(k, p), Worth(k, p + 1));
      }
    }
  }

  lemma NegativeWorth(k: real, p: nat)
    requires k + p as real < 0.0 < k + (p + 1) as real
    ensures Worth(k, p).Finite? && Worth(k, p).value < 0.0
    ensures Worth(k, p + 1).Finite? && Worth(k, p + 1).value > 0.0
  {
    var d, e := k + p as real, k + (p + 1) as real;
    assert (1.0 / d) * d == 1.0 && (1.0 / e) * e == 1.0;
    PositiveFactor(-1.0 / d, -d);
    PositiveFactor(1.0 / e, e);
  }

  /** Different ids share no rank of a list. */
  lemma RanksAreDistinct(list: seq<string>, x: string, y: string)
    requires x != y
    ensures FirstRank(list, x) == FirstRank(list, y) ==> FirstRank(list, x).None?
  {
  }

  /** One better rank, the other the same or better too. */
  lemma TotalRises(k: real, v: Option<nat>, w: Option<nat>, v1: Option<nat>, w1: Option<nat>)
    requires k >= -1.0 && NoWorse(v, v1) && NoWorse(w, w1) && (v != v1 || w != w1)
    requires v == v1 ==> v.None?
    requires w == w1 ==> w.None?
    requires v.Some? ==> v.value >= 1
    requires w.Some? ==> w.value >= 1
    ensures Above(Total(WorthBy(k), v, w), Total(WorthBy(k), v1, w1))
  {
    RankRises(k, v, v1);
    RankRises(k, w, w1);
  }

  lemma RankRises(k: real, v: Option<nat>, v1: Option<nat>)
    requires k >= -1.0 && NoWorse(v, v1) && (v == v1 ==> v.None?) && (v.Some? ==> v.value >= 1)
    ensures v.Some? ==> Above(Worth(k, v.value), Finite(0.0))
    ensures v1.Some? ==> Above(Worth(k, v.value), Worth(k, v1.value)) && Above(Worth(k, v1.value), Finite(0.0))
  {
    if v.Some? {
      WorthIsPositive(k, v.value);
    }
    if v1.Some? {
      WorthFalls(k, v.value, v1.value);
      WorthIsPositive(k, v1.value);
    }
  }

  lemma ReciprocalShrinks(a: real, b: real)
    requires 0.0 < a < b
    ensures 1.0 / a > 1.0 / b
  {
    var x, y := 1.0 / a, 1.0 / b;
    assert x * a == 1.0 && y * b == 1.0;
    Scales(x, a, b);
    assert (x - y) * b > 0.0;
    PositiveFactor(x - y, b);
  }

  lemma Scales(x: real, a: real, b: real)
    requires x > 0.0 && a < b
    ensures x * a < x * b
  {
  }

  lemma PositiveFactor(d: real, b: real)
    requires d * b > 0.0 && b > 0.0
    ensures d > 0.0
  {
  }

  lemma EntryIsAbove(vector: seq<string>, keyword: seq<string>, k: real, x: string, y: string)
    requires k >= -1.0 && x != y
    requires NoWorse(FirstRank(vector, x), FirstRank(vector, y))
    requires NoWorse(FirstRank(keyword, x), FirstRank(keyword, y))
    requires FirstRank(vector, x) != FirstRank(vector, y) || FirstRank(keyword, x) != FirstRank(keyword, y)
    ensures Above(Entry(vector, keyword, WorthBy(k), x).score, Entry(vector, keyword, WorthBy(k), y).score)
  {
    var v, w, v1, w1 := FirstRank(vector, x), FirstRank(keyword, x), FirstRank(vector, y), FirstRank(keyword, y);
    RanksAreDistinct(vector, x, y);
    RanksAreDistinct(keyword, x, y);
    TotalRises(k, v, w, v1, w1);
  }

  /** An id ranked no worse in both lists and better in one always comes first. */
  lemma BetterRanksComeFirst(fused: seq<Fused>, vector: seq<string>, keyword: seq<string>, k: real, i: nat, j: nat)
    requires k >= -1.0 && IsFusion(fused, vector, keyword, WorthBy(k)) && i < |fused| && j < |fused|
    requires NoWorse(fused[i].vectorRank, fused[j].vectorRank) && NoWorse(fused[i].keywordRank, fused[j].keywordRank)
    requires fused[i].vectorRank != fused[j].vectorRank || fused[i].keywordRank != fused[j].keywordRank
    ensures Above(fused[i].score, fused[j].score) && i < j
  {
    assert fused[i] in fused && fused[j] in fused;
    EntryIsAbove(vector, keyword, k, fused[i].id, fused[j].id);
    assert !Ahead(fused[j], fused[i]);
  }

  /** Listing an id again at the end of either list changes nothing: only its first place in a list counts. */
  lemma RepeatsDoNotCount(fused: seq<Fused>, vector: seq<string>, keyword: seq<string>, worth: Scale, again: string)
    requires IsFusion(fused, vector, keyword, worth)
    ensures again in vector ==> IsFusion(fused, vector + [again], keyword, worth)
    ensures again in keyword ==> IsFusion(fused, vector, keyword + [again], worth)
  {
    forall id
      ensures again in vector ==> Entry(vector + [again], keyword, worth, id) == Entry(vector, keyword, worth, id)
      ensures again in keyword ==> Entry(vector, keyword + [again], worth, id) == Entry(vector, keyword, worth, id)
    {
      RankAppends(vector, again, id);
      RankAppends(keyword, again, id);
    }
  }
}
