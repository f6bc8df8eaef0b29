/** What the merged list is guaranteed to hold. */
module HybridLaws {
  import opened Wrappers
  import opened Fusion
  import opened HybridMerge

  /** The entry an id has in the fused list. */
  function EntryOf(semantic: seq<Hit>, lexical: seq<Hit>, id: string): Fused {
    Entry(Ids(semantic), Ids(lexical), WorthBy(RRF_K), id)
  }

  /** Every fused id has a hit, so the pass drops none. */
  lemma FusedIdsHaveHits(semantic: seq<Hit>, lexical: seq<Hit>, rescored: seq<Hit>, fused: seq<Fused>, entry: Fused)
    requires IsFusion(fused, Ids(semantic), Ids(lexical), WorthBy(RRF_K)) && entry in fused
    ensures Source(semantic, lexical, rescored, entry.id).Some?
  {
    if entry.id in Ids(semantic) {
      var i :| 0 <= i < |semantic| && Ids(semantic)[i] == entry.id;
      assert semantic[i] in semantic;
    } else {
      var i :| 0 <= i < |lexical| && Ids(lexical)[i] == entry.id;
      assert lexical[i] in lexical;
    }
  }

  /** Where the row of entry `n` is among all rows. */
  lemma RowOf(semantic: seq<Hit>, lexical: seq<Hit>, rescored: seq<Hit>, minScore: real, fused: seq<Fused>, n: nat)
    requires n < |fused| && Row(semantic, lexical, rescored, minScore, fused[n]).Some?
    ensures var rows := Rows(semantic, lexical, rescored, minScore, fused);
            var i := |Rows(semantic, lexical, rescored, minScore, fused[..n])|;
            i < |rows| && rows[i] == Row(semantic, lexical, rescored, minScore, fused[n]).value
  {
    RowsGrow(semantic, lexical, rescored, minScore, fused, n + 1);
    assert fused[..n + 1] == fused[..n] + [fused[n]];
    RowsAppend(semantic, lexical, rescored, minScore, fused[..n], fused[n]);
  }

  /** Every row is some entry's. */
  lemma {:induction false} RowComesFrom(semantic: seq<Hit>, lexical: seq<Hit>, rescored: seq<Hit>, minScore: real,
                                        fused: seq<Fused>, i: nat) returns (n: nat)
    requires i < |Rows(semantic, lexical, rescored, minScore, fused)|
    ensures n < |fused| && Row(semantic, lexical, rescored, minScore, fused[n])
                           == Some(Rows(semantic, lexical, rescored, minScore, fused)[i])
    ensures |Rows(semantic, lexical, rescored, minScore, fused[..n])| == i
    decreases |fused|
  {
    var front := fused[..|fused| - 1];
    if i < |Rows(semantic, lexical, rescored, minScore, front)| {
      n := RowComesFrom(semantic, lexical, rescored, minScore, front, i);
      assert front[..n] == fused[..n];
    } else {
      n := |fused| - 1;
    }
  }

  /** Entries with more rows before them come later. */
  lemma RowsBefore(semantic: seq<Hit>, lexical: seq<Hit>, rescored: seq<Hit>, minScore: real, fused: seq<Fused>,
                   m: nat, n: nat)
    requires m <= |fused| && n <= |fused|
    requires |Rows(semantic, lexical, rescored, minScore, fused[..m])| <
             |Rows(semantic, lexical, rescored, minScore, fused[..n])|
    ensures m < n
  {
    if n <= m {
      RowsMonotone(semantic, lexical, rescored, minScore, fused, n, m);
    }
  }

  lemma RowsMonotone(semantic: seq<Hit>, lexical: seq<Hit>, rescored: seq<Hit>, minScore: real, fused: seq<Fused>,
                     n: nat, m: nat)
    requires n <= m <= |fused|
    ensures |Rows(semantic, lexical, rescored, minScore, fused[..n])| <=
            |Rows(semantic, lexical, rescored, minScore, fused[..m])|
  {
    RowsGrow(semantic, lexical, rescored, minScore, fused[..m], n);
    assert fused[..m][..n] == fused[..n];
  }

  /** The entry of a hit, and its place. */
  lemma EntryOfHit(hits: seq<Hit>, semantic: seq<Hit>, lexical: seq<Hit>, rescored: seq<Hit>, k: nat, minScore: real,
                   fused: seq<Fused>, i: nat) returns (n: nat)
    requires IsMerge(hits, semantic, lexical, rescored, k, minScore, fused) && i < |hits|
    ensures n < |fused| && fused[n].id == hits[i].id && fused[n] == EntryOf(semantic, lexical, hits[i].id)
    ensures Row(semantic, lexical, rescored, minScore, fused[n]) == Some(hits[i])
    ensures |Rows(semantic, lexical, rescored, minScore, fused[..n])| == i
  {
    n := RowComesFrom(semantic, lexical, rescored, minScore, fused, i);
    assert fused[n] in fused;
  }

  lemma FusedInOrder(semantic: seq<Hit>, lexical: seq<Hit>, fused: seq<Fused>, m: nat, n: nat)
    requires IsFusion(fused, Ids(semantic), Ids(lexical), WorthBy(RRF_K)) && m < n < |fused|
    ensures Ahead(fused[m], fused[n]) && fused[m] != fused[n]
  {
  }

  /** Hits are in comparator order, so no id shows up twice. */
  lemma HitsAreInOrder(hits: seq<Hit>, semantic: seq<Hit>, lexical: seq<Hit>, rescored: seq<Hit>, k: nat,
                       minScore: real, fused: seq<Fused>, i: nat, j: nat)
    requires IsMerge(hits, semantic, lexical, rescored, k, minScore, fused) && i < j < |hits|
    ensures Ahead(EntryOf(semantic, lexical, hits[i].id), EntryOf(semantic, lexical, hits[j].id))
    ensures hits[i].id != hits[j].id
  {
    var m := EntryOfHit(hits, semantic, lexical, rescored, k, minScore, fused, i);
    var n := EntryOfHit(hits, semantic, lexical, rescored, k, minScore, fused, j);
    RowsBefore(semantic, lexical, rescored, minScore, fused, m, n);
    FusedInOrder(semantic, lexical, fused, m, n);
  }

  /** What a hit says about itself: where the id was found, its fused score and its last keyword score. */
  lemma HitsAreLabelled(hits: seq<Hit>, semantic: seq<Hit>, lexical: seq<Hit>, rescored: seq<Hit>, k: nat,
                        minScore: real, fused: seq<Fused>, i: nat)
    requires IsMerge(hits, semantic, lexical, rescored, k, minScore, fused) && i < |hits|
    ensures var h := hits[i];
            && (h.provenance == Some(Both) <==> h.id in Ids(semantic) && h.id in Ids(lexical))
            && (h.provenance == Some(Vector) <==> h.id in Ids(semantic) && h.id !in Ids(lexical))
            && (h.provenance == Some(Keyword) <==> h.id !in Ids(semantic) && h.id in Ids(lexical))
            && h.provenance.Some?
            && h.fusedScore == Some(EntryOf(semantic, lexical, h.id).score)
            && h.keywordScore == KeywordScore(lexical, h.id)
            && (h.id !in Ids(lexical) ==> h.score >= minScore)
  {
    var n := EntryOfHit(hits, semantic, lexical, rescored, k, minScore, fused, i);
    assert fused[n] in fused;
  }

  /** An entry whose row found no room has `k` hits ahead of it. */
  lemma NoRoom(hits: seq<Hit>, semantic: seq<Hit>, lexical: seq<Hit>, rescored: seq<Hit>, k: nat, minScore: real,
               fused: seq<Fused>, n: nat, i: nat)
    requires IsMerge(hits, semantic, lexical, rescored, k, minScore, fused)
    requires n < |fused| && i < |hits| <= |Rows(semantic, lexical, rescored, minScore, fused[..n])|
    ensures Ahead(EntryOf(semantic, lexical, hits[i].id), fused[n])
  {
    var m := EntryOfHit(hits, semantic, lexical, rescored, k, minScore, fused, i);
    RowsBefore(semantic, lexical, rescored, minScore, fused, m, n);
    FusedInOrder(semantic, lexical, fused, m, n);
  }

  /** An entry that passes is a hit, or `k` hits leave it no room. */
  lemma PassingIsHit(hits: seq<Hit>, semantic: seq<Hit>, lexical: seq<Hit>, rescored: seq<Hit>, k: nat, minScore: real,
                     fused: seq<Fused>, n: nat)
    requires IsMerge(hits, semantic, lexical, rescored, k, minScore, fused)
    requires n < |fused| && Row(semantic, lexical, rescored, minScore, fused[n]).Some?
    ensures || (exists i :: 0 <= i < |hits| && hits[i].id == fused[n].id)
            || (|hits| == k && forall i :: 0 <= i < |hits| ==>
                  Ahead(EntryOf(semantic, lexical, hits[i].id), fused[n]))
  {
    RowOf(semantic, lexical, rescored, minScore, fused, n);
    var place := |Rows(semantic, lexical, rescored, minScore, fused[..n])|;
    if place < |hits| {
      assert hits[place].id == fused[n].id;
    } else {
      forall i | 0 <= i < |hits| ensures Ahead(EntryOf(semantic, lexical, hits[i].id), fused[n]) {
        NoRoom(hits, semantic, lexical, rescored, k, minScore, fused, n, i);
      }
    }
  }

  lemma PlaceOf(semantic: seq<Hit>, lexical: seq<Hit>, fused: seq<Fused>, id: string) returns (n: nat)
    requires IsFusion(fused, Ids(semantic), Ids(lexical), WorthBy(RRF_K))
    requires id in Ids(semantic) || id in Ids(lexical)
    ensures n < |fused| && fused[n] == EntryOf(semantic, lexical, id) && fused[n].id == id
    ensures fused[n].keywordRank.Some? <==> id in Ids(lexical)
  {
    var entry := EntryOf(semantic, lexical, id);
    assert entry in fused;
    n :| 0 <= n < |fused| && fused[n] == entry;
  }

  /** Every id either search found is accounted for: it is a hit, or only the semantic search has it and it
    * scores too low, or `k` better hits leave it no room.
    */
  lemma EveryIdIsAccountedFor(hits: seq<Hit>, semantic: seq<Hit>, lexical: seq<Hit>, rescored: seq<Hit>, k: nat,
                              minScore: real, fused: seq<Fused>, id: string)
    requires IsMerge(hits, semantic, lexical, rescored, k, minScore, fused)
    requires id in Ids(semantic) || id in Ids(lexical)
    ensures var source := Source(semantic, lexical, rescored, id);
            && source.Some?
            && (|| (exists i :: 0 <= i < |hits| && hits[i].id == id)
                || (id !in Ids(lexical) && source.value.score < minScore)
                || (|hits| == k && forall i :: 0 <= i < |hits| ==>
                      Ahead(EntryOf(semantic, lexical, hits[i].id), EntryOf(semantic, lexical, id))))
  {
    var n := PlaceOf(semantic, lexical, fused, id);
    FusedIdsHaveHits(semantic, lexical, rescored, fused, fused[n]);
    if Row(semantic, lexical, rescored, minScore, fused[n]).Some? {
      PassingIsHit(hits, semantic, lexical, rescored, k, minScore, fused, n);
    }
  }

  /** The order and content above leave one possible list. */
  lemma MergeIsUnique(a: seq<Hit>, b: seq<Hit>, semantic: seq<Hit>, lexical: seq<Hit>, rescored: seq<Hit>, k: nat,
                      minScore: real, f: seq<Fused>, g: seq<Fused>)
    requires IsMerge(a, semantic, lexical, rescored, k, minScore, f)
    requires IsMerge(b, semantic, lexical, rescored, k, minScore, g)
    ensures a == b
  {
    FusionIsUnique(f, g, Ids(semantic), Ids(lexical), WorthBy(RRF_K));
  }
}
