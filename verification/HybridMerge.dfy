/** The merge in `hybrid_search`: two result lists and a rescoring become one list of hits. */
module HybridMerge {
  import opened Wrappers
  import opened Seqs
  import opened Fusion

  /** A search hit; `chunk` stands for the stored fields. */
  datatype Hit = Hit(id: string, score: real, chunk: string, keywordScore: Option<real>,
                     fusedScore: Option<Score>, provenance: Option<Provenance>)

  const RRF_K := 60.0

  function Ids(hits: seq<Hit>): (ids: seq<string>)
    ensures |ids| == |hits| && forall i :: 0 <= i < |hits| ==> ids[i] == hits[i].id
  {
    seq(|hits|, i requires 0 <= i < |hits| => hits[i].id)
  }

  // ---- where a hit comes from ----

  function FirstOf(hits: seq<Hit>, id: string): (r: Option<Hit>)
    ensures r.Some? ==> r.value in hits && r.value.id == id
    ensures r.None? ==> forall h :: h in hits ==> h.id != id
  {
    if hits == [] then None else if hits[0].id == id then Some(hits[0]) else FirstOf(hits[1..], id)
  }

  function LastOf(hits: seq<Hit>, id: string): (r: Option<Hit>)
    ensures r.Some? ==> r.value in hits && r.value.id == id
    ensures r.None? ==> forall h :: h in hits ==> h.id != id
    decreases |hits|
  {
    if hits == [] then None
    else if hits[|hits| - 1].id == id then Some(hits[|hits| - 1])
    else LastOf(hits[..|hits| - 1], id)
  }

  /** Some keyword hit is not among the semantic ones, so the rescoring query runs. */
  predicate AnyMissing(semantic: seq<Hit>, lexical: seq<Hit>) {
    exists i :: 0 <= i < |lexical| && LastOf(semantic, lexical[i].id).None?
  }

  /** The hit an id is shown with: rescored if the query ran, else semantic, else as the keyword search had it. */
  function Source(semantic: seq<Hit>, lexical: seq<Hit>, rescored: seq<Hit>, id: string): (r: Option<Hit>)
    ensures r.Some? ==> r.value.id == id
  {
    if AnyMissing(semantic, lexical) && LastOf(rescored, id).Some? then LastOf(rescored, id)
    else if LastOf(semantic, id).Some? then LastOf(semantic, id)
    else FirstOf(lexical, id)
  }

  function KeywordScore(lexical: seq<Hit>, id: string): Option<real> {
    match LastOf(lexical, id)
    case None => None
    case Some(h) => Some(if h.keywordScore.Some? then h.keywordScore.value else 0.0)
  }

  function Dressed(found: Hit, entry: Fused, keywordScore: Option<real>): Hit {
    found.(keywordScore := keywordScore, fusedScore := Some(entry.score), provenance := Some(ProvenanceOf(entry)))
  }

  predicate Passes(found: Hit, entry: Fused, minScore: real) {
    found.score >= minScore || entry.keywordRank.Some?
  }

  // ---- filling the table ----

  /** The map has the last hit of every id, and no other. */
  ghost predicate HoldsLast(byId: map<string, Hit>, hits: seq<Hit>) {
    forall id :: (if id in byId then Some(byId[id]) else None) == LastOf(hits, id)
  }

  lemma LastAppends(hits: seq<Hit>, h: Hit, id: string)
    ensures LastOf(hits + [h], id) == if h.id == id then Some(h) else LastOf(hits, id)
  {
    assert (hits + [h])[..|hits|] == hits;
  }

  /** Collecting into a map keeps the last hit of each id. */
  method Collect(hits: seq<Hit>) returns (byId: map<string, Hit>)
    ensures HoldsLast(byId, hits)
  {
    byId := map[];
    for i := 0 to |hits|
      invariant HoldsLast(byId, hits[..i])
    {
      assert hits[..i + 1] == hits[..i] + [hits[i]];
      forall id ensures LastOf(hits[..i + 1], id) == if hits[i].id == id then Some(hits[i]) else LastOf(hits[..i], id) {
        LastAppends(hits[..i], hits[i], id);
      }
      byId := byId[hits[i].id := hits[i]];
    }
    assert hits[..|hits|] == hits;
  }

  method CollectScores(lexical: seq<Hit>) returns (scores: map<string, real>)
    ensures forall id :: (if id in scores then Some(scores[id]) else None) == KeywordScore(lexical, id)
  {
    scores := map[];
    for i := 0 to |lexical|
      invariant forall id :: (if id in scores then Some(scores[id]) else None) == KeywordScore(lexical[..i], id)
    {
      var h := lexical[i];
      assert lexical[..i + 1] == lexical[..i] + [h];
      forall id ensures LastOf(lexical[..i + 1], id) == if h.id == id then Some(h) else LastOf(lexical[..i], id) {
        LastAppends(lexical[..i], h, id);
      }
      scores := scores[h.id := if h.keywordScore.Some? then h.keywordScore.value else 0.0];
    }
    assert lexical[..|lexical|] == lexical;
  }

  /** The ids of the keyword hits the map does not have. */
  method Missing(byId: map<string, Hit>, lexical: seq<Hit>) returns (missing: seq<string>)
    ensures missing != [] <==> exists i :: 0 <= i < |lexical| && lexical[i].id !in byId
    ensures forall id :: id in missing <==> id !in byId && id in Ids(lexical)
  {
    missing := [];
    for i := 0 to |lexical|
      invariant missing != [] <==> exists j :: 0 <= j < i && lexical[j].id !in byId
      invariant forall id :: id in missing <==> id !in byId && id in Ids(lexical)[..i]
    {
      assert Ids(lexical)[..i + 1] == Ids(lexical)[..i] + [lexical[i].id];
      if lexical[i].id !in byId {
        missing := missing + [lexical[i].id];
      }
    }
    assert Ids(lexical)[..|lexical|] == Ids(lexical);
  }

  /** Rescored hits replace what is there. */
  method Overwrite(before: map<string, Hit>, rescored: seq<Hit>) returns (byId: map<string, Hit>)
    ensures forall id :: if LastOf(rescored, id).Some? then id in byId && byId[id] == LastOf(rescored, id).value
                         else (id in byId <==> id in before) && (id in byId ==> byId[id] == before[id])
  {
    byId := before;
    for i := 0 to |rescored|
      invariant forall id :: if LastOf(rescored[..i], id).Some?
                               then id in byId && byId[id] == LastOf(rescored[..i], id).value
                             else (id in byId <==> id in before) && (id in byId ==> byId[id] == before[id])
    {
      var h := rescored[i];
      assert rescored[..i + 1] == rescored[..i] + [h];
      forall id ensures LastOf(rescored[..i + 1], id) == if h.id == id then Some(h) else LastOf(rescored[..i], id) {
        LastAppends(rescored[..i], h, id);
      }
      byId := byId[h.id := h];
    }
    assert rescored[..|rescored|] == rescored;
  }

  lemma FirstAppends(hits: seq<Hit>, h: Hit, id: string)
    ensures FirstOf(hits + [h], id) == if FirstOf(hits, id).Some? then FirstOf(hits, id)
                                       else if h.id == id then Some(h) else None
  {
    if hits != [] {
      assert (hits + [h])[1..] == hits[1..] + [h];
      FirstAppends(hits[1..], h, id);
    } else {
      assert (hits + [h])[1..] == [];
    }
  }

  /** `entry(id).or_insert(found)`: only ids without a hit take the keyword one. */
  method FillIn(before: map<string, Hit>, lexical: seq<Hit>) returns (byId: map<string, Hit>)
    ensures forall id :: (if id in byId then Some(byId[id]) else None) ==
                         if id in before then Some(before[id]) else FirstOf(lexical, id)
  {
    byId := before;
    for i := 0 to |lexical|
      invariant forall id :: (if id in byId then Some(byId[id]) else None) ==
                             if id in before then Some(before[id]) else FirstOf(lexical[..i], id)
    {
      var h := lexical[i];
      assert lexical[..i + 1] == lexical[..i] + [h];
      forall id ensures FirstOf(lexical[..i + 1], id) ==
                        if FirstOf(lexical[..i], id).Some? then FirstOf(lexical[..i], id)
                        else if h.id == id then Some(h) else None {
        FirstAppends(lexical[..i], h, id);
      }
      if h.id !in byId {
        byId := byId[h.id := h];
      }
    }
    assert lexical[..|lexical|] == lexical;
  }

  /** Every id's hit before the final pass. */
  method Gather(semantic: seq<Hit>, lexical: seq<Hit>, rescored: seq<Hit>) returns (byId: map<string, Hit>)
    ensures forall id :: (if id in byId then Some(byId[id]) else None) == Source(semantic, lexical, rescored, id)
  {
    byId := Collect(semantic);
    ghost var collected := byId;
    var missing := Missing(byId, lexical);
    assert AnyMissing(semantic, lexical) <==> missing != [];
    if missing != [] {
      byId := Overwrite(byId, rescored);
    }
    byId := FillIn(byId, lexical);
  }

  // ---- the final pass ----

  /** What the pass makes of one fused entry. */
  function Row(semantic: seq<Hit>, lexical: seq<Hit>, rescored: seq<Hit>, minScore: real, entry: Fused): Option<Hit> {
    match Source(semantic, lexical, rescored, entry.id)
    case None => None
    case Some(found) =>
      if Passes(found, entry, minScore) then Some(Dressed(found, entry, KeywordScore(lexical, entry.id))) else None
  }

  /** The rows of all entries, in fused order. */
  function Rows(semantic: seq<Hit>, lexical: seq<Hit>, rescored: seq<Hit>, minScore: real, fused: seq<Fused>): seq<Hit>
    decreases |fused|
  {
    if fused == [] then []
    else
      var row := Row(semantic, lexical, rescored, minScore, fused[|fused| - 1]);
      Rows(semantic, lexical, rescored, minScore, fused[..|fused| - 1]) + if row.Some? then [row.value] else []
  }

  lemma RowsAppend(semantic: seq<Hit>, lexical: seq<Hit>, rescored: seq<Hit>, minScore: real, fused: seq<Fused>,
                   entry: Fused)
    ensures Rows(semantic, lexical, rescored, minScore, fused + [entry]) ==
            Rows(semantic, lexical, rescored, minScore, fused) +
            var row := Row(semantic, lexical, rescored, minScore, entry); if row.Some? then [row.value] else []
  {
    assert (fused + [entry])[..|fused|] == fused;
  }

  lemma {:induction false} RowsGrow(semantic: seq<Hit>, lexical: seq<Hit>, rescored: seq<Hit>, minScore: real,
                                    fused: seq<Fused>, n: nat)
    requires n <= |fused|
    ensures Rows(semantic, lexical, rescored, minScore, fused[..n]) <=
            Rows(semantic, lexical, rescored, minScore, fused)
    decreases |fused|
  {
    if n < |fused| {
      var front := fused[..|fused| - 1];
      RowsGrow(semantic, lexical, rescored, minScore, front, n);
      assert front[..n] == fused[..n];
    } else {
      assert fused[..n] == fused;
    }
  }

  lemma FusedIdsAreDistinct(fused: seq<Fused>, semantic: seq<Hit>, lexical: seq<Hit>, p: nat, q: nat)
    requires IsFusion(fused, Ids(semantic), Ids(lexical), WorthBy(RRF_K)) && p < q < |fused|
    ensures fused[p].id != fused[q].id
  {
    assert fused[p] in fused && fused[q] in fused;
    assert Ahead(fused[p], fused[q]);
  }

  /** The map between two turns: the hits of the ids no earlier entry has taken. */
  ghost predicate Remains(byId: map<string, Hit>, semantic: seq<Hit>, lexical: seq<Hit>, rescored: seq<Hit>,
                          fused: seq<Fused>, i: nat)
    requires i <= |fused|
  {
    forall p :: i <= p < |fused| ==>
      (if fused[p].id in byId then Some(byId[fused[p].id]) else None) ==
      Source(semantic, lexical, rescored, fused[p].id)
  }

  lemma RemovalLeavesLater(byId: map<string, Hit>, semantic: seq<Hit>, lexical: seq<Hit>, rescored: seq<Hit>,
                           fused: seq<Fused>, i: nat, j: nat)
    requires IsFusion(fused, Ids(semantic), Ids(lexical), WorthBy(RRF_K)) && i < |fused| && j == i + 1
    requires Remains(byId, semantic, lexical, rescored, fused, i)
    ensures Remains(byId - {fused[i].id}, semantic, lexical, rescored, fused, j)
  {
    forall p | j <= p < |fused| ensures fused[p].id != fused[i].id {
      FusedIdsAreDistinct(fused, semantic, lexical, i, p);
    }
  }

  /** One turn: the entry takes its hit, labels it and lets it pass or drop. */
  method TakeHit(byId: map<string, Hit>, scores: map<string, real>, entry: Fused, minScore: real,
                 ghost semantic: seq<Hit>, ghost lexical: seq<Hit>, ghost rescored: seq<Hit>)
    returns (row: Option<Hit>)
    requires (if entry.id in byId then Some(byId[entry.id]) else None) == Source(semantic, lexical, rescored, entry.id)
    requires (if entry.id in scores then Some(scores[entry.id]) else None) == KeywordScore(lexical, entry.id)
    ensures row == Row(semantic, lexical, rescored, minScore, entry)
  {
    if entry.id !in byId {
      return None;
    }
    var found := byId[entry.id];
    if !Passes(found, entry, minScore) {
      return None;
    }
    return Some(Dressed(found, entry, if entry.id in scores then Some(scores[entry.id]) else None));
  }

  /** Rows cut where the loop stops are the first `k`. */
  lemma CutIsTake(semantic: seq<Hit>, lexical: seq<Hit>, rescored: seq<Hit>, minScore: real, fused: seq<Fused>, i: nat,
                  k: nat)
    requires i <= |fused| && |Rows(semantic, lexical, rescored, minScore, fused[..i])| <= k
    requires i == |fused| || |Rows(semantic, lexical, rescored, minScore, fused[..i])| == k
    ensures Rows(semantic, lexical, rescored, minScore, fused[..i]) ==
            Take(Rows(semantic, lexical, rescored, minScore, fused), k)
  {
    RowsGrow(semantic, lexical, rescored, minScore, fused, i);
    assert i == |fused| ==> fused[..i] == fused;
  }

  /** One turn of the last pass. */
  method SelectOne(hits0: seq<Hit>, byId0: map<string, Hit>, scores: map<string, real>, ghost semantic: seq<Hit>,
                   ghost lexical: seq<Hit>, ghost rescored: seq<Hit>, fused: seq<Fused>, i: nat, minScore: real)
    returns (hits: seq<Hit>, byId: map<string, Hit>)
    requires i < |fused| && IsFusion(fused, Ids(semantic), Ids(lexical), WorthBy(RRF_K))
    requires Remains(byId0, semantic, lexical, rescored, fused, i)
    requires forall id :: (if id in scores then Some(scores[id]) else None) == KeywordScore(lexical, id)
    requires hits0 == Rows(semantic, lexical, rescored, minScore, fused[..i])
    ensures hits == Rows(semantic, lexical, rescored, minScore, fused[..i + 1])
    ensures |hits| <= |hits0| + 1
    ensures Remains(byId, semantic, lexical, rescored, fused, i + 1)
  {
    var row := TakeHit(byId0, scores, fused[i], minScore, semantic, lexical, rescored);
    RowsAppend(semantic, lexical, rescored, minScore, fused[..i], fused[i]);
    FrontGrows(fused, i);
    RemovalLeavesLater(byId0, semantic, lexical, rescored, fused, i, i + 1);
    byId := byId0 - {fused[i].id};
    hits := hits0 + if row.Some? then [row.value] else [];
  }

  /** The last pass: each entry takes its hit out of the map until `k` hits are there. */
  method Select(before: map<string, Hit>, scores: map<string, real>, ghost semantic: seq<Hit>, ghost lexical: seq<Hit>,
                ghost rescored: seq<Hit>, fused: seq<Fused>, k: nat, minScore: real)
    returns (hits: seq<Hit>)
    requires IsFusion(fused, Ids(semantic), Ids(lexical), WorthBy(RRF_K))
    requires Remains(before, semantic, lexical, rescored, fused, 0)
    requires forall id :: (if id in scores then Some(scores[id]) else None) == KeywordScore(lexical, id)
    ensures hits == Take(Rows(semantic, lexical, rescored, minScore, fused), k)
  {
    hits := [];
    var byId := before;
    var i := 0;
    while i < |fused| && |hits| < k
      invariant i <= |fused| && |hits| <= k
      invariant hits == Rows(semantic, lexical, rescored, minScore, fused[..i])
      invariant Remains(byId, semantic, lexical, rescored, fused, i)
    {
      hits, byId := SelectOne(hits, byId, scores, semantic, lexical, rescored, fused, i, minScore);
      i := i + 1;
    }
    CutIsTake(semantic, lexical, rescored, minScore, fused, i, k);
  }

  /** `hits` are the first `k` rows of the one fused list. */
  ghost predicate IsMerge(hits: seq<Hit>, semantic: seq<Hit>, lexical: seq<Hit>, rescored: seq<Hit>, k: nat,
                          minScore: real, fused: seq<Fused>)
  {
    && IsFusion(fused, Ids(semantic), Ids(lexical), WorthBy(RRF_K))
    && hits == Take(Rows(semantic, lexical, rescored, minScore, fused), k)
  }

  /** The merge of `hybrid_search`; `rescored` is what the query for the missing ids returns, when it runs. */
  method HybridSearch(semantic: seq<Hit>, lexical: seq<Hit>, rescored: seq<Hit>, k: nat, minScore: real)
    returns (hits: seq<Hit>)
    ensures exists fused :: IsMerge(hits, semantic, lexical, rescored, k, minScore, fused)
  {
    var fused := ReciprocalRankFusion(Ids(semantic), Ids(lexical), RRF_K);
    var scores := CollectScores(lexical);
    var byId := Gather(semantic, lexical, rescored);
    hits := Select(byId, scores, semantic, lexical, rescored, fused, k, minScore);
    assert IsMerge(hits, semantic, lexical, rescored, k, minScore, fused);
  }
}
