/** Which neighbours become expansions, in which order, and what each one shows, said by places. */
module ExpansionPlaces {
  import opened Wrappers
  import opened Seqs
  import opened Expansion

  /** A document that is no hit, listed here for the first time. */
  predicate IsNew(hits: seq<string>, cs: seq<Candidate>, p: nat) {
    p < |cs| && cs[p].neighbor.kind == Document && cs[p].neighbor.id !in hits && Unlisted(cs[..p], cs[p].neighbor.id)
  }

  predicate Unlisted(cs: seq<Candidate>, id: string) {
    forall m :: 0 <= m < |cs| && cs[m].neighbor.kind == Document ==> cs[m].neighbor.id != id
  }

  /** `at` are the places of the new documents, from the first on. */
  ghost predicate AreNew(hits: seq<string>, cs: seq<Candidate>, at: seq<nat>) {
    && (forall i :: 0 <= i < |at| ==> IsNew(hits, cs, at[i]))
    && (forall i, j :: 0 <= i < j < |at| ==> at[i] < at[j])
    && (forall p: nat :: IsNew(hits, cs, p) ==> p in at)
  }

  /** What an expansion shows of the neighbour it comes from. */
  predicate ShowsNeighbor(e: Expanded, c: Candidate) {
    && e.documentId == c.neighbor.id && e.relation == c.neighbor.relation && e.outgoing == c.neighbor.outgoing
    && e.via == c.via
  }

  /** The last document listed under the id gives path and chunk count; a document that is not listed shows its id
    * as the path and no count.
    */
  ghost predicate ShowsDocument(e: Expanded, docs: seq<Doc>) {
    && (forall d :: 0 <= d < |docs| && docs[d].id == e.documentId && NotListed(docs[d + 1..], e.documentId) ==>
          e.path == docs[d].sourcePath && e.chunkCount == Some(docs[d].chunkCount))
    && (NotListed(docs, e.documentId) ==> e.path == e.documentId && e.chunkCount == None)
  }

  predicate NotListed(docs: seq<Doc>, id: string) {
    forall d :: 0 <= d < |docs| ==> docs[d].id != id
  }

  lemma {:induction false} LastIsLookedUp(docs: seq<Doc>, d: nat, id: string)
    requires d < |docs| && docs[d].id == id && NotListed(docs[d + 1..], id)
    ensures LastDoc(docs, id) == Some(docs[d])
    decreases |docs|
  {
    if d < |docs| - 1 {
      var front := docs[..|docs| - 1];
      assert docs[d + 1..][|docs| - d - 2] == docs[|docs| - 1];
      assert front[d + 1..] == docs[d + 1..][..|docs| - d - 2];
      LastIsLookedUp(front, d, id);
    }
  }

  lemma {:induction false} NoneIsLookedUp(docs: seq<Doc>, id: string)
    requires NotListed(docs, id)
    ensures LastDoc(docs, id) == None
    decreases |docs|
  {
    if docs != [] {
      NoneIsLookedUp(docs[..|docs| - 1], id);
    }
  }

  lemma DescriptionShows(docs: seq<Doc>, c: Candidate)
    ensures ShowsNeighbor(Described(docs, c), c) && ShowsDocument(Described(docs, c), docs)
  {
    var id := c.neighbor.id;
    forall d | 0 <= d < |docs| && docs[d].id == id && NotListed(docs[d + 1..], id)
      ensures LastDoc(docs, id) == Some(docs[d])
    {
      LastIsLookedUp(docs, d, id);
    }
    if NotListed(docs, id) {
      NoneIsLookedUp(docs, id);
    }
  }

  lemma IsNewInFront(hits: seq<string>, cs: seq<Candidate>, c: Candidate, p: nat)
    requires p < |cs|
    ensures IsNew(hits, cs + [c], p) <==> IsNew(hits, cs, p)
  {
    assert (cs + [c])[..p] == cs[..p];
  }

  lemma LastIsNew(hits: seq<string>, cs: seq<Candidate>, c: Candidate)
    ensures IsNew(hits, cs + [c], |cs|) <==>
            c.neighbor.kind == Document && c.neighbor.id !in hits && Unlisted(cs, c.neighbor.id)
  {
    assert (cs + [c])[..|cs|] == cs;
  }

  /** An id is kept from a list exactly when the list has a document of that id that is no hit. */
  lemma {:induction false} KeptIsListed(hits: seq<string>, ranked: set<string>, cs: seq<Candidate>, id: string)
    requires ranked == (set h | h in hits) && id !in hits
    ensures Repeats(Kept(ranked, cs), id) <==> !Unlisted(cs, id)
    decreases |cs|
  {
    if cs != [] {
      var front, c := cs[..|cs| - 1], cs[|cs| - 1];
      KeptIsListed(hits, ranked, front, id);
      assert cs == front + [c];
      KeptAppends(ranked, front, c);
      RepeatsAppends(Kept(ranked, front), c, id);
      UnlistedAppends(front, c, id);
    }
  }

  lemma UnlistedAppends(cs: seq<Candidate>, c: Candidate, id: string)
    ensures Unlisted(cs + [c], id) <==> Unlisted(cs, id) && (c.neighbor.kind == Document ==> c.neighbor.id != id)
  {
    if Unlisted(cs + [c], id) {
      forall m | 0 <= m < |cs| && cs[m].neighbor.kind == Document ensures cs[m].neighbor.id != id {
        assert (cs + [c])[m] == cs[m];
      }
      assert (cs + [c])[|cs|] == c;
    }
  }

  lemma PickedIsNew(hits: seq<string>, ranked: set<string>, cs: seq<Candidate>, c: Candidate)
    requires ranked == set h | h in hits
    ensures Picked(ranked, cs + [c]) ==
            if IsNew(hits, cs + [c], |cs|) then Picked(ranked, cs) + [c] else Picked(ranked, cs)
  {
    PickedAppends(ranked, cs, c);
    LastIsNew(hits, cs, c);
    if c.neighbor.id !in hits {
      KeptIsListed(hits, ranked, cs, c.neighbor.id);
    }
  }

  lemma NewAppends(hits: seq<string>, cs: seq<Candidate>, c: Candidate, at: seq<nat>)
    requires AreNew(hits, cs, at)
    ensures AreNew(hits, cs + [c], if IsNew(hits, cs + [c], |cs|) then at + [|cs|] else at)
  {
    forall p: nat | p < |cs| ensures IsNew(hits, cs + [c], p) <==> IsNew(hits, cs, p) {
      IsNewInFront(hits, cs, c, p);
    }
    assert forall p: nat :: IsNew(hits, cs + [c], p) ==> p < |cs| || p == |cs|;
    assert (at + [|cs|])[|at|] == |cs|;
  }

  /** The places of what is picked. */
  lemma {:induction false} PickedPlaces(hits: seq<string>, ranked: set<string>, cs: seq<Candidate>)
    returns (at: seq<nat>)
    requires ranked == set h | h in hits
    ensures AreNew(hits, cs, at) && |at| == |Picked(ranked, cs)|
    ensures forall i :: 0 <= i < |at| ==> at[i] < |cs| && Picked(ranked, cs)[i] == cs[at[i]]
    decreases |cs|
  {
    at := [];
    if cs != [] {
      var front, c := cs[..|cs| - 1], cs[|cs| - 1];
      var before := PickedPlaces(hits, ranked, front);
      assert cs == front + [c];
      PickedIsNew(hits, ranked, front, c);
      NewAppends(hits, front, c, before);
      at := before;
      if IsNew(hits, cs, |front|) {
        at := before + [|front|];
      }
    }
  }

  /** The answer is the first `cap` new documents in the order of the neighbours, each as its neighbour and the
    * document list describe it.
    */
  lemma ExpansionsArePlaced(hits: seq<string>, hoods: seq<Neighborhood>, docs: seq<Doc>, cap: nat,
                            expansions: seq<Expanded>)
    returns (at: seq<nat>)
    requires expansions == Take(DescribedAll(docs, Picked((set h | h in hits), Flatten(hoods))), cap)
    ensures AreNew(hits, Flatten(hoods), at)
    ensures |expansions| == if |at| <= cap then |at| else cap
    ensures forall i :: 0 <= i < |expansions| ==>
              at[i] < |Flatten(hoods)| && ShowsNeighbor(expansions[i], Flatten(hoods)[at[i]])
    ensures forall i :: 0 <= i < |expansions| ==> ShowsDocument(expansions[i], docs)
  {
    var ranked, cs := (set h | h in hits), Flatten(hoods);
    at := PickedPlaces(hits, ranked, cs);
    forall i | 0 <= i < |expansions|
      ensures ShowsNeighbor(expansions[i], cs[at[i]]) && ShowsDocument(expansions[i], docs)
    {
      DescriptionShows(docs, cs[at[i]]);
    }
  }

  /** Where the neighbours of the document at `h` start among all candidates. */
  function Start(hoods: seq<Neighborhood>, h: nat): nat
    requires h <= |hoods|
  {
    if h == 0 then 0 else Start(hoods, h - 1) + |hoods[h - 1].neighbors|
  }

  /** The candidates are the neighbours, document by document. */
  lemma {:induction false} NeighborIsCandidate(hoods: seq<Neighborhood>, h: nat, n: nat)
    requires h < |hoods| && n < |hoods[h].neighbors|
    ensures Start(hoods, h) + n < |Flatten(hoods)|
    ensures Flatten(hoods)[Start(hoods, h) + n] == Candidate(hoods[h].documentId, hoods[h].neighbors[n])
    decreases |hoods|
  {
    var front := hoods[..|hoods| - 1];
    StartOfFront(front, hoods, h);
    if h < |front| {
      NeighborIsCandidate(front, h, n);
    } else {
      CandidatesAreCounted(front);
    }
  }

  /** And nothing else. */
  lemma {:induction false} CandidatesAreCounted(hoods: seq<Neighborhood>)
    ensures |Flatten(hoods)| == Start(hoods, |hoods|)
    decreases |hoods|
  {
    if hoods != [] {
      var front := hoods[..|hoods| - 1];
      CandidatesAreCounted(front);
      StartOfFront(front, hoods, |front|);
    }
  }

  lemma {:induction false} StartOfFront(front: seq<Neighborhood>, hoods: seq<Neighborhood>, h: nat)
    requires h <= |front| && front <= hoods
    ensures Start(front, h) == Start(hoods, h)
  {
    if h > 0 {
      StartOfFront(front, hoods, h - 1);
    }
  }
}
