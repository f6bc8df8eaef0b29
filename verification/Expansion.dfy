/** Neighbours of search hits, capped: the nested loops with an early return against a plain pipeline. */
module Expansion {
  import opened Wrappers
  import opened Seqs

  datatype Kind = Document | Other

  /** A neighbour of a document, over one edge. */
  datatype Neighbor = Neighbor(id: string, kind: Kind, relation: string, outgoing: bool)

  datatype Neighborhood = Neighborhood(documentId: string, neighbors: seq<Neighbor>)

  datatype Doc = Doc(id: string, sourcePath: string, chunkCount: nat)

  datatype Expanded = Expanded(documentId: string, relation: string, outgoing: bool, via: string,
                               path: string, chunkCount: Option<nat>)

  // ---- the pipeline: flatten, keep, drop repeats, cap ----

  /** A neighbour and the document it was reached from. */
  datatype Candidate = Candidate(via: string, neighbor: Neighbor)

  function Along(via: string, neighbors: seq<Neighbor>): (r: seq<Candidate>)
    ensures |r| == |neighbors|
    ensures forall i :: 0 <= i < |r| ==> r[i] == Candidate(via, neighbors[i])
  {
    seq(|neighbors|, i requires 0 <= i < |neighbors| => Candidate(via, neighbors[i]))
  }

  function Flatten(hoods: seq<Neighborhood>): seq<Candidate>
    decreases |hoods|
  {
    if hoods == [] then []
    else Flatten(hoods[..|hoods| - 1]) + Along(hoods[|hoods| - 1].documentId, hoods[|hoods| - 1].neighbors)
  }

  predicate Eligible(ranked: set<string>, c: Candidate) {
    c.neighbor.kind == Document && c.neighbor.id !in ranked
  }

  function Kept(ranked: set<string>, cs: seq<Candidate>): seq<Candidate>
    decreases |cs|
  {
    if cs == [] then []
    else
      var last := cs[|cs| - 1];
      Kept(ranked, cs[..|cs| - 1]) + if Eligible(ranked, last) then [last] else []
  }

  predicate Repeats(cs: seq<Candidate>, id: string) {
    exists i :: 0 <= i < |cs| && cs[i].neighbor.id == id
  }

  /** The first candidate of each document. */
  function Firsts(cs: seq<Candidate>): seq<Candidate>
    decreases |cs|
  {
    if cs == [] then []
    else
      var front, last := cs[..|cs| - 1], cs[|cs| - 1];
      Firsts(front) + if Repeats(front, last.neighbor.id) then [] else [last]
  }

  function Picked(ranked: set<string>, cs: seq<Candidate>): seq<Candidate> {
    Firsts(Kept(ranked, cs))
  }

  /** The last document listed under an id is the one looked up. */
  function LastDoc(docs: seq<Doc>, id: string): Option<Doc>
    decreases |docs|
  {
    if docs == [] then None
    else if docs[|docs| - 1].id == id then Some(docs[|docs| - 1])
    else LastDoc(docs[..|docs| - 1], id)
  }

  function Described(docs: seq<Doc>, c: Candidate): Expanded {
    var doc := LastDoc(docs, c.neighbor.id);
    Expanded(c.neighbor.id, c.neighbor.relation, c.neighbor.outgoing, c.via,
             if doc.Some? then doc.value.sourcePath else c.neighbor.id,
             if doc.Some? then Some(doc.value.chunkCount) else None)
  }

  function DescribedAll(docs: seq<Doc>, cs: seq<Candidate>): (r: seq<Expanded>)
    ensures |r| == |cs| && forall i :: 0 <= i < |cs| ==> r[i] == Described(docs, cs[i])
  {
    seq(|cs|, i requires 0 <= i < |cs| => Described(docs, cs[i]))
  }

  // ---- the loops ----

  lemma KeptAppends(ranked: set<string>, cs: seq<Candidate>, c: Candidate)
    ensures Kept(ranked, cs + [c]) == if Eligible(ranked, c) then Kept(ranked, cs) + [c] else Kept(ranked, cs)
  {
    assert (cs + [c])[..|cs|] == cs;
  }

  lemma FirstsAppend(cs: seq<Candidate>, c: Candidate)
    ensures Firsts(cs + [c]) == if Repeats(cs, c.neighbor.id) then Firsts(cs) else Firsts(cs) + [c]
  {
    assert (cs + [c])[..|cs|] == cs;
  }

  lemma PickedAppends(ranked: set<string>, cs: seq<Candidate>, c: Candidate)
    ensures Picked(ranked, cs + [c]) ==
            if Eligible(ranked, c) && !Repeats(Kept(ranked, cs), c.neighbor.id) then Picked(ranked, cs) + [c]
            else Picked(ranked, cs)
  {
    KeptAppends(ranked, cs, c);
    if Eligible(ranked, c) {
      FirstsAppend(Kept(ranked, cs), c);
    }
  }

  lemma {:induction false} PickedGrows(ranked: set<string>, cs: seq<Candidate>, more: seq<Candidate>)
    ensures Picked(ranked, cs) <= Picked(ranked, cs + more)
    decreases |more|
  {
    if more == [] {
      assert cs + more == cs;
    } else {
      var front := more[..|more| - 1];
      PickedGrows(ranked, cs, front);
      PickedAppends(ranked, cs + front, more[|more| - 1]);
      assert cs + more == (cs + front) + [more[|more| - 1]];
    }
  }

  /** What both loops keep after the candidates `cs`: below the cap everything picked so far is out. */
  ghost predicate Done(expansions: seq<Expanded>, taken: set<string>, ranked: set<string>, docs: seq<Doc>,
                       cs: seq<Candidate>, cap: nat)
  {
    && expansions == DescribedAll(docs, Picked(ranked, cs))
    && |expansions| <= cap
    && Took(taken, ranked, cs)
  }

  method Index(docs: seq<Doc>) returns (byId: map<string, Doc>)
    ensures forall id :: (if id in byId then Some(byId[id]) else None) == LastDoc(docs, id)
  {
    byId := map[];
    for i := 0 to |docs|
      invariant forall id :: (if id in byId then Some(byId[id]) else None) == LastDoc(docs[..i], id)
    {
      assert docs[..i + 1][..i] == docs[..i];
      byId := byId[docs[i].id := docs[i]];
    }
    assert docs[..|docs|] == docs;
  }

  /** `taken` holds the documents kept so far. */
  ghost predicate Took(taken: set<string>, ranked: set<string>, cs: seq<Candidate>) {
    forall id :: id in taken <==> Repeats(Kept(ranked, cs), id)
  }

  lemma TookAppends(taken: set<string>, ranked: set<string>, cs: seq<Candidate>, c: Candidate)
    requires Took(taken, ranked, cs)
    ensures Took(if Eligible(ranked, c) then taken + {c.neighbor.id} else taken, ranked, cs + [c])
  {
    KeptAppends(ranked, cs, c);
    forall id ensures Repeats(Kept(ranked, cs) + [c], id) <==> Repeats(Kept(ranked, cs), id) || c.neighbor.id == id {
      RepeatsAppends(Kept(ranked, cs), c, id);
    }
  }

  /** A candidate that is picked adds its description, any other nothing. */
  lemma OutputAppends(out: seq<Expanded>, taken: set<string>, ranked: set<string>, docs: seq<Doc>, cs: seq<Candidate>,
                      c: Candidate)
    requires out == DescribedAll(docs, Picked(ranked, cs)) && Took(taken, ranked, cs)
    ensures DescribedAll(docs, Picked(ranked, cs + [c])) ==
            if Eligible(ranked, c) && c.neighbor.id !in taken then out + [Described(docs, c)] else out
  {
    PickedAppends(ranked, cs, c);
  }

  /** What one more candidate adds to what is done. */
  lemma VisitedGrows(out: seq<Expanded>, taken: set<string>, ranked: set<string>, docs: seq<Doc>, cs: seq<Candidate>,
                     c: Candidate, cap: nat)
    requires Done(out, taken, ranked, docs, cs, cap) && |out| < cap
    ensures if Eligible(ranked, c) && c.neighbor.id !in taken then
              Done(out + [Described(docs, c)], taken + {c.neighbor.id}, ranked, docs, cs + [c], cap)
            else Done(out, taken, ranked, docs, cs + [c], cap)
  {
    TookAppends(taken, ranked, cs, c);
    OutputAppends(out, taken, ranked, docs, cs, c);
    assert c.neighbor.id in taken ==> taken + {c.neighbor.id} == taken;
  }

  /** One neighbour: taken ids include it from now on, unless it was not eligible. */
  method Visit(before: seq<Expanded>, seen: set<string>, ranked: set<string>, byId: map<string, Doc>, c: Candidate,
               ghost docs: seq<Doc>, ghost cs: seq<Candidate>, cap: nat)
    returns (expansions: seq<Expanded>, taken: set<string>)
    requires Done(before, seen, ranked, docs, cs, cap) && |before| < cap
    requires forall id :: (if id in byId then Some(byId[id]) else None) == LastDoc(docs, id)
    ensures Done(expansions, taken, ranked, docs, cs + [c], cap)
  {
    VisitedGrows(before, seen, ranked, docs, cs, c, cap);
    expansions, taken := before, seen;
    var id := c.neighbor.id;
    if c.neighbor.kind != Document || id in ranked || id in taken {
      return;
    }
    taken := taken + {id};
    var doc := if id in byId then Some(byId[id]) else None;
    var expanded := Expanded(id, c.neighbor.relation, c.neighbor.outgoing, c.via,
                             if doc.Some? then doc.value.sourcePath else id,
                             if doc.Some? then Some(doc.value.chunkCount) else None);
    assert expanded == Described(docs, c);
    expansions := expansions + [expanded];
  }

  lemma RepeatsAppends(cs: seq<Candidate>, c: Candidate, id: string)
    ensures Repeats(cs + [c], id) <==> Repeats(cs, id) || c.neighbor.id == id
  {
    if Repeats(cs, id) {
      var i :| 0 <= i < |cs| && cs[i].neighbor.id == id;
      assert (cs + [c])[i].neighbor.id == id;
    }
    if c.neighbor.id == id {
      assert (cs + [c])[|cs|].neighbor.id == id;
    }
  }

  /** Once `cap` are described, the candidates still to come change nothing. */
  lemma FullIsTaken(expansions: seq<Expanded>, taken: set<string>, ranked: set<string>, docs: seq<Doc>,
                    cs: seq<Candidate>, along: seq<Candidate>, i: nat, cap: nat)
    requires i <= |along| && Done(expansions, taken, ranked, docs, cs + along[..i], cap) && |expansions| == cap
    ensures expansions == Take(DescribedAll(docs, Picked(ranked, cs + along)), cap)
  {
    PickedGrows(ranked, cs + along[..i], along[i..]);
    assert cs + along == (cs + along[..i]) + along[i..];
  }

  /** The inner loop; `full` is the early return. */
  method VisitAll(before: seq<Expanded>, seen: set<string>, ranked: set<string>, byId: map<string, Doc>,
                  hood: Neighborhood, ghost docs: seq<Doc>, ghost cs: seq<Candidate>, cap: nat)
    returns (expansions: seq<Expanded>, taken: set<string>, full: bool)
    requires Done(before, seen, ranked, docs, cs, cap)
    requires forall id :: (if id in byId then Some(byId[id]) else None) == LastDoc(docs, id)
    ensures !full ==> Done(expansions, taken, ranked, docs, cs + Along(hood.documentId, hood.neighbors), cap)
    ensures full ==> |expansions| == cap
                     && var all := cs + Along(hood.documentId, hood.neighbors);
                        expansions == Take(DescribedAll(docs, Picked(ranked, all)), cap)
  {
    expansions, taken := before, seen;
    ghost var along := Along(hood.documentId, hood.neighbors);
    assert cs + along[..0] == cs;
    for i := 0 to |hood.neighbors|
      invariant Done(expansions, taken, ranked, docs, cs + along[..i], cap)
    {
      if |expansions| >= cap {
        FullIsTaken(expansions, taken, ranked, docs, cs, along, i, cap);
        return expansions, taken, true;
      }
      expansions, taken := Visit(expansions, taken, ranked, byId, Candidate(hood.documentId, hood.neighbors[i]),
                                 docs, cs + along[..i], cap);
      assert cs + along[..i + 1] == (cs + along[..i]) + [along[i]];
    }
    assert along[..|hood.neighbors|] == along;
    full := false;
  }

  /** The loops are the pipeline, cut at the cap. */
  method MergeGraphNeighbors(hits: seq<string>, hoods: seq<Neighborhood>, docs: seq<Doc>, cap: nat)
    returns (expansions: seq<Expanded>)
    ensures expansions == Take(DescribedAll(docs, Picked((set h | h in hits), Flatten(hoods))), cap)
  {
    if cap == 0 {
      return [];
    }
    var ranked := set h | h in hits;
    var byId := Index(docs);
    var taken: set<string> := {};
    expansions := [];
    for i := 0 to |hoods|
      invariant Done(expansions, taken, ranked, docs, Flatten(hoods[..i]), cap)
    {
      var full;
      assert hoods[..i + 1][..i] == hoods[..i];
      expansions, taken, full := VisitAll(expansions, taken, ranked, byId, hoods[i], docs, Flatten(hoods[..i]), cap);
      if full {
        FlattenGrows(hoods, i + 1);
        var rest :| Flatten(hoods) == Flatten(hoods[..i + 1]) + rest;
        PickedGrows(ranked, Flatten(hoods[..i + 1]), rest);
        return;
      }
    }
    assert hoods[..|hoods|] == hoods;
  }

  lemma {:induction false} FlattenGrows(hoods: seq<Neighborhood>, n: nat)
    requires n <= |hoods|
    ensures exists rest :: Flatten(hoods) == Flatten(hoods[..n]) + rest
    decreases |hoods|
  {
    if n == |hoods| {
      assert hoods[..n] == hoods;
      assert Flatten(hoods) == Flatten(hoods[..n]) + [];
    } else {
      var front := hoods[..|hoods| - 1];
      FlattenGrows(front, n);
      assert front[..n] == hoods[..n];
      var rest :| Flatten(front) == Flatten(front[..n]) + rest;
      var last := Along(hoods[|hoods| - 1].documentId, hoods[|hoods| - 1].neighbors);
      assert Flatten(hoods) == Flatten(hoods[..n]) + (rest + last);
    }
  }

  // ---- what the pipeline picks ----

  /** Picked candidates are eligible, come from the list, and no document twice. */
  lemma {:induction false} PickedAreDistinct(ranked: set<string>, cs: seq<Candidate>)
    ensures var p := Picked(ranked, cs);
            && (forall i :: 0 <= i < |p| ==> Eligible(ranked, p[i]) && p[i] in cs)
            && (forall i, j :: 0 <= i < j < |p| ==> p[i].neighbor.id != p[j].neighbor.id)
            && (forall id :: Repeats(p, id) <==> Repeats(Kept(ranked, cs), id))
    decreases |cs|
  {
    if cs != [] {
      var front, c := cs[..|cs| - 1], cs[|cs| - 1];
      PickedAreDistinct(ranked, front);
      assert cs == front + [c];
      PickedAppends(ranked, front, c);
      KeptAppends(ranked, front, c);
      forall id ensures Repeats(Picked(ranked, cs), id) <==> Repeats(Kept(ranked, cs), id) {
        RepeatsAppends(Picked(ranked, front), c, id);
        RepeatsAppends(Kept(ranked, front), c, id);
      }
      forall i | 0 <= i < |Picked(ranked, front)|
        ensures Eligible(ranked, c) && !Repeats(Kept(ranked, front), c.neighbor.id) ==>
                  Picked(ranked, front)[i].neighbor.id != c.neighbor.id
      {
        assert Repeats(Picked(ranked, front), Picked(ranked, front)[i].neighbor.id);
      }
    }
  }

  lemma NotKeptBefore(ranked: set<string>, cs: seq<Candidate>, id: string)
    requires forall m :: 0 <= m < |cs| && Eligible(ranked, cs[m]) ==> cs[m].neighbor.id != id
    ensures !Repeats(Kept(ranked, cs), id)
  {
    KeptComesFrom(ranked, cs);
  }

  lemma NewIsPicked(ranked: set<string>, before: seq<Candidate>, c: Candidate, after: seq<Candidate>)
    requires Eligible(ranked, c) && forall m :: 0 <= m < |before| && Eligible(ranked, before[m]) ==>
                                      before[m].neighbor.id != c.neighbor.id
    ensures c in Picked(ranked, (before + [c]) + after)
  {
    NotKeptBefore(ranked, before, c.neighbor.id);
    PickedAppends(ranked, before, c);
    PickedGrows(ranked, before + [c], after);
    assert (Picked(ranked, before) + [c])[|Picked(ranked, before)|] == c;
  }

  /** Every eligible document is picked, by its first candidate. */
  lemma FirstIsPicked(ranked: set<string>, cs: seq<Candidate>, n: nat)
    requires n < |cs| && Eligible(ranked, cs[n])
    requires forall m :: 0 <= m < n && Eligible(ranked, cs[m]) ==> cs[m].neighbor.id != cs[n].neighbor.id
    ensures cs[n] in Picked(ranked, cs)
  {
    NewIsPicked(ranked, cs[..n], cs[n], cs[n + 1..]);
    assert cs == (cs[..n] + [cs[n]]) + cs[n + 1..];
  }

  lemma {:induction false} KeptComesFrom(ranked: set<string>, cs: seq<Candidate>)
    ensures forall i :: 0 <= i < |Kept(ranked, cs)| ==>
              Kept(ranked, cs)[i] in cs && Eligible(ranked, Kept(ranked, cs)[i])
    decreases |cs|
  {
    if cs != [] {
      KeptComesFrom(ranked, cs[..|cs| - 1]);
      assert forall c :: c in cs[..|cs| - 1] ==> c in cs;
    }
  }
}
