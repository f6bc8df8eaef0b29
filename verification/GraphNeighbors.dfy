/** The neighbours of a node: which edges they come from, and in what order they are listed. */
module GraphNeighbors {
  import opened Wrappers
  import opened Ordering
  import opened GraphModel
  import opened GraphSearch
  import opened GraphState

  datatype Neighbor = Neighbor(node: Node, edge: Edge, direction: Direction)

  /** `n` is the far end of an edge of the graph that the query selects at `id`. */
  ghost predicate IsNeighbor(g: View, q: Query, id: string, n: Neighbor) {
    && KeyOf(n.edge) in g.edges && n.edge == EdgeOf(g, KeyOf(n.edge)) && Selected(q, n.edge.relation)
    && n.node.id in g.kinds && n.node.kind == g.kinds[n.node.id]
    && (|| (q.direction != Incoming && n.direction == Outgoing && n.edge.from == id && n.edge.to == n.node.id)
        || (q.direction != Outgoing && n.direction == Incoming && n.edge.to == id && n.edge.from == n.node.id))
  }

  /** By id, then relation, outgoing edges first. */
  predicate NeighborBefore(a: Neighbor, b: Neighbor) {
    || Less(a.node.id, b.node.id)
    || (a.node.id == b.node.id
        && (|| Less(a.edge.relation, b.edge.relation)
            || (a.edge.relation == b.edge.relation && a.direction == Outgoing && b.direction == Incoming)))
  }

  /** Every neighbour once, in order; an unknown id is an error. */
  ghost predicate NeighborReply(g: View, q: Query, id: string, r: Result<seq<Neighbor>, Error>) {
    if id !in g.kinds then r == Err(InvalidInput(UnknownNode(id)))
    else r.Ok? && Strictly(r.value, NeighborBefore) && forall n :: n in r.value <==> IsNeighbor(g, q, id, n)
  }

  lemma NeighborBeforeIsAsymmetric()
    ensures Asymmetric(NeighborBefore)
  {
    forall a: Neighbor, b: Neighbor | NeighborBefore(a, b) ensures !NeighborBefore(b, a) {
      if Less(a.node.id, b.node.id) {
        LessIsStrict(a.node.id, b.node.id);
      } else {
        LessIsIrreflexive(a.node.id);
        if Less(a.edge.relation, b.edge.relation) {
          LessIsStrict(a.edge.relation, b.edge.relation);
        } else {
          LessIsIrreflexive(a.edge.relation);
        }
      }
    }
  }

  /** The graph value fixes the reply. */
  lemma NeighborReplyIsUnique(g: View, q: Query, id: string,
                              r: Result<seq<Neighbor>, Error>, t: Result<seq<Neighbor>, Error>)
    requires NeighborReply(g, q, id, r) && NeighborReply(g, q, id, t)
    ensures r == t
  {
    if id in g.kinds {
      NeighborBeforeIsAsymmetric();
      StrictListsAreUnique(r.value, t.value, NeighborBefore);
    }
  }

  /** The neighbour a hop leads to. */
  ghost predicate IsNeighborOf(nodes: map<nat, Node>, arcs: map<nat, Arc>, g: View, index: nat, h: Hop, n: Neighbor) {
    && h.edge in arcs && h.other in nodes && Live(nodes, arcs[h.edge]) && ArcKey(nodes, arcs[h.edge]) in g.edges
    && n == Neighbor(nodes[h.other], EdgeOf(g, ArcKey(nodes, arcs[h.edge])),
                     if arcs[h.edge].from == index then Outgoing else Incoming)
  }

  /** As far as `listed` goes. */
  ghost predicate AreNeighborsOf(nodes: map<nat, Node>, arcs: map<nat, Arc>, g: View, index: nat, steps: seq<Hop>,
                                 listed: seq<Neighbor>)
  {
    && |listed| <= |steps|
    && forall i :: 0 <= i < |listed| ==> IsNeighborOf(nodes, arcs, g, index, steps[i], listed[i])
  }

  lemma AllowedHopIsNeighbor(nodes: map<nat, Node>, arcs: map<nat, Arc>, ids: map<string, nat>, at: map<Key, nat>,
                             g: View, q: Query, index: nat, h: Hop, n: Neighbor)
    requires Represents(nodes, arcs, ids, at, g) && index in nodes
    requires HopAllowed(arcs, q, index, Flows(q.direction), h) && IsNeighborOf(nodes, arcs, g, index, h, n)
    ensures IsNeighbor(g, q, nodes[index].id, n)
  {
    var k := ArcKey(nodes, arcs[h.edge]);
    assert ProperKey(g, k);
    var f :| f in Flows(q.direction) && HopFlows(arcs, index, f, h);
    assert KeyOf(EdgeOf(g, k)) == k;
    assert ids[nodes[h.other].id] == h.other && ids[nodes[index].id] == index;
  }

  lemma NeighborHasHop(nodes: map<nat, Node>, arcs: map<nat, Arc>, ids: map<string, nat>, at: map<Key, nat>, g: View,
                       q: Query, index: nat, n: Neighbor) returns (h: Hop)
    requires Represents(nodes, arcs, ids, at, g) && index in nodes && IsNeighbor(g, q, nodes[index].id, n)
    ensures HopAllowed(arcs, q, index, Flows(q.direction), h) && IsNeighborOf(nodes, arcs, g, index, h, n)
  {
    var k := KeyOf(n.edge);
    var e := at[k];
    assert ArcKey(nodes, arcs[e]) == k && ProperKey(g, k);
    assert ids[nodes[index].id] == index;
    assert ids[nodes[arcs[e].from].id] == arcs[e].from && ids[nodes[arcs[e].to].id] == arcs[e].to;
    h := Hop(if n.direction == Outgoing then arcs[e].to else arcs[e].from, e);
    assert n.direction in Flows(q.direction) && HopFlows(arcs, index, n.direction, h);
  }

  lemma OrderedHopsOrder(nodes: map<nat, Node>, arcs: map<nat, Arc>, ids: map<string, nat>, g: View,
                         index: nat, a: Hop, b: Hop, m: Neighbor, n: Neighbor)
    requires IdsMatch(nodes, ids, g) && StepBefore(nodes, arcs, index, a, b)
    requires IsNeighborOf(nodes, arcs, g, index, a, m) && IsNeighborOf(nodes, arcs, g, index, b, n)
    ensures NeighborBefore(m, n)
  {
    assert ids[nodes[arcs[a.edge].from].id] == arcs[a.edge].from;
    assert ids[nodes[arcs[b.edge].from].id] == arcs[b.edge].from;
    assert ids[nodes[index].id] == index;
  }

  /** Every neighbour is listed, at the hop that leads to it. */
  lemma NeighborIsListed(nodes: map<nat, Node>, arcs: map<nat, Arc>, ids: map<string, nat>, at: map<Key, nat>, g: View,
                         q: Query, index: nat, steps: seq<Hop>, listed: seq<Neighbor>, n: Neighbor)
    requires Represents(nodes, arcs, ids, at, g) && index in nodes && IsStep(nodes, arcs, q, index, steps)
    requires |listed| == |steps| && AreNeighborsOf(nodes, arcs, g, index, steps, listed)
    requires IsNeighbor(g, q, nodes[index].id, n)
    ensures n in listed
  {
    var h := NeighborHasHop(nodes, arcs, ids, at, g, q, index, n);
    assert h in steps;
    var i :| 0 <= i < |steps| && steps[i] == h;
    assert listed[i] == n;
  }

  /** A step list, hop by hop, is the neighbour list. */
  lemma StepsAreNeighbors(nodes: map<nat, Node>, arcs: map<nat, Arc>, ids: map<string, nat>, at: map<Key, nat>, g: View,
                          q: Query, index: nat, steps: seq<Hop>, listed: seq<Neighbor>)
    requires Represents(nodes, arcs, ids, at, g) && index in nodes && IsStep(nodes, arcs, q, index, steps)
    requires |listed| == |steps| && AreNeighborsOf(nodes, arcs, g, index, steps, listed)
    ensures Strictly(listed, NeighborBefore)
    ensures forall n :: n in listed <==> IsNeighbor(g, q, nodes[index].id, n)
  {
    ListedInOrder(nodes, arcs, ids, g, q, index, steps, listed);
    forall n ensures n in listed <==> IsNeighbor(g, q, nodes[index].id, n) {
      if n in listed {
        var i :| 0 <= i < |listed| && listed[i] == n;
        StepIsAllowed(nodes, arcs, q, index, steps, i);
        AllowedHopIsNeighbor(nodes, arcs, ids, at, g, q, index, steps[i], n);
      }
      if IsNeighbor(g, q, nodes[index].id, n) {
        NeighborIsListed(nodes, arcs, ids, at, g, q, index, steps, listed, n);
      }
    }
  }

  lemma ListedInOrder(nodes: map<nat, Node>, arcs: map<nat, Arc>, ids: map<string, nat>, g: View, q: Query,
                      index: nat, steps: seq<Hop>, listed: seq<Neighbor>)
    requires IdsMatch(nodes, ids, g) && IsStep(nodes, arcs, q, index, steps)
    requires |listed| == |steps| && AreNeighborsOf(nodes, arcs, g, index, steps, listed)
    ensures Strictly(listed, NeighborBefore)
  {
    forall i, j | 0 <= i < j < |listed| ensures NeighborBefore(listed[i], listed[j]) {
      OrderedHopsOrder(nodes, arcs, ids, g, index, steps[i], steps[j], listed[i], listed[j]);
    }
  }
}
