/**
 * What the graph queries answer, said of edge keys and sequences of ids alone: which edges a path, a neighbour
 * list and a subgraph may use, that they use every one they may, and in what order they are listed.
 */
module GraphAnswers {
  import opened Wrappers
  import opened Ordering
  import opened GraphModel
  import opened GraphSearch
  import opened GraphNeighbors
  import opened GraphBalls
  import opened GraphTrace
  import opened GraphHops

  /** Some edge of a wanted relation joins `a` to `b` in a wanted direction. */
  ghost predicate Joined(g: View, q: Query, a: string, b: string) {
    exists r: string ::
      && (q.relation == None || q.relation == Some(r))
      && ((q.direction != Incoming && Key(a, b, r) in g.edges) || (q.direction != Outgoing && Key(b, a, r) in g.edges))
  }

  /** A route over such edges. */
  ghost predicate Route(g: View, q: Query, source: string, target: string, w: seq<string>) {
    && w != [] && w[0] == source && w[|w| - 1] == target
    && forall i, j :: 0 <= i && j == i + 1 < |w| ==> Joined(g, q, w[i], w[j])
  }

  lemma JoinedIsAdjacent(g: View, q: Query, a: string, b: string)
    ensures Joined(g, q, a, b) <==> Adjacent(g, q, a, b)
  {
    if Adjacent(g, q, a, b) {
      var k :| k in g.edges && Admits(q, k, a, b);
      assert k == Key(a, b, k.relation) || k == Key(b, a, k.relation);
    }
    if Joined(g, q, a, b) {
      var r: string :|
        && (q.relation == None || q.relation == Some(r))
        && ((q.direction != Incoming && Key(a, b, r) in g.edges)
            || (q.direction != Outgoing && Key(b, a, r) in g.edges));
      assert Admits(q, Key(a, b, r), a, b) || Admits(q, Key(b, a, r), a, b);
    }
  }

  lemma RouteIsWalk(g: View, q: Query, source: string, target: string, w: seq<string>)
    requires source in g.kinds
    ensures Route(g, q, source, target, w) <==> WalkTo(g, q, source, target, w)
  {
    if w != [] {
      forall i, j | 0 <= i && j == i + 1 < |w| ensures Joined(g, q, w[i], w[j]) <==> Adjacent(g, q, w[i], w[j]) {
        JoinedIsAdjacent(g, q, w[i], w[j]);
      }
    }
  }

  /** An edge of the graph with a wanted relation, taken from `a` to `b` in a wanted direction. */
  ghost predicate Leads(g: View, q: Query, e: Edge, a: string, b: string) {
    && Key(e.from, e.to, e.relation) in g.edges
    && g.edges[Key(e.from, e.to, e.relation)] == Payload(e.weight, e.metadata)
    && (q.relation.Some? ==> e.relation == q.relation.value)
    && ((q.direction != Incoming && e.from == a && e.to == b) || (q.direction != Outgoing && e.from == b && e.to == a))
  }

  // ---- paths ----

  /** A path runs from one id to the other over allowed edges, its nodes are the graph's, and no id repeats. */
  lemma PathUsesAllowedEdges(g: View, q: Query, from: string, to: string, path: GraphPath)
    requires from in g.kinds && to in g.kinds && PathReply(g, q, from, to, Ok(Some(path)))
    ensures |path.nodes| == |path.edges| + 1 && path.nodes[0].id == from && path.nodes[|path.edges|].id == to
    ensures forall i :: 0 <= i < |path.edges| ==> Leads(g, q, path.edges[i], path.nodes[i].id, path.nodes[i + 1].id)
    ensures forall i, j :: 0 <= i < j < |path.nodes| ==> path.nodes[i].id != path.nodes[j].id
  {
    LeastWalkIsSimple(g, q, from, to, Ids(path.nodes));
    assert Ids(path.nodes)[0] == from && Ids(path.nodes)[|path.nodes| - 1] == to;
    forall i | 0 <= i < |path.edges| ensures Leads(g, q, path.edges[i], path.nodes[i].id, path.nodes[i + 1].id) {
      var e := path.edges[i];
      assert e == EdgeOf(g, KeyOf(e)) && KeyOf(e) == Key(e.from, e.to, e.relation);
    }
    forall i, j | 0 <= i < j < |path.nodes| ensures path.nodes[i].id != path.nodes[j].id {
      assert Ids(path.nodes)[i] != Ids(path.nodes)[j];
    }
  }

  /** Wherever a route exists a path is found; it is no longer than any route, and of those of its length it has
    * the smaller id where they first differ.
    */
  lemma PathComesFirst(g: View, q: Query, from: string, to: string, r: Result<Option<GraphPath>, Error>, w: seq<string>)
    requires from in g.kinds && to in g.kinds && PathReply(g, q, from, to, r) && Route(g, q, from, to, w)
    ensures r.Ok? && r.value.Some?
    ensures var nodes := r.value.value.nodes;
            && |nodes| <= |w|
            && (|nodes| == |w| ==>
                  || (forall i :: 0 <= i < |w| ==> nodes[i].id == w[i])
                  || exists k :: 0 <= k < |w| && (forall i :: 0 <= i < k ==> nodes[i].id == w[i])
                                 && Less(nodes[k].id, w[k]))
  {
    RouteIsWalk(g, q, from, to, w);
    var u := Ids(r.value.value.nodes);
    assert NotAfter(u, w);
    if |u| == |w| && u != w {
      var k :| 0 <= k < |u| && u[..k] == w[..k] && Less(u[k], w[k]);
      forall i | 0 <= i < k ensures u[i] == w[i] {
        PrefixesAgree(u, w, k, i);
      }
    }
  }

  /** Among parallel edges a path takes the one of the least relation, and of two such the one that leaves. */
  lemma PathTakesFirstParallel(g: View, q: Query, from: string, to: string, path: GraphPath, i: nat, e: Edge)
    requires from in g.kinds && to in g.kinds && PathReply(g, q, from, to, Ok(Some(path))) && i < |path.edges|
    requires |path.nodes| == |path.edges| + 1 && Leads(g, q, e, path.nodes[i].id, path.nodes[i + 1].id)
    ensures path.edges[i].relation == e.relation || Less(path.edges[i].relation, e.relation)
    ensures path.edges[i].relation == e.relation ==>
              path.edges[i].from == path.nodes[i].id || e.from != path.nodes[i].id
  {
    var a, b := path.nodes[i].id, path.nodes[i + 1].id;
    assert Admits(q, KeyOf(e), a, b);
    assert HopEdge(g, q, a, b, KeyOf(path.edges[i]));
    LessIsIrreflexive(e.relation);
  }

  // ---- neighbours ----

  /** Every neighbour listed is over an allowed edge, in the direction it says. */
  lemma NeighborsAreAllowed(g: View, q: Query, id: string, r: Result<seq<Neighbor>, Error>, n: Neighbor)
    requires id in g.kinds && NeighborReply(g, q, id, r) && r.Ok? && n in r.value
    ensures Leads(g, q, n.edge, id, n.node.id) && n.node.id in g.kinds && n.node.kind == g.kinds[n.node.id]
    ensures n.direction == Outgoing ==> q.direction != Incoming && n.edge.from == id && n.edge.to == n.node.id
    ensures n.direction != Outgoing ==>
              n.direction == Incoming && q.direction != Outgoing && n.edge.to == id && n.edge.from == n.node.id
  {
    assert IsNeighbor(g, q, id, n);
    assert KeyOf(n.edge) == Key(n.edge.from, n.edge.to, n.edge.relation);
  }

  /** Every allowed edge is listed, under each wanted direction it has. */
  lemma AllowedEdgesAreListed(g: View, q: Query, id: string, r: Result<seq<Neighbor>, Error>, e: Edge, other: string)
    requires WellFormed(g) && id in g.kinds && NeighborReply(g, q, id, r) && Leads(g, q, e, id, other)
    ensures r.Ok? && other in g.kinds
    ensures q.direction != Incoming && e.from == id ==>
              Neighbor(Node(other, g.kinds[other]), e, Outgoing) in r.value
    ensures q.direction != Outgoing && e.to == id ==>
              Neighbor(Node(other, g.kinds[other]), e, Incoming) in r.value
  {
    assert KeyOf(e) == Key(e.from, e.to, e.relation) && e == EdgeOf(g, KeyOf(e)) && ProperKey(g, KeyOf(e));
    if q.direction != Incoming && e.from == id {
      assert IsNeighbor(g, q, id, Neighbor(Node(other, g.kinds[other]), e, Outgoing));
    }
    if q.direction != Outgoing && e.to == id {
      assert IsNeighbor(g, q, id, Neighbor(Node(other, g.kinds[other]), e, Incoming));
    }
  }

  /** By id, then relation, outgoing before incoming. */
  lemma NeighborsAreOrdered(g: View, q: Query, id: string, r: Result<seq<Neighbor>, Error>, i: nat, j: nat)
    requires id in g.kinds && NeighborReply(g, q, id, r) && r.Ok? && i < j < |r.value|
    ensures var m, n := r.value[i], r.value[j];
            && (m.node.id == n.node.id || Less(m.node.id, n.node.id))
            && (m.node.id == n.node.id ==>
                  || Less(m.edge.relation, n.edge.relation)
                  || (m.edge.relation == n.edge.relation && m.direction == Outgoing && n.direction == Incoming))
  {
    assert NeighborBefore(r.value[i], r.value[j]);
    LessIsIrreflexive(r.value[i].node.id);
  }

  // ---- subgraphs ----

  ghost predicate Lists(sub: Subgraph, id: string) {
    exists n :: n in sub.nodes && n.node.id == id
  }

  lemma ListedIsInBall(g: View, q: Query, root: string, hops: nat, sub: Subgraph, x: string)
    requires WellFormed(g) && root in g.kinds && IsSubgraph(g, q, root, hops, sub)
    ensures Lists(sub, x) <==> x in Ball(g, q, root, hops)
  {
    SubgraphNodesAreTheBall(g, q, root, hops, sub, x);
    if x in Ball(g, q, root, hops) {
      var n :| n in sub.nodes && n.node.id == x;
    }
  }

  /** The subgraph lists exactly what a route of at most `hops` edges reaches. */
  lemma SubgraphIsReach(g: View, q: Query, root: string, hops: nat, sub: Subgraph, x: string)
    requires WellFormed(g) && root in g.kinds && IsSubgraph(g, q, root, hops, sub)
    ensures Lists(sub, x) <==> exists w :: Route(g, q, root, x, w) && |w| <= hops + 1
  {
    ListedIsInBall(g, q, root, hops, sub, x);
    BallIsReach(g, q, root, x, hops);
    forall w ensures Route(g, q, root, x, w) <==> WalkTo(g, q, root, x, w) {
      RouteIsWalk(g, q, root, x, w);
    }
  }

  /** Its edges are exactly the edges of wanted relations between what it lists. */
  lemma SubgraphIsInduced(g: View, q: Query, root: string, hops: nat, sub: Subgraph, e: Edge)
    requires WellFormed(g) && root in g.kinds && IsSubgraph(g, q, root, hops, sub)
    ensures e in sub.edges <==>
            && Key(e.from, e.to, e.relation) in g.edges
            && g.edges[Key(e.from, e.to, e.relation)] == Payload(e.weight, e.metadata)
            && (q.relation.Some? ==> e.relation == q.relation.value)
            && Lists(sub, e.from) && Lists(sub, e.to)
  {
    ListedIsInBall(g, q, root, hops, sub, e.from);
    ListedIsInBall(g, q, root, hops, sub, e.to);
    assert KeyOf(e) == Key(e.from, e.to, e.relation);
    assert KeyOf(e) in g.edges ==>
             (e == EdgeOf(g, KeyOf(e)) <==> g.edges[KeyOf(e)] == Payload(e.weight, e.metadata));
  }

  /** A node is listed with the number of edges of the shortest route. */
  lemma HopsAreDistances(g: View, q: Query, root: string, hops: nat, sub: Subgraph, n: SubgraphNode)
    requires WellFormed(g) && root in g.kinds && IsSubgraph(g, q, root, hops, sub) && n in sub.nodes
    ensures n.node.id in g.kinds && n.node.kind == g.kinds[n.node.id] && n.hops <= hops
    ensures exists w :: Route(g, q, root, n.node.id, w) && |w| == n.hops + 1
    ensures forall w :: Route(g, q, root, n.node.id, w) ==> |w| >= n.hops + 1
  {
    var x := n.node.id;
    var w := WalkInBall(g, q, root, x, n.hops);
    forall v | Route(g, q, root, x, v) ensures |v| >= n.hops + 1 {
      RouteIsWalk(g, q, root, x, v);
      if |v| <= n.hops {
        WalkEndsInBall(g, q, root, x, v, n.hops - 1);
      }
    }
    RouteIsWalk(g, q, root, x, w);
  }

  /** The errors of a k-hop query: above 8 hops, a budget of 0 or above 65 536, or more within reach than the
    * budget, which is 4096 unless one is given.
    */
  lemma KHopErrors(g: View, q: Query, root: string, hops: nat, budget: Option<nat>, r: Result<Subgraph, Error>)
    requires WellFormed(g) && root in g.kinds && KHopReply(g, q, root, hops, budget, r)
    ensures hops > 8 ==> r == Err(InvalidInput(TooManyHops))
    ensures hops <= 8 && budget.Some? && (budget.value == 0 || budget.value > 65_536) ==>
              r == Err(InvalidInput(BadBudget))
    ensures hops <= 8 && (budget.Some? ==> 0 < budget.value <= 65_536) ==>
              var reached := set x | x in g.kinds && exists w :: Route(g, q, root, x, w) && |w| <= hops + 1;
              if |reached| > (if budget.Some? then budget.value else 4096) then r == Err(LimitExceeded) else r.Ok?
  {
    var reached := set x | x in g.kinds && exists w :: Route(g, q, root, x, w) && |w| <= hops + 1;
    forall x ensures x in reached <==> x in Ball(g, q, root, hops) {
      BallIsReach(g, q, root, x, hops);
      BallStaysInside(g, q, root, hops);
      forall w ensures Route(g, q, root, x, w) <==> WalkTo(g, q, root, x, w) {
        RouteIsWalk(g, q, root, x, w);
      }
    }
    assert reached == Ball(g, q, root, hops);
  }

  /** Nearer nodes first, then by id; edges by their ends, then relation. */
  lemma SubgraphIsOrdered(g: View, q: Query, root: string, hops: nat, sub: Subgraph, i: nat, j: nat)
    requires IsSubgraph(g, q, root, hops, sub) && i < j
    ensures j < |sub.nodes| ==>
              var m, n := sub.nodes[i], sub.nodes[j];
              m.hops < n.hops || (m.hops == n.hops && Less(m.node.id, n.node.id))
    ensures j < |sub.edges| ==> ByEnds(sub.edges[i], sub.edges[j])
  {
    assert j < |sub.nodes| ==> NearerBefore(sub.nodes[i], sub.nodes[j]);
    if j < |sub.edges| {
      EdgesAreByEnds(sub.edges[i], sub.edges[j]);
    }
  }

  predicate ByEnds(d: Edge, e: Edge) {
    if d.from != e.from then Less(d.from, e.from)
    else if d.to != e.to then Less(d.to, e.to)
    else Less(d.relation, e.relation)
  }

  /** Listings come in the same orders. */
  lemma ListingsAreOrdered(g: View, nodes: seq<Node>, edges: seq<Edge>, i: nat, j: nat)
    requires ListsNodes(g, nodes) && ListsEdges(g, g.edges.Keys, edges) && i < j
    ensures j < |nodes| ==> Less(nodes[i].id, nodes[j].id)
    ensures j < |edges| ==> ByEnds(edges[i], edges[j])
  {
    assert j < |nodes| ==> NodeBefore(nodes[i], nodes[j]);
    if j < |edges| {
      EdgesAreByEnds(edges[i], edges[j]);
    }
  }

  lemma EdgesAreByEnds(d: Edge, e: Edge)
    requires EdgeBefore(d, e)
    ensures ByEnds(d, e)
  {
    LessIsIrreflexive(d.from);
    LessIsIrreflexive(d.to);
  }
}
