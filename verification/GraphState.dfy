/**
 * What the store keeps in memory, and when it represents a graph value.
 * The digraph is two maps: node weights by node index, and arcs by edge index.
 */
module GraphState {
  import opened Wrappers
  import opened Text
  import opened Ordering
  import opened GraphModel
  import opened GraphSearch

  datatype Arc = Arc(from: nat, to: nat, relation: string, payload: Payload)

  /** One step of a search: the node it leads to, and the edge it takes. */
  datatype Hop = Hop(other: nat, edge: nat)

  predicate Live(nodes: map<nat, Node>, arc: Arc) {
    arc.from in nodes && arc.to in nodes
  }

  function ArcKey(nodes: map<nat, Node>, arc: Arc): Key
    requires Live(nodes, arc)
  {
    Key(nodes[arc.from].id, nodes[arc.to].id, arc.relation)
  }

  /** `ids` is a bijection between ids and live node indices. */
  ghost predicate IdsMatch(nodes: map<nat, Node>, ids: map<string, nat>, g: View) {
    && ids.Keys == g.kinds.Keys
    && (forall id {:trigger ids[id]} :: id in ids ==> ids[id] in nodes && nodes[ids[id]] == Node(id, g.kinds[id]))
    && (forall i {:trigger nodes[i]} :: i in nodes ==> nodes[i].id in ids && ids[nodes[i].id] == i)
  }

  /** Every arc joins live nodes, and `at` is a bijection between edge keys and arcs. */
  ghost predicate ArcsMatch(nodes: map<nat, Node>, arcs: map<nat, Arc>, at: map<Key, nat>, g: View) {
    && (forall e {:trigger arcs[e]} :: e in arcs ==> Live(nodes, arcs[e]))
    && at.Keys == g.edges.Keys
    && (forall k {:trigger at[k]} :: k in at ==>
          at[k] in arcs && ArcKey(nodes, arcs[at[k]]) == k && arcs[at[k]].payload == g.edges[k])
    && (forall e {:trigger arcs[e]} :: e in arcs ==> ArcKey(nodes, arcs[e]) in at && at[ArcKey(nodes, arcs[e])] == e)
  }

  ghost predicate Mirrors(nodes: map<nat, Node>, arcs: map<nat, Arc>, ids: map<string, nat>, at: map<Key, nat>, g: View)
  {
    IdsMatch(nodes, ids, g) && ArcsMatch(nodes, arcs, at, g)
  }

  ghost predicate Represents(nodes: map<nat, Node>, arcs: map<nat, Arc>, ids: map<string, nat>, at: map<Key, nat>,
                             g: View)
  {
    Mirrors(nodes, arcs, ids, at, g) && WellFormed(g)
  }

  predicate Meets(arc: Arc, index: nat) {
    arc.from == index || arc.to == index
  }

  function WithoutArcsAt(arcs: map<nat, Arc>, index: nat): map<nat, Arc> {
    map e | e in arcs && !Meets(arcs[e], index) :: arcs[e]
  }

  function WithoutKeysAt(at: map<Key, nat>, id: string): map<Key, nat> {
    map k | k in at && !Touches(k, id) :: at[k]
  }

  lemma IdInserted(nodes: map<nat, Node>, ids: map<string, nat>, g: View, node: Node, i: nat)
    requires IdsMatch(nodes, ids, g) && node.id !in ids && i !in nodes
    ensures IdsMatch(nodes[i := node], ids[node.id := i], g.(kinds := g.kinds[node.id := node.kind]))
  {
  }

  lemma ArcReplaced(nodes: map<nat, Node>, arcs: map<nat, Arc>, at: map<Key, nat>, g: View, k: Key, arc: Arc)
    requires ArcsMatch(nodes, arcs, at, g) && k in at && Live(nodes, arc) && ArcKey(nodes, arc) == k
    ensures ArcsMatch(nodes, arcs[at[k] := arc], at, g.(edges := g.edges[k := arc.payload]))
  {
    var after, edges := arcs[at[k] := arc], g.edges[k := arc.payload];
    forall e | e in after
      ensures Live(nodes, after[e]) && ArcKey(nodes, after[e]) in at && at[ArcKey(nodes, after[e])] == e
    {
      assert e != at[k] ==> after[e] == arcs[e];
    }
    forall j | j in at
      ensures at[j] in after && ArcKey(nodes, after[at[j]]) == j && after[at[j]].payload == edges[j]
    {
      if j != k {
        assert ArcKey(nodes, arcs[at[j]]) == j && ArcKey(nodes, arcs[at[k]]) == k;
      }
    }
  }

  lemma ArcStored(nodes: map<nat, Node>, arcs: map<nat, Arc>, at: map<Key, nat>, g: View, k: Key, arc: Arc, e: nat)
    requires ArcsMatch(nodes, arcs, at, g) && k !in at && e !in arcs && Live(nodes, arc) && ArcKey(nodes, arc) == k
    ensures ArcsMatch(nodes, arcs[e := arc], at[k := e], g.(edges := g.edges[k := arc.payload]))
  {
  }

  lemma NodeUpdated(nodes: map<nat, Node>, arcs: map<nat, Arc>, ids: map<string, nat>, at: map<Key, nat>, g: View,
                    node: Node)
    requires Represents(nodes, arcs, ids, at, g) && NodeFault(node) == None && Trim(node.id) in ids
    ensures var id := Trim(node.id);
            Represents(nodes[ids[id] := Node(id, node.kind)], arcs, ids, at, WithNode(g, node))
  {
    WithNodeKeeps(g, node);
    KindUpdated(nodes, arcs, ids, at, g, Trim(node.id), node.kind);
  }

  lemma KindUpdated(nodes: map<nat, Node>, arcs: map<nat, Arc>, ids: map<string, nat>, at: map<Key, nat>, g: View,
                    id: string, kind: NodeKind)
    requires Mirrors(nodes, arcs, ids, at, g) && id in ids
    ensures Mirrors(nodes[ids[id] := Node(id, kind)], arcs, ids, at, g.(kinds := g.kinds[id := kind]))
  {
    KindReplaced(nodes, ids, g, id, kind);
    ArcsKeepKeys(nodes, nodes[ids[id] := Node(id, kind)], arcs, at, g, g.kinds[id := kind]);
  }

  lemma KindReplaced(nodes: map<nat, Node>, ids: map<string, nat>, g: View, id: string, kind: NodeKind)
    requires IdsMatch(nodes, ids, g) && id in ids
    ensures IdsMatch(nodes[ids[id] := Node(id, kind)], ids, g.(kinds := g.kinds[id := kind]))
  {
  }

  lemma ArcsKeepKeys(nodes: map<nat, Node>, after: map<nat, Node>, arcs: map<nat, Arc>, at: map<Key, nat>, g: View,
                     kinds: map<string, NodeKind>)
    requires ArcsMatch(nodes, arcs, at, g)
    requires forall i :: i in nodes ==> i in after && after[i].id == nodes[i].id
    ensures ArcsMatch(after, arcs, at, g.(kinds := kinds))
  {
    forall e | e in arcs ensures Live(after, arcs[e]) && ArcKey(after, arcs[e]) == ArcKey(nodes, arcs[e]) {
      assert Live(nodes, arcs[e]);
    }
  }

  lemma NodeInserted(nodes: map<nat, Node>, arcs: map<nat, Arc>, ids: map<string, nat>, at: map<Key, nat>, g: View,
                     node: Node, i: nat)
    requires Represents(nodes, arcs, ids, at, g) && NodeFault(node) == None
    requires Trim(node.id) !in ids && i !in nodes
    ensures var id := Trim(node.id);
            Represents(nodes[i := Node(id, node.kind)], arcs, ids[id := i], at, WithNode(g, node))
  {
    WithNodeKeeps(g, node);
    IdInserted(nodes, ids, g, Node(Trim(node.id), node.kind), i);
  }

  lemma ArcUpdated(nodes: map<nat, Node>, arcs: map<nat, Arc>, ids: map<string, nat>, at: map<Key, nat>, g: View,
                   edge: Edge, arc: Arc)
    requires Represents(nodes, arcs, ids, at, g) && EdgeFault(g, edge) == None && TrimmedKey(edge) in at
    requires Live(nodes, arc) && ArcKey(nodes, arc) == TrimmedKey(edge)
    requires arc.payload == Payload(edge.weight, edge.metadata)
    ensures Represents(nodes, arcs[at[TrimmedKey(edge)] := arc], ids, at, WithEdge(g, edge))
  {
    WithEdgeKeeps(g, edge);
    ArcReplaced(nodes, arcs, at, g, TrimmedKey(edge), arc);
  }

  lemma ArcInserted(nodes: map<nat, Node>, arcs: map<nat, Arc>, ids: map<string, nat>, at: map<Key, nat>, g: View,
                    edge: Edge, arc: Arc, e: nat)
    requires Represents(nodes, arcs, ids, at, g) && EdgeFault(g, edge) == None && TrimmedKey(edge) !in at
    requires Live(nodes, arc) && ArcKey(nodes, arc) == TrimmedKey(edge)
    requires arc.payload == Payload(edge.weight, edge.metadata)
    requires e !in arcs
    ensures Represents(nodes, arcs[e := arc], ids, at[TrimmedKey(edge) := e], WithEdge(g, edge))
  {
    WithEdgeKeeps(g, edge);
    ArcStored(nodes, arcs, at, g, TrimmedKey(edge), arc, e);
  }

  lemma ArcRemoved(nodes: map<nat, Node>, arcs: map<nat, Arc>, ids: map<string, nat>, at: map<Key, nat>, g: View,
                   k: Key)
    requires Represents(nodes, arcs, ids, at, g) && k in at
    ensures Represents(nodes, arcs - {at[k]}, ids, at - {k}, WithoutEdge(g, k))
  {
    assert WellFormed(WithoutEdge(g, k));
  }

  lemma ArcsDetached(nodes: map<nat, Node>, arcs: map<nat, Arc>, ids: map<string, nat>, at: map<Key, nat>, g: View,
                     id: string)
    requires Mirrors(nodes, arcs, ids, at, g) && id in ids
    ensures Mirrors(nodes, WithoutArcsAt(arcs, ids[id]), ids, WithoutKeysAt(at, id), WithoutEdgesAt(g, id))
  {
    forall e | e in arcs ensures Meets(arcs[e], ids[id]) <==> Touches(ArcKey(nodes, arcs[e]), id) {
      assert Live(nodes, arcs[e]);
    }
  }

  lemma NodeRemoved(nodes: map<nat, Node>, arcs: map<nat, Arc>, ids: map<string, nat>, at: map<Key, nat>, g: View,
                    id: string)
    requires Mirrors(nodes, arcs, ids, at, g) && id in ids
    requires forall e :: e in arcs ==> !Meets(arcs[e], ids[id])
    ensures Mirrors(nodes - {ids[id]}, arcs, ids - {id}, at, View(g.kinds - {id}, g.edges))
  {
    forall k | k in g.edges ensures !Touches(k, id) {
      assert Live(nodes, arcs[at[k]]);
    }
  }

  /** The memory holds as many arcs and nodes as the graph has edges and nodes. */
  lemma SizesMatch(nodes: map<nat, Node>, arcs: map<nat, Arc>, ids: map<string, nat>, at: map<Key, nat>, g: View)
    requires Mirrors(nodes, arcs, ids, at, g)
    ensures |arcs| == |g.edges| && |nodes| == |g.kinds|
  {
    var keys := map e | e in arcs :: ArcKey(nodes, arcs[e]);
    var names := map i | i in nodes :: nodes[i].id;
    InverseMapsHaveOneSize(at, keys);
    InverseMapsHaveOneSize(ids, names);
    assert keys.Keys == arcs.Keys && names.Keys == nodes.Keys;
    assert |g.edges| == |g.edges.Keys| && |g.kinds| == |g.kinds.Keys|;
    assert |arcs| == |arcs.Keys| && |nodes| == |nodes.Keys|;
  }

  lemma DetachCounts(nodes: map<nat, Node>, arcs: map<nat, Arc>, ids: map<string, nat>, at: map<Key, nat>, g: View,
                     id: string)
    requires Represents(nodes, arcs, ids, at, g) && id in ids
    ensures |arcs| - |WithoutArcsAt(arcs, ids[id])| == |EdgesAt(g, id)|
  {
    ArcsDetached(nodes, arcs, ids, at, g, id);
    SizesMatch(nodes, arcs, ids, at, g);
    SizesMatch(nodes, WithoutArcsAt(arcs, ids[id]), ids, WithoutKeysAt(at, id), WithoutEdgesAt(g, id));
    WithoutEdgesAtCounts(g, id);
  }

  lemma EdgesDetached(nodes: map<nat, Node>, arcs: map<nat, Arc>, ids: map<string, nat>, at: map<Key, nat>, g: View,
                      id: string)
    requires Represents(nodes, arcs, ids, at, g) && id in ids
    ensures Represents(nodes, WithoutArcsAt(arcs, ids[id]), ids, WithoutKeysAt(at, id), WithoutEdgesAt(g, id))
    ensures |arcs| - |WithoutArcsAt(arcs, ids[id])| == |EdgesAt(g, id)|
  {
    DetachCounts(nodes, arcs, ids, at, g, id);
    ArcsDetached(nodes, arcs, ids, at, g, id);
    WithoutNodeKeeps(g, id);
  }

  lemma DetachedNodeRemoved(nodes: map<nat, Node>, arcs: map<nat, Arc>, ids: map<string, nat>, at: map<Key, nat>,
                            g: View, id: string)
    requires Represents(nodes, arcs, ids, at, g) && id in ids
    ensures Represents(nodes - {ids[id]}, WithoutArcsAt(arcs, ids[id]), ids - {id}, WithoutKeysAt(at, id),
                       WithoutNode(g, id))
    ensures |arcs| - |WithoutArcsAt(arcs, ids[id])| == |EdgesAt(g, id)|
  {
    DetachCounts(nodes, arcs, ids, at, g, id);
    ArcsDetached(nodes, arcs, ids, at, g, id);
    NodeRemoved(nodes, WithoutArcsAt(arcs, ids[id]), ids, WithoutKeysAt(at, id), WithoutEdgesAt(g, id), id);
    WithoutNodeKeeps(g, id);
  }

  /** The arc of a key is the only one with its ends and relation. */
  lemma ArcOfKey(nodes: map<nat, Node>, arcs: map<nat, Arc>, ids: map<string, nat>, at: map<Key, nat>, g: View,
                 from: nat, to: nat, k: Key)
    requires Represents(nodes, arcs, ids, at, g) && from in nodes && to in nodes
    requires k in at && k.from == nodes[from].id && k.to == nodes[to].id
    ensures arcs[at[k]].from == from && arcs[at[k]].to == to && arcs[at[k]].relation == k.relation
  {
    var arc := arcs[at[k]];
    assert ids[nodes[arc.from].id] == arc.from && ids[nodes[arc.to].id] == arc.to;
    assert ids[nodes[from].id] == from && ids[nodes[to].id] == to;
  }

  lemma {:induction false} InverseMapsHaveOneSize<A, B>(m: map<A, B>, n: map<B, A>)
    requires forall a :: a in m ==> m[a] in n && n[m[a]] == a
    requires forall b :: b in n ==> n[b] in m && m[n[b]] == b
    ensures |m.Keys| == |n.Keys|
    decreases |m.Keys|
  {
    assert forall b :: b in n.Keys ==> n[b] in m.Keys;
    if m.Keys != {} {
      var a :| a in m.Keys;
      var b := m[a];
      assert (m - {a}).Keys == m.Keys - {a} && (n - {b}).Keys == n.Keys - {b};
      InverseMapsHaveOneSize(m - {a}, n - {b});
    }
  }

  // ---- the steps of a search ----

  function StepId(nodes: map<nat, Node>, h: Hop): string {
    if h.other in nodes then nodes[h.other].id else ""
  }

  function StepRelation(arcs: map<nat, Arc>, h: Hop): string {
    if h.edge in arcs then arcs[h.edge].relation else ""
  }

  function StepKey(nodes: map<nat, Node>, arcs: map<nat, Arc>, h: Hop): seq<string> {
    [StepId(nodes, h), StepRelation(arcs, h)]
  }

  /** The hop follows an arc that `flow` offers at `index`. */
  predicate HopFlows(arcs: map<nat, Arc>, index: nat, flow: Direction, h: Hop) {
    && h.edge in arcs
    && (flow == Outgoing ==> arcs[h.edge].from == index && arcs[h.edge].to == h.other)
    && (flow == Incoming ==> arcs[h.edge].to == index && arcs[h.edge].from == h.other)
  }

  /** The traversals of `flows`, in the order they are made. */
  function Flows(direction: Direction): (r: seq<Direction>)
    ensures forall i :: 0 <= i < |r| ==> r[i] != Both
  {
    match direction
    case Outgoing => [Outgoing]
    case Incoming => [Incoming]
    case Both => [Outgoing, Incoming]
  }

  ghost predicate HopAllowed(arcs: map<nat, Arc>, q: Query, index: nat, flows: seq<Direction>, h: Hop) {
    h.edge in arcs && Selected(q, arcs[h.edge].relation) && exists f :: f in flows && HopFlows(arcs, index, f, h)
  }

  predicate OutgoingFirst(arcs: map<nat, Arc>, index: nat, a: Hop, b: Hop) {
    a.edge in arcs && b.edge in arcs && arcs[a.edge].from == index && arcs[b.edge].from != index
  }

  function StepTie(arcs: map<nat, Arc>, index: nat): (Hop, Hop) -> bool {
    (a: Hop, b: Hop) => OutgoingFirst(arcs, index, a, b)
  }

  /** The comparison `step` sorts by. */
  function StepOrder(nodes: map<nat, Node>, arcs: map<nat, Arc>): (Hop, Hop) -> bool {
    (a: Hop, b: Hop) => KeyAtMost(StepKey(nodes, arcs, a), StepKey(nodes, arcs, b))
  }

  /** Smaller id first, then the order in which parallel edges are preferred. */
  ghost predicate StepBefore(nodes: map<nat, Node>, arcs: map<nat, Arc>, index: nat, a: Hop, b: Hop) {
    && a.edge in arcs && b.edge in arcs && index in nodes && a.other in nodes && b.other in nodes
    && Live(nodes, arcs[a.edge]) && Live(nodes, arcs[b.edge])
    && (|| Less(nodes[a.other].id, nodes[b.other].id)
        || (nodes[a.other].id == nodes[b.other].id
            && HopBefore(nodes[index].id, ArcKey(nodes, arcs[a.edge]), ArcKey(nodes, arcs[b.edge]))))
  }

  /** The result of `step`: every allowed hop once, in the order of `StepBefore`. */
  ghost predicate IsStep(nodes: map<nat, Node>, arcs: map<nat, Arc>, q: Query, index: nat, steps: seq<Hop>) {
    && (forall h {:trigger HopAllowed(arcs, q, index, Flows(q.direction), h)} ::
          h in steps <==> HopAllowed(arcs, q, index, Flows(q.direction), h))
    && (forall i, j :: 0 <= i < j < |steps| ==> StepBefore(nodes, arcs, index, steps[i], steps[j]))
  }

  lemma StepIsAllowed(nodes: map<nat, Node>, arcs: map<nat, Arc>, q: Query, index: nat, steps: seq<Hop>, n: nat)
    requires IsStep(nodes, arcs, q, index, steps) && n < |steps|
    ensures HopAllowed(arcs, q, index, Flows(q.direction), steps[n])
  {
    assert steps[n] in steps;
  }

  /** Two parallel arcs in the same sense with one relation are one arc. */
  lemma ParallelArcsAreEqual(nodes: map<nat, Node>, arcs: map<nat, Arc>, ids: map<string, nat>, at: map<Key, nat>,
                             g: View, e: nat, f: nat)
    requires Represents(nodes, arcs, ids, at, g) && e in arcs && f in arcs
    requires arcs[e].from == arcs[f].from && arcs[e].to == arcs[f].to && arcs[e].relation == arcs[f].relation
    ensures e == f
  {
    assert ArcKey(nodes, arcs[e]) == ArcKey(nodes, arcs[f]);
  }

  /** Keys of two hops agree only for one outgoing and one incoming arc. */
  lemma TiedHops(nodes: map<nat, Node>, arcs: map<nat, Arc>, ids: map<string, nat>, at: map<Key, nat>, g: View,
                 index: nat, flow: Direction, a: Hop, b: Hop)
    requires Represents(nodes, arcs, ids, at, g) && flow != Both
    requires HopFlows(arcs, index, flow, a) && HopFlows(arcs, index, flow, b)
    requires StepKey(nodes, arcs, a) == StepKey(nodes, arcs, b)
    ensures a == b
  {
    assert Live(nodes, arcs[a.edge]) && Live(nodes, arcs[b.edge]);
    assert StepKey(nodes, arcs, a)[0] == StepKey(nodes, arcs, b)[0];
    assert StepKey(nodes, arcs, a)[1] == StepKey(nodes, arcs, b)[1];
    assert ids[nodes[a.other].id] == ids[nodes[b.other].id];
    ParallelArcsAreEqual(nodes, arcs, ids, at, g, a.edge, b.edge);
  }

  ghost predicate TiesOutgoingFirst(nodes: map<nat, Node>, arcs: map<nat, Arc>, index: nat, steps: seq<Hop>) {
    forall i, j :: 0 <= i < j < |steps| && StepKey(nodes, arcs, steps[i]) == StepKey(nodes, arcs, steps[j])
                   ==> OutgoingFirst(arcs, index, steps[i], steps[j])
  }

  /** `steps` are the hops of the flows `before`, and those of `flow` over the arcs `taken`. */
  ghost predicate Pushed(arcs: map<nat, Arc>, q: Query, index: nat, before: seq<Direction>, flow: Direction,
                         taken: seq<nat>, steps: seq<Hop>)
  {
    forall h :: h in steps <==> HopAllowed(arcs, q, index, before, h) || HopTaken(arcs, q, index, flow, taken, h)
  }

  predicate HopTaken(arcs: map<nat, Arc>, q: Query, index: nat, flow: Direction, taken: seq<nat>, h: Hop) {
    h.edge in taken && HopFlows(arcs, index, flow, h) && Selected(q, arcs[h.edge].relation)
  }

  function FarEnd(arc: Arc, flow: Direction): nat {
    if flow == Outgoing then arc.to else arc.from
  }

  function NearEnd(arc: Arc, flow: Direction): nat {
    if flow == Outgoing then arc.from else arc.to
  }

  lemma PushedGrows(arcs: map<nat, Arc>, q: Query, index: nat, before: seq<Direction>, flow: Direction,
                    taken: seq<nat>, e: nat, steps: seq<Hop>)
    requires Pushed(arcs, q, index, before, flow, taken, steps) && flow != Both
    requires e in arcs && NearEnd(arcs[e], flow) == index
    ensures Pushed(arcs, q, index, before, flow, taken + [e],
                   if Selected(q, arcs[e].relation) then steps + [Hop(FarEnd(arcs[e], flow), e)] else steps)
  {
    var hop := Hop(FarEnd(arcs[e], flow), e);
    forall h ensures HopTaken(arcs, q, index, flow, taken + [e], h) <==>
                     HopTaken(arcs, q, index, flow, taken, h) || (Selected(q, arcs[e].relation) && h == hop)
    {
    }
  }

  lemma PushedAll(arcs: map<nat, Arc>, q: Query, index: nat, before: seq<Direction>, flow: Direction,
                  taken: seq<nat>, steps: seq<Hop>)
    requires Pushed(arcs, q, index, before, flow, taken, steps) && flow != Both
    requires forall e :: e in taken <==> e in arcs && NearEnd(arcs[e], flow) == index
    ensures forall h :: h in steps <==> HopAllowed(arcs, q, index, before + [flow], h)
  {
    forall h ensures HopAllowed(arcs, q, index, before + [flow], h) <==>
                     HopAllowed(arcs, q, index, before, h) || HopTaken(arcs, q, index, flow, taken, h)
    {
      assert forall f :: f in before + [flow] <==> f in before || f == flow;
    }
  }

  /** Pushing the hop of a new edge of `flow` keeps ties in order. */
  lemma PushedHopTies(nodes: map<nat, Node>, arcs: map<nat, Arc>, ids: map<string, nat>, at: map<Key, nat>, g: View,
                      q: Query, index: nat, before: seq<Direction>, flow: Direction, taken: seq<nat>, steps: seq<Hop>,
                      h: Hop)
    requires Represents(nodes, arcs, ids, at, g) && index in nodes
    requires before == [] || (before == [Outgoing] && flow == Incoming)
    requires flow != Both && HopFlows(arcs, index, flow, h) && h.edge !in taken
    requires Pushed(arcs, q, index, before, flow, taken, steps) && TiesOutgoingFirst(nodes, arcs, index, steps)
    ensures TiesOutgoingFirst(nodes, arcs, index, steps + [h])
  {
    var all := steps + [h];
    forall i, j | 0 <= i < j < |all| && StepKey(nodes, arcs, all[i]) == StepKey(nodes, arcs, all[j])
      ensures OutgoingFirst(arcs, index, all[i], all[j])
    {
      if j == |steps| {
        assert all[i] in steps;
        if HopTaken(arcs, q, index, flow, taken, all[i]) {
          TiedHops(nodes, arcs, ids, at, g, index, flow, all[i], h);
        } else {
          NoLoop(nodes, arcs, ids, at, g, h.edge);
        }
      }
    }
  }

  /** One more arc of the flow. */
  lemma HopPushed(nodes: map<nat, Node>, arcs: map<nat, Arc>, ids: map<string, nat>, at: map<Key, nat>, g: View,
                  q: Query, index: nat, before: seq<Direction>, flow: Direction, taken: seq<nat>, e: nat,
                  steps: seq<Hop>)
    requires Represents(nodes, arcs, ids, at, g) && index in nodes
    requires before == [] || (before == [Outgoing] && flow == Incoming)
    requires flow != Both && e in arcs && NearEnd(arcs[e], flow) == index && e !in taken
    requires Pushed(arcs, q, index, before, flow, taken, steps) && TiesOutgoingFirst(nodes, arcs, index, steps)
    ensures var more := if Selected(q, arcs[e].relation) then steps + [Hop(FarEnd(arcs[e], flow), e)] else steps;
            Pushed(arcs, q, index, before, flow, taken + [e], more) && TiesOutgoingFirst(nodes, arcs, index, more)
  {
    PushedGrows(arcs, q, index, before, flow, taken, e, steps);
    PushedHopTies(nodes, arcs, ids, at, g, q, index, before, flow, taken, steps, Hop(FarEnd(arcs[e], flow), e));
  }

  lemma NoLoop(nodes: map<nat, Node>, arcs: map<nat, Arc>, ids: map<string, nat>, at: map<Key, nat>, g: View, e: nat)
    requires Represents(nodes, arcs, ids, at, g) && e in arcs
    ensures arcs[e].from != arcs[e].to
  {
    assert Live(nodes, arcs[e]);
    assert ProperKey(g, ArcKey(nodes, arcs[e]));
  }

  /** Collecting flow by flow and sorting stably by (id, relation) gives exactly `IsStep`. */
  lemma SortedStepsAreOrdered(nodes: map<nat, Node>, arcs: map<nat, Arc>, ids: map<string, nat>, at: map<Key, nat>,
                              g: View, q: Query, index: nat, steps: seq<Hop>)
    requires Represents(nodes, arcs, ids, at, g) && index in nodes
    requires forall h :: h in steps <==> HopAllowed(arcs, q, index, Flows(q.direction), h)
    requires TiesOutgoingFirst(nodes, arcs, index, steps)
    ensures IsStep(nodes, arcs, q, index, SortBy(steps, StepOrder(nodes, arcs)))
  {
    SortedSteps(nodes, arcs, index, steps);
    var r := SortBy(steps, StepOrder(nodes, arcs));
    MembersAgree(r, steps);
    forall i, j | 0 <= i < j < |r| ensures StepBefore(nodes, arcs, index, r[i], r[j]) {
      assert r[i] in r && r[j] in r;
      OrderedHopsStep(nodes, arcs, ids, at, g, q, index, r[i], r[j]);
    }
  }

  lemma SortedSteps(nodes: map<nat, Node>, arcs: map<nat, Arc>, index: nat, steps: seq<Hop>)
    requires TiesOutgoingFirst(nodes, arcs, index, steps)
    ensures Sorted(SortBy(steps, StepOrder(nodes, arcs)), StepOrder(nodes, arcs), StepTie(arcs, index))
  {
    var le, tie := StepOrder(nodes, arcs), StepTie(arcs, index);
    forall a, b ensures le(a, b) || le(b, a) {
      KeysAreTotal(StepKey(nodes, arcs, a), StepKey(nodes, arcs, b));
    }
    forall a, b, c | le(a, b) && le(b, c) ensures le(a, c) {
      KeysAreTransitive(StepKey(nodes, arcs, a), StepKey(nodes, arcs, b), StepKey(nodes, arcs, c));
    }
    forall i, j | 0 <= i < j < |steps| && le(steps[i], steps[j]) && le(steps[j], steps[i])
      ensures tie(steps[i], steps[j])
    {
      EqualKeys(StepKey(nodes, arcs, steps[i]), StepKey(nodes, arcs, steps[j]));
    }
    SortBySorts(steps, le, tie);
  }

  lemma OrderedHopsStep(nodes: map<nat, Node>, arcs: map<nat, Arc>, ids: map<string, nat>, at: map<Key, nat>, g: View,
                        q: Query, index: nat, a: Hop, b: Hop)
    requires Represents(nodes, arcs, ids, at, g) && index in nodes
    requires HopAllowed(arcs, q, index, Flows(q.direction), a) && HopAllowed(arcs, q, index, Flows(q.direction), b)
    requires KeyAtMost(StepKey(nodes, arcs, a), StepKey(nodes, arcs, b))
    requires KeyAtMost(StepKey(nodes, arcs, b), StepKey(nodes, arcs, a)) ==> OutgoingFirst(arcs, index, a, b)
    ensures StepBefore(nodes, arcs, index, a, b)
  {
    var x, y := StepKey(nodes, arcs, a), StepKey(nodes, arcs, b);
    assert Live(nodes, arcs[a.edge]) && Live(nodes, arcs[b.edge]);
    assert x[1..] == [x[1]] && y[1..] == [y[1]];
    if x[0] == y[0] && x[1] == y[1] {
      assert x == y;
      KeysAreTotal(x, y);
      assert nodes[arcs[a.edge].from].id == nodes[index].id;
      assert nodes[arcs[b.edge].from].id != nodes[index].id;
    } else if x[0] == y[0] {
      assert KeyAtMost(x[1..], y[1..]) || Less(x[0], y[0]);
      LessIsIrreflexive(x[0]);
    }
  }
}
