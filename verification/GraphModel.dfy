/**
 * The relation graph as a value: node kinds by id, and edge payloads by (from, to, relation).
 * Every mutation of the store is specified here, and its laws over whole runs are proved here.
 */
module GraphModel {
  import opened Wrappers
  import opened Text
  import opened Ordering

  datatype NodeKind = Document | Chunk

  datatype Node = Node(id: string, kind: NodeKind)

  /** An `f32` weight: rounding is abstracted, finiteness is not. */
  datatype Weight = Finite(value: real) | NonFinite

  /** `metadata` is JSON text, never inspected. */
  datatype Edge = Edge(from: string, to: string, relation: string, weight: Option<Weight>, metadata: string)

  datatype Key = Key(from: string, to: string, relation: string)

  datatype Payload = Payload(weight: Option<Weight>, metadata: string)

  datatype View = View(kinds: map<string, NodeKind>, edges: map<Key, Payload>)

  datatype Reason =
    | EmptyNodeId
    | EmptySource
    | EmptyTarget
    | EmptyRelation
    | SelfLoop
    | WeightNotFinite
    | UnknownNode(id: string)
    | TooManyHops
    | BadBudget

  datatype Error = InvalidInput(reason: Reason) | LimitExceeded | Cancelled

  const EMPTY: View := View(map[], map[])

  /** What `validated` lets through: trimmed and not empty. */
  predicate Proper(s: string) {
    s != "" && Trim(s) == s
  }

  predicate FinitePayload(p: Payload) {
    p.weight != Some(NonFinite)
  }

  predicate ProperKey(g: View, k: Key) {
    k.from in g.kinds && k.to in g.kinds && k.from != k.to
  }

  /** No dangling edge, no self loop, only trimmed non-empty names and finite weights. */
  ghost predicate WellFormed(g: View) {
    && (forall id {:trigger Proper(id)} :: id in g.kinds ==> Proper(id))
    && (forall k {:trigger Proper(k.relation)} :: k in g.edges ==> Proper(k.relation))
    && (forall k :: k in g.edges ==> ProperKey(g, k) && FinitePayload(g.edges[k]))
  }

  function TrimmedKey(e: Edge): Key {
    Key(Trim(e.from), Trim(e.to), Trim(e.relation))
  }

  /** The first check of `validated_edge` that fails, in its order. */
  function EdgeFault(g: View, e: Edge): Option<Reason> {
    var k := TrimmedKey(e);
    if k.from == "" then Some(EmptySource)
    else if k.to == "" then Some(EmptyTarget)
    else if k.relation == "" then Some(EmptyRelation)
    else if k.from == k.to then Some(SelfLoop)
    else if e.weight == Some(NonFinite) then Some(WeightNotFinite)
    else if k.from !in g.kinds then Some(UnknownNode(k.from))
    else if k.to !in g.kinds then Some(UnknownNode(k.to))
    else None
  }

  function NodeFault(node: Node): Option<Reason> {
    if Trim(node.id) == "" then Some(EmptyNodeId) else None
  }

  // ---- the mutations ----

  function WithNode(g: View, node: Node): View {
    if NodeFault(node) != None then g else g.(kinds := g.kinds[Trim(node.id) := node.kind])
  }

  function WithEdge(g: View, e: Edge): View {
    if EdgeFault(g, e) != None then g
    else g.(edges := g.edges[TrimmedKey(e) := Payload(e.weight, e.metadata)])
  }

  function WithoutEdge(g: View, k: Key): View {
    g.(edges := g.edges - {k})
  }

  predicate Touches(k: Key, id: string) {
    k.from == id || k.to == id
  }

  function WithoutEdgesAt(g: View, id: string): View {
    if id !in g.kinds then g else g.(edges := map k | k in g.edges && !Touches(k, id) :: g.edges[k])
  }

  function WithoutNode(g: View, id: string): View {
    if id !in g.kinds then g else View(g.kinds - {id}, WithoutEdgesAt(g, id).edges)
  }

  function EdgesAt(g: View, id: string): set<Key> {
    set k | k in g.edges && Touches(k, id)
  }

  function WithNodes(g: View, nodes: seq<Node>): View {
    if nodes == [] then g else WithNode(WithNodes(g, nodes[..|nodes| - 1]), nodes[|nodes| - 1])
  }

  function WithEdges(g: View, edges: seq<Edge>): View {
    if edges == [] then g else WithEdge(WithEdges(g, edges[..|edges| - 1]), edges[|edges| - 1])
  }

  function WithoutNodes(g: View, ids: seq<string>): View {
    if ids == [] then g else WithoutNode(WithoutNodes(g, ids[..|ids| - 1]), ids[|ids| - 1])
  }

  /** The first failure of an up-front validation pass. */
  function FirstNodeFault(nodes: seq<Node>): Option<Reason> {
    if nodes == [] then None
    else if FirstNodeFault(nodes[..|nodes| - 1]) != None then FirstNodeFault(nodes[..|nodes| - 1])
    else NodeFault(nodes[|nodes| - 1])
  }

  function FirstEdgeFault(g: View, edges: seq<Edge>): Option<Reason> {
    if edges == [] then None
    else if FirstEdgeFault(g, edges[..|edges| - 1]) != None then FirstEdgeFault(g, edges[..|edges| - 1])
    else EdgeFault(g, edges[|edges| - 1])
  }

  /** The first fault of a prefix is the first fault of the whole. */
  lemma {:induction false} FaultsPersist(nodes: seq<Node>, i: nat)
    requires i < |nodes| && FirstNodeFault(nodes[..i]) == None && NodeFault(nodes[i]) != None
    ensures FirstNodeFault(nodes) == NodeFault(nodes[i])
    decreases |nodes|
  {
    if i < |nodes| - 1 {
      assert nodes[..|nodes| - 1][..i] == nodes[..i];
      FaultsPersist(nodes[..|nodes| - 1], i);
    }
  }

  lemma {:induction false} EdgeFaultsPersist(g: View, edges: seq<Edge>, i: nat)
    requires i < |edges| && FirstEdgeFault(g, edges[..i]) == None && EdgeFault(g, edges[i]) != None
    ensures FirstEdgeFault(g, edges) == EdgeFault(g, edges[i])
    decreases |edges|
  {
    if i < |edges| - 1 {
      assert edges[..|edges| - 1][..i] == edges[..i];
      EdgeFaultsPersist(g, edges[..|edges| - 1], i);
    }
  }

  lemma {:induction false} NoEdgeFaults(g: View, edges: seq<Edge>)
    requires FirstEdgeFault(g, edges) == None
    ensures forall e :: e in edges ==> EdgeFault(g, e) == None
  {
    if edges != [] {
      NoEdgeFaults(g, edges[..|edges| - 1]);
      assert edges == edges[..|edges| - 1] + [edges[|edges| - 1]];
    }
  }

  /** Adding edges never invalidates a later edge: validation only looks at node ids. */
  lemma {:induction false} WithEdgesKeepsKinds(g: View, edges: seq<Edge>)
    ensures WithEdges(g, edges).kinds == g.kinds
  {
    if edges != [] {
      WithEdgesKeepsKinds(g, edges[..|edges| - 1]);
    }
  }

  // ---- runs ----

  datatype Op =
    | AddNode(node: Node)
    | AddEdge(edge: Edge)
    | RemoveEdge(key: Key)
    | RemoveEdgesTouching(id: string)
    | RemoveNode(id: string)

  function Apply(g: View, op: Op): View {
    match op
    case AddNode(node) => WithNode(g, node)
    case AddEdge(edge) => WithEdge(g, edge)
    case RemoveEdge(key) => WithoutEdge(g, key)
    case RemoveEdgesTouching(id) => WithoutEdgesAt(g, id)
    case RemoveNode(id) => WithoutNode(g, id)
  }

  /** What a call reports: an error, a flag, a count, or that the id is missing. */
  datatype Reply = Failed(reason: Reason) | Flag(changed: bool) | Count(removed: nat) | Missing

  function NodeReply(g: View, node: Node): Reply {
    if NodeFault(node) != None then Failed(NodeFault(node).value) else Flag(Trim(node.id) !in g.kinds)
  }

  function EdgeReply(g: View, edge: Edge): Reply {
    if EdgeFault(g, edge) != None then Failed(EdgeFault(g, edge).value) else Flag(TrimmedKey(edge) !in g.edges)
  }

  function RemovalReply(g: View, id: string): Reply {
    if id in g.kinds then Count(|EdgesAt(g, id)|) else Missing
  }

  function ReplyTo(g: View, op: Op): Reply {
    match op
    case AddNode(node) => NodeReply(g, node)
    case AddEdge(edge) => EdgeReply(g, edge)
    case RemoveEdge(key) => Flag(key in g.edges)
    case RemoveEdgesTouching(id) => RemovalReply(g, id)
    case RemoveNode(id) => RemovalReply(g, id)
  }

  function Run(g: View, ops: seq<Op>): View
    decreases |ops|
  {
    if ops == [] then g else Run(Apply(g, ops[0]), ops[1..])
  }

  /** The change in the number of nodes a reply reports. */
  function NodeDelta(op: Op, reply: Reply): int {
    if op.AddNode? && reply == Flag(true) then 1
    else if op.RemoveNode? && reply.Count? then -1
    else 0
  }

  /** The change in the number of edges a reply reports. */
  function EdgeDelta(op: Op, reply: Reply): int {
    if op.AddEdge? && reply == Flag(true) then 1
    else if op.RemoveEdge? && reply == Flag(true) then -1
    else if reply.Count? then 0 - reply.removed
    else 0
  }

  function NodeBalance(g: View, ops: seq<Op>): int
    decreases |ops|
  {
    if ops == [] then 0
    else NodeDelta(ops[0], ReplyTo(g, ops[0])) + NodeBalance(Apply(g, ops[0]), ops[1..])
  }

  function EdgeBalance(g: View, ops: seq<Op>): int
    decreases |ops|
  {
    if ops == [] then 0
    else EdgeDelta(ops[0], ReplyTo(g, ops[0])) + EdgeBalance(Apply(g, ops[0]), ops[1..])
  }

  lemma WithNodeKeeps(g: View, node: Node)
    requires WellFormed(g)
    ensures WellFormed(WithNode(g, node))
  {
    TrimIsIdempotent(node.id);
  }

  lemma WithEdgeKeeps(g: View, edge: Edge)
    requires WellFormed(g)
    ensures WellFormed(WithEdge(g, edge))
  {
    TrimIsIdempotent(edge.relation);
  }

  lemma WithoutNodeKeeps(g: View, id: string)
    requires WellFormed(g)
    ensures WellFormed(WithoutNode(g, id)) && WellFormed(WithoutEdgesAt(g, id))
  {
  }

  lemma ApplyKeepsWellFormed(g: View, op: Op)
    requires WellFormed(g)
    ensures WellFormed(Apply(g, op))
  {
    match op
    case AddNode(node) => WithNodeKeeps(g, node);
    case AddEdge(edge) => WithEdgeKeeps(g, edge);
    case _ =>
  }

  lemma WithoutEdgesAtCounts(g: View, id: string)
    requires id in g.kinds
    ensures |g.edges| == |WithoutEdgesAt(g, id).edges| + |EdgesAt(g, id)|
  {
    var kept := WithoutEdgesAt(g, id).edges;
    assert g.edges.Keys == kept.Keys + EdgesAt(g, id);
    assert kept.Keys !! EdgesAt(g, id);
    assert |g.edges.Keys| == |kept.Keys| + |EdgesAt(g, id)|;
  }

  lemma UpdateCounts<K, V>(m: map<K, V>, k: K, v: V)
    ensures |m[k := v]| == |m| + (if k in m then 0 else 1)
    ensures |m - {k}| == |m| - (if k in m then 1 else 0)
  {
    assert m[k := v].Keys == m.Keys + {k};
    assert (m - {k}).Keys == m.Keys - {k};
    assert |m.Keys| == |m| && |m[k := v].Keys| == |m[k := v]| && |(m - {k}).Keys| == |m - {k}|;
  }

  lemma WithNodeCounts(g: View, node: Node)
    ensures |WithNode(g, node).kinds| == |g.kinds| + (if NodeReply(g, node) == Flag(true) then 1 else 0)
  {
    UpdateCounts(g.kinds, Trim(node.id), node.kind);
  }

  lemma WithoutNodeCounts(g: View, id: string)
    ensures |WithoutNode(g, id).kinds| == |g.kinds| - (if RemovalReply(g, id).Count? then 1 else 0)
  {
    UpdateCounts(g.kinds, id, Document);
  }

  lemma NodeReplyIsSizeChange(g: View, op: Op)
    ensures |Apply(g, op).kinds| == |g.kinds| + NodeDelta(op, ReplyTo(g, op))
  {
    match op
    case AddNode(node) => WithNodeCounts(g, node);
    case RemoveNode(id) => WithoutNodeCounts(g, id);
    case _ => assert Apply(g, op).kinds == g.kinds;
  }

  lemma WithEdgeCounts(g: View, e: Edge)
    ensures |WithEdge(g, e).edges| == |g.edges| + (if EdgeReply(g, e) == Flag(true) then 1 else 0)
  {
    UpdateCounts(g.edges, TrimmedKey(e), Payload(e.weight, e.metadata));
  }

  lemma WithoutEdgeCounts(g: View, k: Key)
    ensures |WithoutEdge(g, k).edges| == |g.edges| - (if k in g.edges then 1 else 0)
  {
    UpdateCounts(g.edges, k, Payload(None, ""));
  }

  lemma DetachedEdgeCounts(g: View, id: string)
    ensures WithoutNode(g, id).edges == WithoutEdgesAt(g, id).edges
    ensures RemovalReply(g, id).Count? ==> |WithoutEdgesAt(g, id).edges| == |g.edges| - RemovalReply(g, id).removed
    ensures RemovalReply(g, id) == Missing ==> WithoutEdgesAt(g, id).edges == g.edges
  {
    if id in g.kinds {
      WithoutEdgesAtCounts(g, id);
    }
  }

  lemma EdgeReplyIsSizeChange(g: View, op: Op)
    ensures |Apply(g, op).edges| == |g.edges| + EdgeDelta(op, ReplyTo(g, op))
  {
    match op
    case AddNode(node) => assert WithNode(g, node).edges == g.edges;
    case AddEdge(edge) => WithEdgeCounts(g, edge);
    case RemoveEdge(key) => WithoutEdgeCounts(g, key);
    case RemoveEdgesTouching(id) => DetachedEdgeCounts(g, id);
    case RemoveNode(id) => DetachedEdgeCounts(g, id);
  }

  /** One step of the loop in `add_nodes`. */
  lemma NodesStep(g: View, nodes: seq<Node>, i: nat)
    requires i < |nodes| && NodeFault(nodes[i]) == None
    ensures var before, after := WithNodes(g, nodes[..i]), WithNodes(g, nodes[..i + 1]);
            var reply := NodeReply(before, nodes[i]);
            && after == WithNode(before, nodes[i]) && reply.Flag?
            && |after.kinds| == |before.kinds| + (if reply.changed then 1 else 0)
  {
    assert nodes[..i + 1][..i] == nodes[..i];
    NodeReplyIsSizeChange(WithNodes(g, nodes[..i]), AddNode(nodes[i]));
  }

  /** One step of the loop in `add_edges`: what was valid before the batch is valid in the middle of it. */
  lemma EdgesStep(g: View, edges: seq<Edge>, i: nat)
    requires i < |edges| && EdgeFault(g, edges[i]) == None
    ensures var before, after := WithEdges(g, edges[..i]), WithEdges(g, edges[..i + 1]);
            var reply := EdgeReply(before, edges[i]);
            && after == WithEdge(before, edges[i]) && reply.Flag?
            && |after.edges| == |before.edges| + (if reply.changed then 1 else 0)
  {
    assert edges[..i + 1][..i] == edges[..i];
    WithEdgesKeepsKinds(g, edges[..i]);
    EdgeReplyIsSizeChange(WithEdges(g, edges[..i]), AddEdge(edges[i]));
  }

  /** One step of the loop in `remove_nodes`. */
  lemma RemovalStep(g: View, ids: seq<string>, i: nat)
    requires i < |ids|
    ensures var before, after := WithoutNodes(g, ids[..i]), WithoutNodes(g, ids[..i + 1]);
            var reply := RemovalReply(before, ids[i]);
            && after == WithoutNode(before, ids[i])
            && |after.kinds| == |before.kinds| - (if reply.Count? then 1 else 0)
  {
    assert ids[..i + 1][..i] == ids[..i];
    NodeReplyIsSizeChange(WithoutNodes(g, ids[..i]), RemoveNode(ids[i]));
  }

  /** Conservation over every run: the replies add up to the final sizes, and the graph stays well formed. */
  lemma {:induction false} RunsConserve(g: View, ops: seq<Op>)
    requires WellFormed(g)
    decreases |ops|
    ensures WellFormed(Run(g, ops))
    ensures |Run(g, ops).kinds| == |g.kinds| + NodeBalance(g, ops)
    ensures |Run(g, ops).edges| == |g.edges| + EdgeBalance(g, ops)
  {
    if ops != [] {
      var next := Apply(g, ops[0]);
      ApplyKeepsWellFormed(g, ops[0]);
      NodeReplyIsSizeChange(g, ops[0]);
      EdgeReplyIsSizeChange(g, ops[0]);
      RunsConserve(next, ops[1..]);
    }
  }

  /** Removing a node that was just added restores the graph, whatever it was. */
  lemma RemoveNodeUndoesAdd(g: View, node: Node)
    requires WellFormed(g) && ReplyTo(g, AddNode(node)) == Flag(true)
    ensures Apply(Apply(g, AddNode(node)), RemoveNode(Trim(node.id))) == g
  {
    FreshNodeIsIsolated(g, Trim(node.id), node.kind);
  }

  lemma FreshNodeIsIsolated(g: View, id: string, kind: NodeKind)
    requires WellFormed(g) && id !in g.kinds
    ensures WithoutNode(g.(kinds := g.kinds[id := kind]), id) == g
  {
    assert g.kinds[id := kind] - {id} == g.kinds;
    assert forall k :: k in g.edges ==> !Touches(k, id);
    assert WithoutEdgesAt(g.(kinds := g.kinds[id := kind]), id).edges == g.edges;
  }

  /** Removing an edge that was just added restores the graph, whatever it was. */
  lemma RemoveEdgeUndoesAdd(g: View, edge: Edge)
    requires ReplyTo(g, AddEdge(edge)) == Flag(true)
    ensures Apply(Apply(g, AddEdge(edge)), RemoveEdge(TrimmedKey(edge))) == g
  {
    assert Apply(Apply(g, AddEdge(edge)), RemoveEdge(TrimmedKey(edge))).edges == g.edges;
  }

  // ---- listing and hydrating ----

  function EdgeOf(g: View, k: Key): Edge
    requires k in g.edges
  {
    Edge(k.from, k.to, k.relation, g.edges[k].weight, g.edges[k].metadata)
  }

  predicate NodeBefore(a: Node, b: Node) {
    Less(a.id, b.id)
  }

  predicate KeyBefore(a: Key, b: Key) {
    || Less(a.from, b.from)
    || (a.from == b.from && (Less(a.to, b.to) || (a.to == b.to && Less(a.relation, b.relation))))
  }

  function KeyOf(e: Edge): Key {
    Key(e.from, e.to, e.relation)
  }

  predicate EdgeBefore(a: Edge, b: Edge) {
    KeyBefore(KeyOf(a), KeyOf(b))
  }

  /** `nodes` lists every node once, by id. */
  ghost predicate ListsNodes(g: View, nodes: seq<Node>) {
    && Strictly(nodes, NodeBefore)
    && forall n: Node :: n in nodes <==> n.id in g.kinds && g.kinds[n.id] == n.kind
  }

  /** `edges` lists every edge whose key is in `keys` once, by key. */
  ghost predicate ListsEdges(g: View, keys: set<Key>, edges: seq<Edge>) {
    && Strictly(edges, EdgeBefore)
    && forall e: Edge :: e in edges <==> KeyOf(e) in keys && KeyOf(e) in g.edges && e == EdgeOf(g, KeyOf(e))
  }

  lemma {:induction false} WithNodesAdds(g: View, nodes: seq<Node>)
    requires forall n :: n in nodes ==> Proper(n.id)
    requires forall n, m :: n in nodes && m in nodes && n.id == m.id ==> n == m
    ensures var r := WithNodes(g, nodes);
            && r.edges == g.edges
            && (forall n :: n in nodes ==> n.id in r.kinds && r.kinds[n.id] == n.kind)
            && (forall id :: id in r.kinds ==> (id in g.kinds && g.kinds[id] == r.kinds[id])
                                               || Node(id, r.kinds[id]) in nodes)
  {
    if nodes != [] {
      var front, last := nodes[..|nodes| - 1], nodes[|nodes| - 1];
      assert nodes == front + [last];
      WithNodesAdds(g, front);
      assert last in nodes;
      assert NodeFault(last) == None;
    }
  }

  lemma {:induction false} WithEdgesAdds(g: View, edges: seq<Edge>)
    requires forall e :: e in edges ==> Proper(e.from) && Proper(e.to) && Proper(e.relation)
                                        && e.from != e.to && e.from in g.kinds && e.to in g.kinds
                                        && e.weight != Some(NonFinite)
    requires forall e, f :: e in edges && f in edges && KeyOf(e) == KeyOf(f) ==> e == f
    ensures var r := WithEdges(g, edges);
            && r.kinds == g.kinds
            && (forall e :: e in edges ==> KeyOf(e) in r.edges && r.edges[KeyOf(e)] == Payload(e.weight, e.metadata))
            && (forall k :: k in r.edges ==> (k in g.edges && g.edges[k] == r.edges[k]) || EdgeOf(r, k) in edges)
  {
    if edges != [] {
      var front, last := edges[..|edges| - 1], edges[|edges| - 1];
      assert edges == front + [last];
      WithEdgesAdds(g, front);
      assert last in edges;
      assert TrimmedKey(last) == KeyOf(last);
      assert EdgeFault(WithEdges(g, front), last) == None;
    }
  }

  lemma NodesHydrate(g: View, nodes: seq<Node>)
    requires WellFormed(g) && ListsNodes(g, nodes)
    ensures WithNodes(EMPTY, nodes) == View(g.kinds, map[])
  {
    WithNodesAdds(EMPTY, nodes);
    var h := WithNodes(EMPTY, nodes);
    forall id | id in g.kinds ensures id in h.kinds && h.kinds[id] == g.kinds[id] {
      assert Node(id, g.kinds[id]) in nodes;
    }
    assert h.kinds == g.kinds;
  }

  lemma EdgesHydrate(g: View, edges: seq<Edge>)
    requires WellFormed(g) && ListsEdges(g, g.edges.Keys, edges)
    ensures WithEdges(View(g.kinds, map[]), edges) == g
  {
    var h := View(g.kinds, map[]);
    WithEdgesAdds(h, edges);
    var r := WithEdges(h, edges);
    forall k | k in g.edges ensures k in r.edges && r.edges[k] == g.edges[k] {
      assert EdgeOf(g, k) in edges && KeyOf(EdgeOf(g, k)) == k;
    }
    forall k | k in r.edges ensures k in g.edges {
      assert EdgeOf(r, k) in edges && KeyOf(EdgeOf(r, k)) == k;
    }
    assert r.edges == g.edges;
  }

  /** A listing hydrates back to the graph it was taken from. */
  lemma HydrateInvertsListing(g: View, nodes: seq<Node>, edges: seq<Edge>)
    requires WellFormed(g) && ListsNodes(g, nodes) && ListsEdges(g, g.edges.Keys, edges)
    ensures WithEdges(WithNodes(EMPTY, nodes), edges) == g
  {
    NodesHydrate(g, nodes);
    EdgesHydrate(g, edges);
  }
}
