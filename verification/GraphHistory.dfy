/** Reading back what was written: an edge or a node is what the last operation about it made it. */
module GraphHistory {
  import opened Wrappers
  import opened Text
  import opened GraphModel

  /** The operation offers an edge for the key, white space at the ends of its names aside. */
  predicate Offers(op: Op, k: Key) {
    op.AddEdge? && Trim(op.edge.from) == k.from && Trim(op.edge.to) == k.to && Trim(op.edge.relation) == k.relation
  }

  /** The operation takes the edge of the key away, by itself or with one of its ends. */
  predicate Drops(op: Op, k: Key) {
    || op == RemoveEdge(k)
    || op == RemoveEdgesTouching(k.from) || op == RemoveEdgesTouching(k.to)
    || op == RemoveNode(k.from) || op == RemoveNode(k.to)
  }

  /** What an edge must be to be taken in. */
  predicate Acceptable(g: View, e: Edge) {
    && Trim(e.from) in g.kinds && Trim(e.to) in g.kinds && Trim(e.from) != Trim(e.to)
    && Trim(e.relation) != "" && e.weight != Some(NonFinite)
  }

  lemma StepLeavesEdge(g: View, op: Op, k: Key)
    requires !Offers(op, k) && !Drops(op, k)
    ensures k in Apply(g, op).edges <==> k in g.edges
    ensures k in g.edges ==> Apply(g, op).edges[k] == g.edges[k]
  {
  }

  /** What no operation is about stays as it is, there or not. */
  lemma {:induction false} EdgeStays(g: View, ops: seq<Op>, k: Key)
    requires forall op :: op in ops ==> !Offers(op, k) && !Drops(op, k)
    ensures k in Run(g, ops).edges <==> k in g.edges
    ensures k in g.edges ==> Run(g, ops).edges[k] == g.edges[k]
    decreases |ops|
  {
    if ops != [] {
      assert ops[0] in ops;
      StepLeavesEdge(g, ops[0], k);
      EdgeStays(Apply(g, ops[0]), ops[1..], k);
    }
  }

  /** An edge that is offered and acceptable is there afterwards, with its own weight and metadata, until an
    * operation is about it; any other offer changes nothing and is refused.
    */
  lemma OfferedEdgeIsKept(g: View, e: Edge, ops: seq<Op>)
    requires WellFormed(g)
    requires var k := Key(Trim(e.from), Trim(e.to), Trim(e.relation));
             forall op :: op in ops ==> !Offers(op, k) && !Drops(op, k)
    ensures var k, h := Key(Trim(e.from), Trim(e.to), Trim(e.relation)), Run(g, [AddEdge(e)] + ops);
            if Acceptable(g, e) then k in h.edges && h.edges[k] == Payload(e.weight, e.metadata)
            else h == Run(g, ops) && ReplyTo(g, AddEdge(e)).Failed?
  {
    var k := Key(Trim(e.from), Trim(e.to), Trim(e.relation));
    RunFrom(g, AddEdge(e), ops);
    NamesAreNotEmpty(g);
    if Acceptable(g, e) {
      assert EdgeFault(g, e) == None;
      EdgeStays(WithEdge(g, e), ops, k);
    }
  }

  lemma NamesAreNotEmpty(g: View)
    requires WellFormed(g)
    ensures "" !in g.kinds
  {
    assert !Proper("");
  }

  lemma RunFrom(g: View, op: Op, ops: seq<Op>)
    ensures Run(g, [op] + ops) == Run(Apply(g, op), ops)
  {
    assert ([op] + ops)[1..] == ops;
  }

  /** An edge that is taken away stays away until it is offered again. */
  lemma DroppedEdgeIsGone(g: View, op: Op, ops: seq<Op>, k: Key)
    requires WellFormed(g) && Drops(op, k) && forall o :: o in ops ==> !Offers(o, k)
    ensures k !in Run(g, [op] + ops).edges
  {
    RunFrom(g, op, ops);
    if k in g.edges {
      assert ProperKey(g, k);
    }
    EdgeComesByOffer(Apply(g, op), ops, k);
  }

  /** No edge comes but by an offer. */
  lemma {:induction false} EdgeComesByOffer(g: View, ops: seq<Op>, k: Key)
    requires k !in g.edges && forall op :: op in ops ==> !Offers(op, k)
    ensures k !in Run(g, ops).edges
    decreases |ops|
  {
    if ops != [] {
      assert ops[0] in ops;
      EdgeComesByOffer(Apply(g, ops[0]), ops[1..], k);
    }
  }

  predicate AboutNode(op: Op, id: string) {
    (op.AddNode? && Trim(op.node.id) == id) || op == RemoveNode(id)
  }

  lemma {:induction false} NodeStays(g: View, ops: seq<Op>, id: string)
    requires forall op :: op in ops ==> !AboutNode(op, id)
    ensures id in Run(g, ops).kinds <==> id in g.kinds
    ensures id in g.kinds ==> Run(g, ops).kinds[id] == g.kinds[id]
    decreases |ops|
  {
    if ops != [] {
      assert ops[0] in ops;
      NodeStays(Apply(g, ops[0]), ops[1..], id);
    }
  }

  /** A node has the kind it was last added with, and is gone once removed. */
  lemma NodeIsAsLastSet(g: View, node: Node, ops: seq<Op>)
    requires Trim(node.id) != "" && forall op :: op in ops ==> !AboutNode(op, Trim(node.id))
    ensures var id, h := Trim(node.id), Run(g, [AddNode(node)] + ops); id in h.kinds && h.kinds[id] == node.kind
    ensures Trim(node.id) !in Run(g, [RemoveNode(Trim(node.id))] + ops).kinds
  {
    RunFrom(g, AddNode(node), ops);
    RunFrom(g, RemoveNode(Trim(node.id)), ops);
    NodeStays(Apply(g, AddNode(node)), ops, Trim(node.id));
    NodeStays(Apply(g, RemoveNode(Trim(node.id))), ops, Trim(node.id));
  }
}
