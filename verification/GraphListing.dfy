/** The comparators that listings are sorted by, and that they leave no choice of order. */
module GraphListing {
  import opened Ordering
  import opened GraphModel
  import opened GraphBalls

  function NodeOrder(): (Node, Node) -> bool {
    (a: Node, b: Node) => AtMost(a.id, b.id)
  }

  function EdgeOrder(): (Edge, Edge) -> bool {
    (a: Edge, b: Edge) => KeyAtMost([a.from, a.to, a.relation], [b.from, b.to, b.relation])
  }

  function NearerOrder(): (SubgraphNode, SubgraphNode) -> bool {
    (a: SubgraphNode, b: SubgraphNode) => a.hops < b.hops || (a.hops == b.hops && AtMost(a.node.id, b.node.id))
  }

  function NoTie<T>(): (T, T) -> bool {
    (a: T, b: T) => false
  }

  lemma AtMostIsTransitive(a: string, b: string, c: string)
    requires AtMost(a, b) && AtMost(b, c)
    ensures AtMost(a, c)
  {
    if a != b && b != c {
      LessIsTransitive(a, b, c);
    }
  }

  lemma AtMostBothWays(a: string, b: string)
    requires AtMost(a, b) && AtMost(b, a)
    ensures a == b
  {
    if a != b {
      LessIsStrict(a, b);
    }
  }

  lemma NodeOrderIsTotal()
    ensures Total(NodeOrder()) && Transitive(NodeOrder())
  {
    var le := NodeOrder();
    forall a, b ensures le(a, b) || le(b, a) { LessIsTotal(a.id, b.id); }
    forall a, b, c | le(a, b) && le(b, c) ensures le(a, c) { AtMostIsTransitive(a.id, b.id, c.id); }
  }

  lemma NodesDoNotTie(s: seq<Node>)
    requires forall i, j :: 0 <= i < j < |s| ==> s[i].id != s[j].id
    ensures TiesInOrder(s, NodeOrder(), NoTie())
  {
    var le := NodeOrder();
    forall i, j | 0 <= i < j < |s| && le(s[i], s[j]) && le(s[j], s[i]) ensures false {
      AtMostBothWays(s[i].id, s[j].id);
    }
  }

  lemma NodesSort(s: seq<Node>)
    requires forall i, j :: 0 <= i < j < |s| ==> s[i].id != s[j].id
    ensures Strictly(SortBy(s, NodeOrder()), NodeBefore)
    ensures forall n :: n in SortBy(s, NodeOrder()) <==> n in s
  {
    NodeOrderIsTotal();
    NodesDoNotTie(s);
    SortBySorts(s, NodeOrder(), NoTie());
    MembersAgree(SortBy(s, NodeOrder()), s);
  }

  lemma NearerOrderIsTotal()
    ensures Total(NearerOrder()) && Transitive(NearerOrder())
  {
    var le := NearerOrder();
    forall a, b ensures le(a, b) || le(b, a) { LessIsTotal(a.node.id, b.node.id); }
    forall a, b, c | le(a, b) && le(b, c) ensures le(a, c) {
      if a.hops == b.hops == c.hops { AtMostIsTransitive(a.node.id, b.node.id, c.node.id); }
    }
  }

  lemma NearestDoNotTie(s: seq<SubgraphNode>)
    requires forall i, j :: 0 <= i < j < |s| ==> s[i].node.id != s[j].node.id
    ensures TiesInOrder(s, NearerOrder(), NoTie())
  {
    var le := NearerOrder();
    forall i, j | 0 <= i < j < |s| && le(s[i], s[j]) && le(s[j], s[i]) ensures false {
      AtMostBothWays(s[i].node.id, s[j].node.id);
    }
  }

  lemma NearestSort(s: seq<SubgraphNode>)
    requires forall i, j :: 0 <= i < j < |s| ==> s[i].node.id != s[j].node.id
    ensures Strictly(SortBy(s, NearerOrder()), NearerBefore)
    ensures forall n :: n in SortBy(s, NearerOrder()) <==> n in s
  {
    NearerOrderIsTotal();
    NearestDoNotTie(s);
    SortBySorts(s, NearerOrder(), NoTie());
    MembersAgree(SortBy(s, NearerOrder()), s);
  }

  lemma EdgesSort(s: seq<Edge>)
    requires forall i, j :: 0 <= i < j < |s| ==> KeyOf(s[i]) != KeyOf(s[j])
    ensures Strictly(SortBy(s, EdgeOrder()), EdgeBefore)
    ensures forall e :: e in SortBy(s, EdgeOrder()) <==> e in s
  {
    var le := EdgeOrder();
    forall a, b ensures le(a, b) || le(b, a) {
      KeysAreTotal([a.from, a.to, a.relation], [b.from, b.to, b.relation]);
    }
    forall a, b, c | le(a, b) && le(b, c) ensures le(a, c) {
      KeysAreTransitive([a.from, a.to, a.relation], [b.from, b.to, b.relation], [c.from, c.to, c.relation]);
    }
    forall i, j | 0 <= i < j < |s| && le(s[i], s[j]) && le(s[j], s[i]) ensures false {
      TriplesAgree(s[i], s[j]);
    }
    SortBySorts(s, le, NoTie());
    var r := SortBy(s, le);
    MembersAgree(r, s);
    forall i, j | 0 <= i < j < |r| ensures EdgeBefore(r[i], r[j]) {
      assert !le(r[j], r[i]) && le(r[i], r[j]);
      TripleOrder(r[i], r[j]);
    }
  }

  lemma TriplesAgree(a: Edge, b: Edge)
    requires KeyAtMost([a.from, a.to, a.relation], [b.from, b.to, b.relation])
    requires KeyAtMost([b.from, b.to, b.relation], [a.from, a.to, a.relation])
    ensures KeyOf(a) == KeyOf(b)
  {
    var x, y := [a.from, a.to, a.relation], [b.from, b.to, b.relation];
    assert x[0] == a.from && x[1] == a.to && x[2] == a.relation;
    assert y[0] == b.from && y[1] == b.to && y[2] == b.relation;
    EqualKeys(x, y);
  }

  lemma TripleOrder(a: Edge, b: Edge)
    requires KeyAtMost([a.from, a.to, a.relation], [b.from, b.to, b.relation])
    requires !KeyAtMost([b.from, b.to, b.relation], [a.from, a.to, a.relation])
    ensures EdgeBefore(a, b)
  {
    var x, y := [a.from, a.to, a.relation], [b.from, b.to, b.relation];
    assert x[1..] == [a.to, a.relation] && y[1..] == [b.to, b.relation];
    assert x[1..][1..] == [a.relation] && y[1..][1..] == [b.relation];
    assert x[1..][1..][1..] == [] && y[1..][1..][1..] == [];
    if a.from == b.from {
      LessIsIrreflexive(a.from);
      assert KeyAtMost(x[1..], y[1..]) && !KeyAtMost(y[1..], x[1..]);
      if a.to == b.to {
        LessIsIrreflexive(a.to);
        assert KeyAtMost(x[1..][1..], y[1..][1..]) && !KeyAtMost(y[1..][1..], x[1..][1..]);
      }
    }
  }
}
