/**
 * The ids within a number of hops, layer by layer, and the answer to a k-hop query.
 */
module GraphBalls {
  import opened Wrappers
  import opened Ordering
  import opened GraphModel
  import opened GraphSearch

  const MAX_HOPS: nat := 8
  const DEFAULT_NODE_BUDGET: nat := 4096
  const MAX_NODE_BUDGET: nat := 65536

  ghost function Successors(g: View, q: Query, s: set<string>): set<string> {
    set b | b in g.kinds && exists a :: a in s && Adjacent(g, q, a, b)
  }

  ghost function Ball(g: View, q: Query, root: string, hops: nat): set<string> {
    if hops == 0 then {root}
    else Ball(g, q, root, hops - 1) + Successors(g, q, Ball(g, q, root, hops - 1))
  }

  /** The hop count a query reports: the first layer that reaches `x`. */
  ghost predicate AtDepth(g: View, q: Query, root: string, x: string, depth: nat) {
    x in Ball(g, q, root, depth) && (depth > 0 ==> x !in Ball(g, q, root, depth - 1))
  }

  lemma AdjacentStaysInside(g: View, q: Query, a: string, b: string)
    requires WellFormed(g) && Adjacent(g, q, a, b)
    ensures a in g.kinds && b in g.kinds
  {
  }

  lemma {:induction false} BallsGrow(g: View, q: Query, root: string, d: nat, e: nat)
    requires d <= e
    ensures Ball(g, q, root, d) <= Ball(g, q, root, e)
    decreases e
  {
    if d < e {
      BallsGrow(g, q, root, d, e - 1);
    }
  }

  lemma {:induction false} BallStaysInside(g: View, q: Query, root: string, d: nat)
    requires root in g.kinds
    ensures Ball(g, q, root, d) <= g.kinds.Keys && root in Ball(g, q, root, d)
  {
    if d > 0 {
      BallStaysInside(g, q, root, d - 1);
    }
  }

  /** Once a layer adds nothing, none after it does. */
  lemma BallSettles(g: View, q: Query, root: string, d: nat, e: nat)
    requires 0 < d <= e && Ball(g, q, root, d) == Ball(g, q, root, d - 1)
    ensures Ball(g, q, root, e) == Ball(g, q, root, d)
  {
    BallFrom(g, q, root, d, Ball(g, q, root, d));
    BallStays(g, q, root, d, e, Ball(g, q, root, d));
  }

  lemma {:induction false} BallStays(g: View, q: Query, root: string, d: nat, e: nat, ball: set<string>)
    requires d <= e && Ball(g, q, root, d) == ball && ball + Successors(g, q, ball) == ball
    ensures Ball(g, q, root, e) == ball
    decreases e
  {
    if d < e {
      BallStays(g, q, root, d, e - 1, ball);
      BallFrom(g, q, root, e, ball);
    }
  }

  lemma BallFrom(g: View, q: Query, root: string, d: nat, before: set<string>)
    requires d > 0 && Ball(g, q, root, d - 1) == before
    ensures Ball(g, q, root, d) == before + Successors(g, q, before)
  {
  }

  /** Only the newest layer can contribute to the next one. */
  lemma LayerStep(g: View, q: Query, root: string, d: nat, layer: set<string>)
    requires layer == Ball(g, q, root, d) - (if d == 0 then {} else Ball(g, q, root, d - 1))
    ensures Ball(g, q, root, d + 1) == Ball(g, q, root, d) + Successors(g, q, layer)
  {
    forall b | b in Successors(g, q, Ball(g, q, root, d))
      ensures b in Ball(g, q, root, d) + Successors(g, q, layer)
    {
      var a :| a in Ball(g, q, root, d) && Adjacent(g, q, a, b);
      if a !in layer {
        assert b in Successors(g, q, Ball(g, q, root, d - 1));
      }
    }
  }

  /** A ball is exactly the ids some walk of at most that many edges reaches. */
  lemma {:induction false} BallIsReach(g: View, q: Query, root: string, x: string, hops: nat)
    requires WellFormed(g) && root in g.kinds
    ensures x in Ball(g, q, root, hops) <==> exists w :: WalkTo(g, q, root, x, w) && |w| <= hops + 1
    decreases hops
  {
    if x in Ball(g, q, root, hops) {
      var w := WalkInBall(g, q, root, x, hops);
    }
    forall w | WalkTo(g, q, root, x, w) && |w| <= hops + 1 ensures x in Ball(g, q, root, hops) {
      WalkEndsInBall(g, q, root, x, w, hops);
    }
  }

  lemma Predecessor(g: View, q: Query, root: string, x: string, hops: nat) returns (a: string)
    requires hops > 0 && x in Ball(g, q, root, hops) && x !in Ball(g, q, root, hops - 1)
    ensures a in Ball(g, q, root, hops - 1) && Adjacent(g, q, a, x)
  {
    a :| a in Ball(g, q, root, hops - 1) && Adjacent(g, q, a, x);
  }

  lemma {:induction false} WalkInBall(g: View, q: Query, root: string, x: string, hops: nat) returns (w: seq<string>)
    requires root in g.kinds && x in Ball(g, q, root, hops)
    ensures WalkTo(g, q, root, x, w) && |w| <= hops + 1
    decreases hops
  {
    if hops == 0 {
      RootIsWalk(g, q, root);
      w := [root];
    } else if x in Ball(g, q, root, hops - 1) {
      w := WalkInBall(g, q, root, x, hops - 1);
    } else {
      var a := Predecessor(g, q, root, x, hops);
      var v := WalkInBall(g, q, root, a, hops - 1);
      w := LongerWalk(g, q, root, a, x, v);
    }
  }

  lemma RootIsWalk(g: View, q: Query, root: string)
    requires root in g.kinds
    ensures WalkTo(g, q, root, root, [root])
  {
  }

  lemma LongerWalk(g: View, q: Query, root: string, a: string, x: string, v: seq<string>) returns (w: seq<string>)
    requires WalkTo(g, q, root, a, v) && Adjacent(g, q, a, x)
    ensures WalkTo(g, q, root, x, w) && |w| == |v| + 1
  {
    WalkExtends(g, q, root, a, x, v);
    w := v + [x];
  }

  lemma {:induction false} WalkEndsInBall(g: View, q: Query, root: string, x: string, w: seq<string>, hops: nat)
    requires WellFormed(g) && WalkTo(g, q, root, x, w) && |w| <= hops + 1
    ensures x in Ball(g, q, root, hops)
    decreases hops
  {
    if |w| == 1 {
      BallsGrow(g, q, root, 0, hops);
    } else {
      WalkShortens(g, q, root, x, w);
      WalkEndsInBall(g, q, root, Last(Init(w)), Init(w), hops - 1);
      StepIsInBall(g, q, root, Last(Init(w)), x, hops - 1, hops);
    }
  }

  lemma StepIsInBall(g: View, q: Query, root: string, a: string, x: string, c: nat, d: nat)
    requires WellFormed(g) && a in Ball(g, q, root, c) && Adjacent(g, q, a, x) && d == c + 1
    ensures x in Ball(g, q, root, d)
  {
    AdjacentStaysInside(g, q, a, x);
    IsSuccessor(g, q, Ball(g, q, root, c), a, x);
  }

  lemma IsSuccessor(g: View, q: Query, s: set<string>, a: string, x: string)
    requires a in s && x in g.kinds && Adjacent(g, q, a, x)
    ensures x in Successors(g, q, s)
  {
  }

  /** A reported hop count is the number of edges on the shortest path. */
  lemma DepthIsShortestPathLength(g: View, q: Query, root: string, x: string, depth: nat, path: GraphPath)
    requires WellFormed(g) && root in g.kinds
    requires AtDepth(g, q, root, x, depth) && IsAnswer(g, q, root, x, path)
    ensures |path.edges| == depth
  {
    LeastFitsDepth(g, q, root, x, depth, Ids(path.nodes));
  }

  lemma LeastFitsDepth(g: View, q: Query, root: string, x: string, depth: nat, w: seq<string>)
    requires WellFormed(g) && root in g.kinds && AtDepth(g, q, root, x, depth) && Least(g, q, root, x, w)
    ensures |w| == depth + 1
  {
    var v := WalkInBall(g, q, root, x, depth);
    assert NotAfter(w, v);
    if |w| <= depth {
      WalkEndsInBall(g, q, root, x, w, depth - 1);
    }
  }

  // ---- the answer to a k-hop query ----

  datatype SubgraphNode = SubgraphNode(node: Node, hops: nat)

  datatype Subgraph = Subgraph(root: string, nodes: seq<SubgraphNode>, edges: seq<Edge>)

  predicate NearerBefore(a: SubgraphNode, b: SubgraphNode) {
    a.hops < b.hops || (a.hops == b.hops && Less(a.node.id, b.node.id))
  }

  /** The selected edges with both ends in `ball`. */
  ghost function InducedKeys(g: View, q: Query, ball: set<string>): set<Key> {
    set k | k in g.edges && Selected(q, k.relation) && k.from in ball && k.to in ball
  }

  ghost predicate IsSubgraph(g: View, q: Query, root: string, hops: nat, sub: Subgraph) {
    var ball := Ball(g, q, root, hops);
    && sub.root == root
    && Strictly(sub.nodes, NearerBefore)
    && (forall n: SubgraphNode :: n in sub.nodes <==>
                      && n.node.id in g.kinds && n.node.kind == g.kinds[n.node.id]
                      && n.hops <= hops && AtDepth(g, q, root, n.node.id, n.hops))
    && ListsEdges(g, InducedKeys(g, q, ball), sub.edges)
  }

  /** The error a k-hop query reports before it starts. */
  function KHopFault(g: View, root: string, hops: nat, budget: nat): Option<Reason> {
    if hops > MAX_HOPS then Some(TooManyHops)
    else if budget == 0 || budget > MAX_NODE_BUDGET then Some(BadBudget)
    else if root !in g.kinds then Some(UnknownNode(root))
    else None
  }

  lemma {:induction false} DepthExists(g: View, q: Query, root: string, x: string, hops: nat) returns (depth: nat)
    requires x in Ball(g, q, root, hops)
    ensures depth <= hops && AtDepth(g, q, root, x, depth)
    decreases hops
  {
    if hops > 0 && x in Ball(g, q, root, hops - 1) {
      depth := DepthExists(g, q, root, x, hops - 1);
    } else {
      depth := hops;
    }
  }

  /** The nodes of a k-hop answer are exactly the ball, each listed once. */
  lemma SubgraphNodesAreTheBall(g: View, q: Query, root: string, hops: nat, sub: Subgraph, id: string)
    requires root in g.kinds && IsSubgraph(g, q, root, hops, sub)
    ensures id in Ball(g, q, root, hops) <==> exists n :: n in sub.nodes && n.node.id == id
    ensures forall m, n :: m in sub.nodes && n in sub.nodes && m.node.id == n.node.id ==> m == n
  {
    if id in Ball(g, q, root, hops) {
      var depth := DepthExists(g, q, root, id, hops);
      BallStaysInside(g, q, root, hops);
      assert SubgraphNode(Node(id, g.kinds[id]), depth) in sub.nodes;
    }
    forall n | n in sub.nodes ensures n.node.id in Ball(g, q, root, hops) {
      BallsGrow(g, q, root, n.hops, hops);
    }
    forall m, n | m in sub.nodes && n in sub.nodes && m.node.id == n.node.id ensures m == n {
      DepthIsUnique(g, q, root, m.node.id, m.hops, n.hops);
    }
  }

  lemma DepthIsUnique(g: View, q: Query, root: string, x: string, d: nat, e: nat)
    requires AtDepth(g, q, root, x, d) && AtDepth(g, q, root, x, e)
    ensures d == e
  {
    if d < e {
      BallsGrow(g, q, root, d, e - 1);
    } else if e < d {
      BallsGrow(g, q, root, e, d - 1);
    }
  }

  lemma NearerIsAsymmetric()
    ensures Asymmetric(NearerBefore)
  {
    forall a, b | NearerBefore(a, b) ensures !NearerBefore(b, a) {
      if a.hops == b.hops {
        LessIsStrict(a.node.id, b.node.id);
      }
    }
  }

  lemma KeyOrderIsAsymmetric(a: Key, b: Key)
    requires KeyBefore(a, b)
    ensures !KeyBefore(b, a)
  {
    LessIsIrreflexive(a.from);
    LessIsIrreflexive(a.to);
    if a.from != b.from {
      LessIsStrict(a.from, b.from);
    } else if a.to != b.to {
      LessIsStrict(a.to, b.to);
    } else {
      LessIsStrict(a.relation, b.relation);
    }
  }

  /** The graph value fixes the whole k-hop answer, listing order included. */
  lemma SubgraphIsUnique(g: View, q: Query, root: string, hops: nat, a: Subgraph, b: Subgraph)
    requires IsSubgraph(g, q, root, hops, a) && IsSubgraph(g, q, root, hops, b)
    ensures a == b
  {
    NearerIsAsymmetric();
    StrictListsAreUnique(a.nodes, b.nodes, NearerBefore);
    forall e, f | EdgeBefore(e, f) ensures !EdgeBefore(f, e) {
      KeyOrderIsAsymmetric(KeyOf(e), KeyOf(f));
    }
    StrictListsAreUnique(a.edges, b.edges, EdgeBefore);
  }
}
