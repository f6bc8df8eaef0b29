/**
 * How the working variables of the k-hop query (depths, frontier, collected lists) follow the
 * layers of the graph.
 */
module GraphHops {
  import opened Wrappers
  import opened Ordering
  import opened GraphModel
  import opened GraphSearch
  import opened GraphBalls
  import opened GraphState
  import opened GraphListing
  import opened GraphTrace

  /** What a k-hop query must answer, errors included. */
  ghost predicate KHopReply(g: View, q: Query, root: string, hops: nat, budget: Option<nat>, r: Result<Subgraph, Error>)
  {
    var limit := if budget.Some? then budget.value else DEFAULT_NODE_BUDGET;
    var fault := KHopFault(g, root, hops, limit);
    if fault.Some? then r == Err(InvalidInput(fault.value))
    else if |Ball(g, q, root, hops)| > limit then r == Err(LimitExceeded)
    else r.Ok? && IsSubgraph(g, q, root, hops, r.value)
  }

  /** Two stores holding the same graph value give the same reply to the same query. */
  lemma KHopReplyIsUnique(g: View, q: Query, root: string, hops: nat, budget: Option<nat>,
                          r: Result<Subgraph, Error>, t: Result<Subgraph, Error>)
    requires KHopReply(g, q, root, hops, budget, r) && KHopReply(g, q, root, hops, budget, t)
    ensures r == t
  {
    if r.Ok? && t.Ok? {
      SubgraphIsUnique(g, q, root, hops, r.value, t.value);
    }
  }

  /** `keys` are the indices of exactly the ids in `names`. */
  ghost predicate Covers(nodes: map<nat, Node>, names: set<string>, keys: set<nat>) {
    forall i :: i in keys <==> i in nodes && nodes[i].id in names
  }

  /** The depth map holds exactly the ball, with true depths. */
  ghost predicate InLayers(nodes: map<nat, Node>, g: View, q: Query, root: string, d: nat, depths: map<nat, nat>) {
    && Covers(nodes, Ball(g, q, root, d), depths.Keys)
    && forall i {:trigger depths[i]} :: i in depths ==>
         i in nodes && depths[i] <= d && AtDepth(g, q, root, nodes[i].id, depths[i])
  }

  ghost function Layer(g: View, q: Query, root: string, d: nat): set<string> {
    Ball(g, q, root, d) - (if d == 0 then {} else Ball(g, q, root, d - 1))
  }

  ghost predicate Lists(nodes: map<nat, Node>, names: set<string>, indices: seq<nat>) {
    forall i :: i in indices <==> i in nodes && nodes[i].id in names
  }

  /** `depths` keeps the old depths and gives the new ones depth `d`. */
  ghost predicate DepthsExtend(depths0: map<nat, nat>, depths: map<nat, nat>, d: nat) {
    && depths0.Keys <= depths.Keys
    && forall i {:trigger depths[i]} :: i in depths ==> depths[i] == if i in depths0 then depths0[i] else d
  }

  /** In the middle of a layer: `inner` was known before it, `found` is known now, `next` is what it added. */
  ghost predicate Reached(nodes: map<nat, Node>, inner: set<string>, found: set<string>,
                          depths0: map<nat, nat>, depths: map<nat, nat>, d: nat, next: seq<nat>) {
    inner <= found && Covers(nodes, found, depths.Keys) && DepthsExtend(depths0, depths, d)
    && Lists(nodes, found - inner, next)
  }

  ghost function NamesOf(nodes: map<nat, Node>, indices: seq<nat>): set<string> {
    set i | i in indices && i in nodes :: nodes[i].id
  }

  ghost function NamesAhead(nodes: map<nat, Node>, steps: seq<Hop>): set<string> {
    set h | h in steps && h.other in nodes :: nodes[h.other].id
  }

  lemma RootIsLayer(nodes: map<nat, Node>, ids: map<string, nat>, g: View, q: Query, root: string)
    requires IdsMatch(nodes, ids, g) && root in ids
    ensures InLayers(nodes, g, q, root, 0, map[ids[root] := 0])
    ensures Lists(nodes, Layer(g, q, root, 0), [ids[root]])
  {
    assert Ball(g, q, root, 0) == {root};
    forall i ensures i == ids[root] <==> i in nodes && nodes[i].id == root {
      if i in nodes && nodes[i].id == root {
        assert ids[nodes[i].id] == i;
      }
    }
  }

  lemma CoverHasSize(nodes: map<nat, Node>, ids: map<string, nat>, g: View, names: set<string>, keys: set<nat>)
    requires IdsMatch(nodes, ids, g) && Covers(nodes, names, keys) && names <= g.kinds.Keys
    ensures |keys| == |names|
  {
    var there := map i | i in keys :: nodes[i].id;
    var back := map x | x in names :: ids[x];
    forall x | x in back ensures back[x] in there && there[back[x]] == x {
      assert nodes[ids[x]].id == x;
    }
    InverseMapsHaveOneSize(there, back);
    assert there.Keys == keys && back.Keys == names;
  }

  lemma BallHasSize(nodes: map<nat, Node>, ids: map<string, nat>, g: View, q: Query, root: string, d: nat,
                    depths: map<nat, nat>)
    requires IdsMatch(nodes, ids, g) && root in g.kinds && InLayers(nodes, g, q, root, d, depths)
    ensures |depths| == |Ball(g, q, root, d)|
  {
    BallStaysInside(g, q, root, d);
    CoverHasSize(nodes, ids, g, Ball(g, q, root, d), depths.Keys);
    assert |depths| == |depths.Keys|;
  }

  lemma SubsetsAreSmaller<T>(a: set<T>, b: set<T>)
    requires a <= b
    ensures |a| <= |b|
    ensures a != b ==> |a| < |b|
  {
    assert b == a + (b - a);
    assert |b| == |a| + |b - a|;
    assert a != b ==> b - a != {};
  }

  lemma LimitIsExceeded(g: View, q: Query, root: string, d: nat, hops: nat, limit: nat)
    requires d <= hops && |Ball(g, q, root, d)| > limit
    ensures |Ball(g, q, root, hops)| > limit
  {
    BallsGrow(g, q, root, d, hops);
    SubsetsAreSmaller(Ball(g, q, root, d), Ball(g, q, root, hops));
  }

  lemma NamesAreListed(nodes: map<nat, Node>, ids: map<string, nat>, g: View, names: set<string>, indices: seq<nat>)
    requires IdsMatch(nodes, ids, g) && names <= g.kinds.Keys && Lists(nodes, names, indices)
    ensures names != {} ==> indices != []
  {
    if names != {} {
      var x :| x in names;
      assert nodes[ids[x]].id == x;
      assert ids[x] in indices;
    }
  }

  lemma EmptyLayerSettles(nodes: map<nat, Node>, ids: map<string, nat>, g: View, q: Query, root: string,
                          d: nat, hops: nat, depths: map<nat, nat>)
    requires IdsMatch(nodes, ids, g) && root in g.kinds && 0 < d <= hops
    requires InLayers(nodes, g, q, root, d, depths) && Lists(nodes, Layer(g, q, root, d), [])
    ensures InLayers(nodes, g, q, root, hops, depths)
  {
    BallStaysInside(g, q, root, d);
    NamesAreListed(nodes, ids, g, Layer(g, q, root, d), []);
    EmptyLayerIsLast(g, q, root, d, hops);
  }

  lemma EmptyLayerIsLast(g: View, q: Query, root: string, d: nat, hops: nat)
    requires 0 < d <= hops && Layer(g, q, root, d) == {}
    ensures Ball(g, q, root, hops) == Ball(g, q, root, d)
  {
    BallsGrow(g, q, root, d - 1, d);
    NothingBetween(Ball(g, q, root, d - 1), Ball(g, q, root, d));
    BallSettles(g, q, root, d, hops);
  }

  lemma NothingBetween(a: set<string>, b: set<string>)
    requires a <= b && b - a == {}
    ensures a == b
  {
    forall x | x in b ensures x in a {
      assert x !in b - a;
    }
  }

  lemma OneTooMany(nodes: map<nat, Node>, ids: map<string, nat>, g: View, outer: set<string>, found: set<string>,
                   depths: map<nat, nat>, i: nat)
    requires IdsMatch(nodes, ids, g) && found <= outer <= g.kinds.Keys && Covers(nodes, found, depths.Keys)
    requires i in nodes && i !in depths && nodes[i].id in outer
    ensures |outer| > |depths|
  {
    CoverHasSize(nodes, ids, g, found, depths.Keys);
    SubsetsAreSmaller(found, outer);
    assert |depths| == |depths.Keys|;
  }

  lemma AlreadyFound(nodes: map<nat, Node>, found: set<string>, keys: set<nat>, i: nat)
    requires Covers(nodes, found, keys) && i in keys
    ensures i in nodes && found + {nodes[i].id} == found
  {
  }

  lemma CoversGrow(nodes: map<nat, Node>, ids: map<string, nat>, g: View, found: set<string>, keys: set<nat>, i: nat)
    requires IdsMatch(nodes, ids, g) && Covers(nodes, found, keys) && i in nodes
    ensures Covers(nodes, found + {nodes[i].id}, keys + {i})
  {
    forall j ensures j in keys + {i} <==> j in nodes && nodes[j].id in found + {nodes[i].id} {
      if j in nodes && nodes[j].id == nodes[i].id {
        assert ids[nodes[j].id] == j && ids[nodes[i].id] == i;
      }
    }
  }

  lemma ReachedGrows(nodes: map<nat, Node>, ids: map<string, nat>, g: View, inner: set<string>, found: set<string>,
                     depths0: map<nat, nat>, depths: map<nat, nat>, d: nat, next: seq<nat>, i: nat)
    requires IdsMatch(nodes, ids, g) && Reached(nodes, inner, found, depths0, depths, d, next)
    requires i in nodes && i !in depths
    ensures Reached(nodes, inner, found + {nodes[i].id}, depths0, depths[i := d], d, next + [i])
    ensures |depths[i := d]| == |depths| + 1
  {
    CoversGrow(nodes, ids, g, found, depths.Keys, i);
    assert depths[i := d].Keys == depths.Keys + {i};
    assert nodes[i].id !in found;
    ListGrows(nodes, ids, g, inner, found, next, i);
  }

  lemma ListGrows(nodes: map<nat, Node>, ids: map<string, nat>, g: View, inner: set<string>, found: set<string>,
                  next: seq<nat>, i: nat)
    requires IdsMatch(nodes, ids, g) && inner <= found && Lists(nodes, found - inner, next)
    requires i in nodes && nodes[i].id !in found
    ensures Lists(nodes, found + {nodes[i].id} - inner, next + [i])
  {
    forall j ensures j in next + [i] <==> j in nodes && nodes[j].id in found + {nodes[i].id} - inner {
      if j in nodes && nodes[j].id == nodes[i].id {
        assert ids[nodes[j].id] == j && ids[nodes[i].id] == i;
      }
    }
  }

  lemma StepSucceeds(nodes: map<nat, Node>, arcs: map<nat, Arc>, ids: map<string, nat>, at: map<Key, nat>, g: View,
                     q: Query, index: nat, h: Hop)
    requires Represents(nodes, arcs, ids, at, g) && index in nodes
    requires HopAllowed(arcs, q, index, Flows(q.direction), h)
    ensures h.other in nodes && nodes[h.other].id in Successors(g, q, {nodes[index].id})
  {
    HopAdmits(nodes, arcs, ids, at, g, q, index, h);
    assert Adjacent(g, q, nodes[index].id, nodes[h.other].id);
    AdjacentStaysInside(g, q, nodes[index].id, nodes[h.other].id);
  }

  lemma NamesOfGrow(nodes: map<nat, Node>, layer: set<string>, frontier: seq<nat>, i: nat)
    requires Lists(nodes, layer, frontier) && i < |frontier|
    ensures frontier[i] in nodes && nodes[frontier[i]].id in layer
    ensures NamesOf(nodes, frontier[..i + 1]) == NamesOf(nodes, frontier[..i]) + {nodes[frontier[i]].id}
  {
    assert frontier[i] in frontier;
    assert frontier[..i + 1] == frontier[..i] + [frontier[i]];
  }

  lemma UnionsJoin<T>(a: set<T>, b: set<T>, c: set<T>)
    ensures (a + b) + c == a + (b + c)
  {
  }

  lemma NamesAheadGrow(nodes: map<nat, Node>, steps: seq<Hop>, n: nat)
    requires n < |steps| && steps[n].other in nodes
    ensures NamesAhead(nodes, steps[..n + 1]) == NamesAhead(nodes, steps[..n]) + {nodes[steps[n].other].id}
  {
    assert steps[..n + 1] == steps[..n] + [steps[n]];
  }

  /** The steps of a node are all its successors. */
  lemma AllStepsTaken(nodes: map<nat, Node>, arcs: map<nat, Arc>, ids: map<string, nat>, at: map<Key, nat>, g: View,
                      q: Query, index: nat, steps: seq<Hop>)
    requires Represents(nodes, arcs, ids, at, g) && index in nodes && IsStep(nodes, arcs, q, index, steps)
    ensures Successors(g, q, {nodes[index].id}) == NamesAhead(nodes, steps)
  {
    var a := nodes[index].id;
    forall b | b in NamesAhead(nodes, steps) ensures b in Successors(g, q, {a}) {
      var h :| h in steps && h.other in nodes && nodes[h.other].id == b;
      HopAdmits(nodes, arcs, ids, at, g, q, index, h);
      assert Adjacent(g, q, a, b);
    }
    forall b | b in Successors(g, q, {a}) ensures b in NamesAhead(nodes, steps) {
      var k :| k in g.edges && Admits(q, k, a, b);
      AdmittedHop(nodes, arcs, ids, at, g, q, index, k, b);
      assert Hop(ids[b], at[k]) in steps && nodes[ids[b]].id == b;
    }
  }

  lemma SuccessorsSplit(g: View, q: Query, taken: set<string>, a: string)
    ensures Successors(g, q, taken + {a}) == Successors(g, q, taken) + Successors(g, q, {a})
  {
  }

  lemma SuccessorsGrow(g: View, q: Query, a: set<string>, b: set<string>)
    requires a <= b
    ensures Successors(g, q, a) <= Successors(g, q, b)
  {
  }

  lemma ListNames(nodes: map<nat, Node>, ids: map<string, nat>, g: View, names: set<string>, indices: seq<nat>)
    requires IdsMatch(nodes, ids, g) && names <= g.kinds.Keys && Lists(nodes, names, indices)
    ensures NamesOf(nodes, indices) == names
  {
    forall x | x in names ensures x in NamesOf(nodes, indices) {
      assert nodes[ids[x]].id == x;
    }
  }

  lemma LayerAdvances(nodes: map<nat, Node>, g: View, q: Query, root: string, d: nat, depths0: map<nat, nat>,
                      depths: map<nat, nat>)
    requires d > 0 && InLayers(nodes, g, q, root, d - 1, depths0)
    requires Covers(nodes, Ball(g, q, root, d), depths.Keys) && DepthsExtend(depths0, depths, d)
    ensures InLayers(nodes, g, q, root, d, depths)
  {
    forall i | i in depths ensures i in nodes && depths[i] <= d && AtDepth(g, q, root, nodes[i].id, depths[i]) {
      assert i in depths.Keys;
      if i in depths0 {
        assert depths[i] == depths0[i];
      } else {
        assert i !in depths0.Keys;
      }
    }
  }

  /** A finished layer: the ball has grown by one hop. */
  lemma LayerDone(nodes: map<nat, Node>, g: View, q: Query, root: string, d: nat,
                  depths0: map<nat, nat>, depths: map<nat, nat>, next: seq<nat>)
    requires d > 0 && root in g.kinds && InLayers(nodes, g, q, root, d - 1, depths0)
    requires Reached(nodes, Ball(g, q, root, d - 1), NextBall(g, q, root, d), depths0, depths, d, next)
    ensures InLayers(nodes, g, q, root, d, depths) && Lists(nodes, Layer(g, q, root, d), next)
  {
    NextBallIsBall(g, q, root, d);
    LayerAdvances(nodes, g, q, root, d, depths0, depths);
  }

  /** The ball after one more layer, as the expansion computes it. */
  ghost function NextBall(g: View, q: Query, root: string, d: nat): set<string>
    requires d > 0
  {
    Ball(g, q, root, d - 1) + Successors(g, q, Layer(g, q, root, d - 1))
  }

  lemma NextBallIsBall(g: View, q: Query, root: string, d: nat)
    requires d > 0 && root in g.kinds
    ensures NextBall(g, q, root, d) == Ball(g, q, root, d)
    ensures Layer(g, q, root, d - 1) <= Ball(g, q, root, d - 1) <= g.kinds.Keys
  {
    LayerThenBall(g, q, root, d - 1, d);
    BallStaysInside(g, q, root, d - 1);
    LayerInBall(g, q, root, d - 1);
  }

  lemma LayerThenBall(g: View, q: Query, root: string, c: nat, d: nat)
    requires d == c + 1
    ensures Ball(g, q, root, c) + Successors(g, q, Layer(g, q, root, c)) == Ball(g, q, root, d)
  {
    LayerStep(g, q, root, c, Layer(g, q, root, c));
  }

  lemma LayerInBall(g: View, q: Query, root: string, d: nat)
    ensures Layer(g, q, root, d) <= Ball(g, q, root, d)
  {
  }

  // ---- collecting the answer ----

  ghost predicate ListedNodes(nodes: map<nat, Node>, depths: map<nat, nat>, done: set<nat>, listed: seq<SubgraphNode>) {
    && (forall n :: n in listed <==>
          exists i :: i in done && i in depths && i in nodes && n == SubgraphNode(nodes[i], depths[i]))
    && (forall i, j :: 0 <= i < j < |listed| ==> listed[i].node.id != listed[j].node.id)
  }

  lemma ListedGrows(nodes: map<nat, Node>, ids: map<string, nat>, g: View, depths: map<nat, nat>, done: set<nat>,
                    listed: seq<SubgraphNode>, i: nat)
    requires IdsMatch(nodes, ids, g) && ListedNodes(nodes, depths, done, listed)
    requires i in nodes && i in depths && i !in done
    ensures ListedNodes(nodes, depths, done + {i}, listed + [SubgraphNode(nodes[i], depths[i])])
  {
    var all := listed + [SubgraphNode(nodes[i], depths[i])];
    forall a, b | 0 <= a < b < |all| ensures all[a].node.id != all[b].node.id {
      if b == |listed| {
        assert all[a] in listed;
        var j :| j in done && j in depths && j in nodes && all[a] == SubgraphNode(nodes[j], depths[j]);
        assert ids[nodes[j].id] == j && ids[nodes[i].id] == i;
      }
    }
    forall n ensures n in all <==>
      exists j :: j in done + {i} && j in depths && j in nodes && n == SubgraphNode(nodes[j], depths[j])
    {
      if n in all && n !in listed {
        assert i in done + {i};
      }
    }
  }

  ghost function KeysOf(nodes: map<nat, Node>, arcs: map<nat, Arc>, got: set<nat>): set<Key> {
    set e | e in got && e in arcs && Live(nodes, arcs[e]) :: ArcKey(nodes, arcs[e])
  }

  /** `edges` holds the edges of the arcs `got`, each once. */
  ghost predicate Gathered(nodes: map<nat, Node>, arcs: map<nat, Arc>, g: View, got: set<nat>, edges: seq<Edge>) {
    && got <= arcs.Keys
    && (forall e :: e in edges <==>
          KeyOf(e) in KeysOf(nodes, arcs, got) && KeyOf(e) in g.edges && e == EdgeOf(g, KeyOf(e)))
    && (forall i, j :: 0 <= i < j < |edges| ==> KeyOf(edges[i]) != KeyOf(edges[j]))
  }

  lemma GatheredGrows(nodes: map<nat, Node>, arcs: map<nat, Arc>, ids: map<string, nat>, at: map<Key, nat>, g: View,
                      got: set<nat>, edges: seq<Edge>, e: nat)
    requires ArcsMatch(nodes, arcs, at, g) && Gathered(nodes, arcs, g, got, edges) && e in arcs && e !in got
    ensures Live(nodes, arcs[e]) && ArcKey(nodes, arcs[e]) in g.edges
    ensures Gathered(nodes, arcs, g, got + {e}, edges + [EdgeOf(g, ArcKey(nodes, arcs[e]))])
  {
    assert Live(nodes, arcs[e]);
    var k := ArcKey(nodes, arcs[e]);
    var edge := EdgeOf(g, k);
    assert KeyOf(edge) == k;
    assert k !in KeysOf(nodes, arcs, got) by {
      forall f | f in got ensures ArcKey(nodes, arcs[f]) != k {
        assert at[ArcKey(nodes, arcs[f])] == f && at[k] == e;
      }
    }
    assert KeysOf(nodes, arcs, got + {e}) == KeysOf(nodes, arcs, got) + {k};
    var all := edges + [edge];
    forall i, j | 0 <= i < j < |all| ensures KeyOf(all[i]) != KeyOf(all[j]) {
      if j == |edges| {
        assert all[i] in edges;
      }
    }
  }

  /** The selected arcs from `sources` to `targets`. */
  ghost function Between(arcs: map<nat, Arc>, q: Query, sources: set<nat>, targets: set<nat>): set<nat> {
    set e | e in arcs && Selected(q, arcs[e].relation) && arcs[e].from in sources && arcs[e].to in targets
  }

  /** The selected ones of some arcs that lead to `targets`. */
  ghost function Taken(arcs: map<nat, Arc>, q: Query, edges: seq<nat>, targets: set<nat>): set<nat> {
    set e | e in edges && e in arcs && Selected(q, arcs[e].relation) && arcs[e].to in targets
  }

  lemma TakenGrows(arcs: map<nat, Arc>, q: Query, edges: seq<nat>, i: nat, targets: set<nat>)
    requires i < |edges|
    ensures Taken(arcs, q, edges[..i + 1], targets) ==
            Taken(arcs, q, edges[..i], targets) + Taken(arcs, q, [edges[i]], targets)
  {
    assert edges[..i + 1] == edges[..i] + [edges[i]];
  }

  lemma NotYetTaken(arcs: map<nat, Arc>, q: Query, done: set<nat>, index: nat, targets: set<nat>,
                    leaving: seq<nat>, i: nat)
    requires i < |leaving| && index !in done && forall a, b :: 0 <= a < b < |leaving| ==> leaving[a] != leaving[b]
    requires forall e :: e in leaving ==> e in arcs && arcs[e].from == index
    ensures leaving[i] in arcs
    ensures leaving[i] !in Between(arcs, q, done, targets) + Taken(arcs, q, leaving[..i], targets)
  {
    assert leaving[i] in leaving && leaving[i] !in leaving[..i];
  }

  lemma BetweenGrows(arcs: map<nat, Arc>, q: Query, sources: set<nat>, targets: set<nat>, leaving: seq<nat>, index: nat)
    requires forall e :: e in leaving <==> e in arcs && arcs[e].from == index
    ensures Between(arcs, q, sources + {index}, targets) ==
            Between(arcs, q, sources, targets) + Taken(arcs, q, leaving, targets)
  {
  }

  lemma GatheredIsSubgraph(nodes: map<nat, Node>, arcs: map<nat, Arc>, ids: map<string, nat>, at: map<Key, nat>,
                           g: View, q: Query, root: string, hops: nat, depths: map<nat, nat>, listed: seq<SubgraphNode>,
                           got: set<nat>, edges: seq<Edge>)
    requires Represents(nodes, arcs, ids, at, g) && root in g.kinds && InLayers(nodes, g, q, root, hops, depths)
    requires ListedNodes(nodes, depths, depths.Keys, listed)
    requires Gathered(nodes, arcs, g, got, edges) && got == Between(arcs, q, depths.Keys, depths.Keys)
    ensures IsSubgraph(g, q, root, hops, Subgraph(root, SortBy(listed, NearerOrder()), SortBy(edges, EdgeOrder())))
  {
    NearestSort(listed);
    ListedIsBall(nodes, ids, g, q, root, hops, depths, listed);
    GotIsInduced(nodes, arcs, ids, at, g, q, root, hops, depths, got);
    GatheredSorts(nodes, arcs, g, got, InducedKeys(g, q, Ball(g, q, root, hops)), edges);
  }

  /** Gathered edges, sorted, are the listing of their keys. */
  lemma GatheredSorts(nodes: map<nat, Node>, arcs: map<nat, Arc>, g: View, got: set<nat>, keys: set<Key>,
                      edges: seq<Edge>)
    requires Gathered(nodes, arcs, g, got, edges) && keys <= g.edges.Keys && KeysOf(nodes, arcs, got) == keys
    ensures ListsEdges(g, keys, SortBy(edges, EdgeOrder()))
  {
    EdgesSort(edges);
  }

  lemma ListedIsBall(nodes: map<nat, Node>, ids: map<string, nat>, g: View, q: Query, root: string, hops: nat,
                     depths: map<nat, nat>, listed: seq<SubgraphNode>)
    requires IdsMatch(nodes, ids, g) && root in g.kinds && InLayers(nodes, g, q, root, hops, depths)
    requires ListedNodes(nodes, depths, depths.Keys, listed)
    ensures forall n: SubgraphNode :: n in listed <==>
              && n.node.id in g.kinds && n.node.kind == g.kinds[n.node.id]
              && n.hops <= hops && AtDepth(g, q, root, n.node.id, n.hops)
  {
    forall n: SubgraphNode | n in listed
      ensures n.node.id in g.kinds && n.node.kind == g.kinds[n.node.id] && n.hops <= hops
      ensures AtDepth(g, q, root, n.node.id, n.hops)
    {
      var i :| i in depths && i in nodes && n == SubgraphNode(nodes[i], depths[i]);
    }
    forall n: SubgraphNode | n.node.id in g.kinds && n.node.kind == g.kinds[n.node.id] && n.hops <= hops
                             && AtDepth(g, q, root, n.node.id, n.hops)
      ensures n in listed
    {
      var i := ids[n.node.id];
      assert nodes[i] == n.node;
      BallsGrow(g, q, root, n.hops, hops);
      assert i in depths.Keys;
      DepthIsUnique(g, q, root, n.node.id, n.hops, depths[i]);
      assert n == SubgraphNode(nodes[i], depths[i]);
    }
  }

  lemma GotIsInduced(nodes: map<nat, Node>, arcs: map<nat, Arc>, ids: map<string, nat>, at: map<Key, nat>, g: View,
                     q: Query, root: string, hops: nat, depths: map<nat, nat>, got: set<nat>)
    requires Represents(nodes, arcs, ids, at, g) && InLayers(nodes, g, q, root, hops, depths)
    requires got == Between(arcs, q, depths.Keys, depths.Keys)
    ensures KeysOf(nodes, arcs, got) == InducedKeys(g, q, Ball(g, q, root, hops))
  {
    var ball := Ball(g, q, root, hops);
    forall k | k in KeysOf(nodes, arcs, got) ensures k in InducedKeys(g, q, ball) {
      var e :| e in got && e in arcs && Live(nodes, arcs[e]) && ArcKey(nodes, arcs[e]) == k;
      assert arcs[e].from in depths.Keys && arcs[e].to in depths.Keys;
    }
    forall k | k in InducedKeys(g, q, ball) ensures k in KeysOf(nodes, arcs, got) {
      var arc := arcs[at[k]];
      assert Live(nodes, arc) && ArcKey(nodes, arc) == k;
      assert arc.from in depths.Keys && arc.to in depths.Keys;
      assert at[k] in got;
    }
  }
}
