/**
 * The in-memory relation graph: an id map beside a digraph, changed in place and searched in place.
 * `view` is the graph value the fields represent; every contract is stated about it.
 */
module GraphStore {
  import opened Wrappers
  import opened Seqs
  import opened Text
  import opened Ordering
  import opened GraphModel
  import opened GraphSearch
  import opened GraphBalls
  import opened GraphState
  import opened GraphNeighbors
  import opened GraphListing
  import opened GraphTrace
  import opened GraphHops

  const CANCEL_STRIDE: nat := 256

  /** A cancellation token: any check may answer yes, and `hits` counts the checks that did. */
  class CancellationToken {
    ghost var hits: nat

    constructor ()
      ensures hits == 0
    {
      hits := 0;
    }

    method Check() returns (stop: bool)
      modifies this
      ensures hits == old(hits) + if stop then 1 else 0
    {
      stop := *;
      if stop {
        hits := hits + 1;
      }
    }
  }

  /** The reply a flag-returning call gives. */
  predicate Replies(r: Result<bool, Error>, reply: Reply) {
    match r
    case Ok(changed) => reply == Flag(changed)
    case Err(error) => error.InvalidInput? && reply == Failed(error.reason)
  }

  /** A batch looks at its token before every 256th item and once at the end. */
  predicate Checkpoint(n: nat, length: nat) {
    n == length || n % CANCEL_STRIDE == 0
  }

  /** Some index no element uses: which one a digraph hands out is its own business. */
  method FreshIndex(used: set<nat>) returns (i: nat)
    ensures i !in used
  {
    i := 0;
    var rest := used;
    while i in rest
      invariant forall j :: j in rest <==> j in used && j >= i
      decreases rest
    {
      rest := rest - {i};
      i := i + 1;
    }
  }

  class Store {
    var nodes: map<nat, Node>
    var arcs: map<nat, Arc>
    var ids: map<string, nat>
    ghost var at: map<Key, nat>
    ghost var view: View

    ghost predicate Valid()
      reads this
    {
      Represents(nodes, arcs, ids, at, view)
    }

    constructor ()
      ensures Valid() && view == EMPTY
    {
      nodes, arcs, ids := map[], map[], map[];
      at, view := map[], EMPTY;
    }

    /** The graph value the fields represent from now on. */
    ghost method Settle(newAt: map<Key, nat>, newView: View)
      requires Represents(nodes, arcs, ids, newAt, newView)
      modifies this`at, this`view
      ensures Valid() && at == newAt && view == newView
    {
      at, view := newAt, newView;
    }

    // ---- adding ----

    method AddNode(node: Node) returns (r: Result<bool, Error>)
      requires Valid()
      modifies this
      ensures Valid() && view == WithNode(old(view), node)
      ensures Replies(r, NodeReply(old(view), node))
    {
      var id := Trim(node.id);
      if id == "" {
        return Err(InvalidInput(EmptyNodeId));
      }
      if id in ids {
        NodeUpdated(nodes, arcs, ids, at, view, node);
        nodes := nodes[ids[id] := nodes[ids[id]].(kind := node.kind)];
        Settle(at, WithNode(view, node));
        return Ok(false);
      }
      var index := FreshIndex(nodes.Keys);
      NodeInserted(nodes, arcs, ids, at, view, node, index);
      nodes := nodes[index := Node(id, node.kind)];
      ids := ids[id := index];
      Settle(at, WithNode(view, node));
      return Ok(true);
    }

    /** A failed validation changes nothing; a cancellation leaves a prefix; success adds them all. */
    method AddNodes(batch: seq<Node>, token: CancellationToken) returns (r: Result<nat, Error>)
      requires Valid()
      modifies this, token
      ensures Valid()
      ensures token.hits == old(token.hits) + if r == Err(Cancelled) then 1 else 0
      ensures r.Ok? ==> FirstNodeFault(batch) == None && view == WithNodes(old(view), batch)
      ensures r.Ok? ==> r.value == |view.kinds| - |old(view).kinds|
      ensures r.Err? && r != Err(Cancelled) ==>
                && FirstNodeFault(batch) != None && r.error == InvalidInput(FirstNodeFault(batch).value)
                && unchanged(this)
      ensures r == Err(Cancelled) ==>
                exists n :: 0 <= n <= |batch| && Checkpoint(n, |batch|) && view == WithNodes(old(view), batch[..n])
    {
      ghost var start := view;
      assert batch[..0] == [] && Checkpoint(0, |batch|) && WithNodes(start, []) == start;
      var stop := token.Check();
      if stop {
        return Err(Cancelled);
      }
      for i := 0 to |batch|
        invariant FirstNodeFault(batch[..i]) == None
        invariant forall j :: 0 <= j < i ==> NodeFault(batch[j]) == None
        invariant unchanged(this) && token.hits == old(token.hits)
      {
        assert batch[..i + 1][..i] == batch[..i];
        if Trim(batch[i].id) == "" {
          FaultsPersist(batch, i);
          return Err(InvalidInput(EmptyNodeId));
        }
      }
      assert batch[..|batch|] == batch;
      var added;
      ghost var n;
      added, n := AddChecked(batch, token);
      if added.None? {
        return Err(Cancelled);
      }
      r := Closing(added.value, token);
    }

    /** The batch loop, once every node has passed the check: `n` nodes were added before the token said stop. */
    method AddChecked(batch: seq<Node>, token: CancellationToken) returns (r: Option<nat>, ghost n: nat)
      requires Valid() && forall j :: 0 <= j < |batch| ==> NodeFault(batch[j]) == None
      modifies this, token
      ensures Valid() && n <= |batch| && Checkpoint(n, |batch|) && view == WithNodes(old(view), batch[..n])
      ensures token.hits == old(token.hits) + if r.None? then 1 else 0
      ensures r.Some? ==> n == |batch| && r.value == |view.kinds| - |old(view).kinds|
    {
      ghost var start := view;
      var added: nat := 0;
      for i := 0 to |batch|
        invariant Valid() && view == WithNodes(start, batch[..i])
        invariant added == |view.kinds| - |start.kinds|
        invariant token.hits == old(token.hits)
      {
        if i % CANCEL_STRIDE == 0 {
          var stop := token.Check();
          if stop {
            return None, i;
          }
        }
        NodesStep(start, batch, i);
        var done := AddNode(batch[i]);
        assert done.Ok?;  // validated above, so the `?` never fires
        if done.value {
          added := added + 1;
        }
      }
      return Some(added), |batch|;
    }

    /** The checks of an edge, giving the indices of its ends. */
    method ValidatedEdge(edge: Edge) returns (r: Result<(nat, nat, string), Error>)
      requires Valid()
      ensures r.Err? ==> EdgeFault(view, edge) != None && r.error == InvalidInput(EdgeFault(view, edge).value)
      ensures r.Ok? ==>
                && EdgeFault(view, edge) == None
                && r.value.0 in nodes && r.value.1 in nodes
                && TrimmedKey(edge) == Key(nodes[r.value.0].id, nodes[r.value.1].id, r.value.2)
    {
      var from := Trim(edge.from);
      if from == "" { return Err(InvalidInput(EmptySource)); }
      var to := Trim(edge.to);
      if to == "" { return Err(InvalidInput(EmptyTarget)); }
      var relation := Trim(edge.relation);
      if relation == "" { return Err(InvalidInput(EmptyRelation)); }
      if from == to { return Err(InvalidInput(SelfLoop)); }
      if edge.weight == Some(NonFinite) { return Err(InvalidInput(WeightNotFinite)); }
      if from !in ids { return Err(InvalidInput(UnknownNode(from))); }
      if to !in ids { return Err(InvalidInput(UnknownNode(to))); }
      return Ok((ids[from], ids[to], relation));
    }

    /** The arcs leaving (or entering) a node, in whatever order the digraph keeps them. */
    method EdgesDirected(index: nat, flow: Direction) returns (r: seq<nat>)
      requires flow != Both
      ensures forall e :: e in r <==> e in arcs && NearEnd(arcs[e], flow) == index
      ensures forall i, j :: 0 <= i < j < |r| ==> r[i] != r[j]
    {
      r := [];
      var rest := arcs.Keys;
      while rest != {}
        invariant rest <= arcs.Keys
        invariant forall e :: e in r <==>
                    e in arcs && e !in rest && NearEnd(arcs[e], flow) == index
        invariant forall i, j :: 0 <= i < j < |r| ==> r[i] != r[j]
        decreases rest
      {
        var e :| e in rest;
        assert e !in r;
        rest := rest - {e};
        if NearEnd(arcs[e], flow) == index {
          r := r + [e];
        }
      }
    }

    method EdgeBetween(from: nat, to: nat, relation: string) returns (r: Option<nat>)
      requires Valid() && from in nodes && to in nodes
      ensures r == None <==> Key(nodes[from].id, nodes[to].id, relation) !in at
      ensures r.Some? ==> r.value == at[Key(nodes[from].id, nodes[to].id, relation)]
    {
      ghost var key := Key(nodes[from].id, nodes[to].id, relation);
      if key in at {
        ArcOfKey(nodes, arcs, ids, at, view, from, to, key);
      }
      var out := EdgesDirected(from, Outgoing);
      for i := 0 to |out|
        invariant key in at ==> at[key] !in out[..i]
      {
        assert out[i] in out;
        var arc := arcs[out[i]];
        if arc.to == to && arc.relation == relation {
          assert ArcKey(nodes, arc) == key;
          return Some(out[i]);
        }
      }
      assert out[..|out|] == out;
      return None;
    }

    method AddEdge(edge: Edge) returns (r: Result<bool, Error>)
      requires Valid()
      modifies this
      ensures Valid() && view == WithEdge(old(view), edge)
      ensures Replies(r, EdgeReply(old(view), edge))
    {
      var ends := ValidatedEdge(edge);
      if ends.Err? {
        return Err(ends.error);
      }
      var (from, to, relation) := ends.value;
      var added := Upsert(edge, from, to, relation);
      return Ok(added);
    }

    /** Replaces the payload of the edge's arc, or makes the arc. */
    method Upsert(edge: Edge, from: nat, to: nat, relation: string) returns (added: bool)
      requires Valid() && EdgeFault(view, edge) == None && from in nodes && to in nodes
      requires TrimmedKey(edge) == Key(nodes[from].id, nodes[to].id, relation)
      modifies this
      ensures Valid() && view == WithEdge(old(view), edge)
      ensures added <==> TrimmedKey(edge) !in old(view).edges
    {
      var arc := Arc(from, to, relation, Payload(edge.weight, edge.metadata));
      var found := EdgeBetween(from, to, relation);
      if found.Some? {
        ReplaceArc(edge, arc, found.value);
        return false;
      }
      InsertArc(edge, arc);
      return true;
    }

    method ReplaceArc(edge: Edge, arc: Arc, index: nat)
      requires Valid() && EdgeFault(view, edge) == None && TrimmedKey(edge) in at && index == at[TrimmedKey(edge)]
      requires Live(nodes, arc) && ArcKey(nodes, arc) == TrimmedKey(edge)
      requires arc.payload == Payload(edge.weight, edge.metadata)
      modifies this
      ensures Valid() && view == WithEdge(old(view), edge)
    {
      ArcUpdated(nodes, arcs, ids, at, view, edge, arc);
      arcs := arcs[index := arc];
      Settle(at, WithEdge(view, edge));
    }

    method InsertArc(edge: Edge, arc: Arc)
      requires Valid() && EdgeFault(view, edge) == None && TrimmedKey(edge) !in at
      requires Live(nodes, arc) && ArcKey(nodes, arc) == TrimmedKey(edge)
      requires arc.payload == Payload(edge.weight, edge.metadata)
      modifies this
      ensures Valid() && view == WithEdge(old(view), edge)
    {
      var index := FreshIndex(arcs.Keys);
      ArcInserted(nodes, arcs, ids, at, view, edge, arc, index);
      arcs := arcs[index := arc];
      Settle(at[TrimmedKey(edge) := index], WithEdge(view, edge));
    }

    /** The up-front pass over a batch of edges. */
    method FirstInvalid(batch: seq<Edge>) returns (r: Option<Error>)
      requires Valid()
      ensures r == match FirstEdgeFault(view, batch) case None => None case Some(reason) => Some(InvalidInput(reason))
    {
      for i := 0 to |batch|
        invariant FirstEdgeFault(view, batch[..i]) == None
      {
        assert batch[..i + 1][..i] == batch[..i];
        var ends := ValidatedEdge(batch[i]);
        if ends.Err? {
          EdgeFaultsPersist(view, batch, i);
          return Some(ends.error);
        }
      }
      assert batch[..|batch|] == batch;
      return None;
    }

    /** As for nodes: all or nothing on validation, a prefix on cancellation. */
    method AddEdges(batch: seq<Edge>, token: CancellationToken) returns (r: Result<nat, Error>)
      requires Valid()
      modifies this, token
      ensures Valid()
      ensures token.hits == old(token.hits) + if r == Err(Cancelled) then 1 else 0
      ensures r.Ok? ==> FirstEdgeFault(old(view), batch) == None && view == WithEdges(old(view), batch)
      ensures r.Ok? ==> r.value == |view.edges| - |old(view).edges|
      ensures r.Err? && r != Err(Cancelled) ==>
                && FirstEdgeFault(old(view), batch) != None
                && r.error == InvalidInput(FirstEdgeFault(old(view), batch).value)
                && unchanged(this)
      ensures r == Err(Cancelled) ==>
                exists n :: 0 <= n <= |batch| && Checkpoint(n, |batch|) && view == WithEdges(old(view), batch[..n])
    {
      ghost var start := view;
      assert batch[..0] == [] && Checkpoint(0, |batch|) && WithEdges(start, []) == start;
      var stop := token.Check();
      if stop {
        return Err(Cancelled);
      }
      var fault := FirstInvalid(batch);
      if fault.Some? {
        return Err(fault.value);
      }
      assert batch[..|batch|] == batch;
      var added;
      ghost var n;
      added, n := AddFaultless(batch, token);
      if added.None? {
        return Err(Cancelled);
      }
      r := Closing(added.value, token);
    }

    /** The last look at the token, when everything is done. */
    method Closing(count: nat, token: CancellationToken) returns (r: Result<nat, Error>)
      modifies token
      ensures token.hits == old(token.hits) + if r == Err(Cancelled) then 1 else 0
      ensures r == Ok(count) || r == Err(Cancelled)
    {
      var stop := token.Check();
      r := if stop then Err(Cancelled) else Ok(count);
    }

    /** The batch loop, once every edge has passed the check: `n` edges were added before the token said stop. */
    method AddFaultless(batch: seq<Edge>, token: CancellationToken) returns (r: Option<nat>, ghost n: nat)
      requires Valid() && FirstEdgeFault(view, batch) == None
      modifies this, token
      ensures Valid() && n <= |batch| && Checkpoint(n, |batch|) && view == WithEdges(old(view), batch[..n])
      ensures token.hits == old(token.hits) + if r.None? then 1 else 0
      ensures r.Some? ==> n == |batch| && r.value == |view.edges| - |old(view).edges|
    {
      ghost var start := view;
      var added: nat := 0;
      for i := 0 to |batch|
        invariant Valid() && view == WithEdges(start, batch[..i])
        invariant added == |view.edges| - |start.edges|
        invariant token.hits == old(token.hits)
      {
        var one := AddTurn(batch, i, start, token);
        if one.None? {
          return None, i;
        }
        added := added + one.value;
      }
      return Some(added), |batch|;
    }

    /** One turn of the batch loop, unless the token says stop. */
    method AddTurn(batch: seq<Edge>, i: nat, ghost start: View, token: CancellationToken) returns (added: Option<nat>)
      requires Valid() && i < |batch| && view == WithEdges(start, batch[..i]) && FirstEdgeFault(start, batch) == None
      modifies this, token
      ensures Valid() && token.hits == old(token.hits) + if added.None? then 1 else 0
      ensures added.None? ==> Checkpoint(i, |batch|) && view == WithEdges(start, batch[..i])
      ensures added.Some? ==> view == WithEdges(start, batch[..i + 1])
      ensures added.Some? ==> added.value == |view.edges| - |old(view).edges|
    {
      if i % CANCEL_STRIDE == 0 {
        var stop := token.Check();
        if stop {
          return None;
        }
      }
      var one := AddAt(batch, i, start);
      return Some(one);
    }

    /** The edge was validated up front against the same node ids. */
    method AddAt(batch: seq<Edge>, i: nat, ghost start: View) returns (added: nat)
      requires Valid() && i < |batch| && view == WithEdges(start, batch[..i]) && FirstEdgeFault(start, batch) == None
      modifies this
      ensures Valid() && view == WithEdges(start, batch[..i + 1])
      ensures added == |view.edges| - |old(view).edges|
    {
      NoEdgeFaults(start, batch);
      assert batch[i] in batch;
      EdgesStep(start, batch, i);
      var done := AddEdge(batch[i]);
      assert done.Ok?;
      added := if done.value then 1 else 0;
    }

    // ---- removing ----

    method RemoveEdge(from: string, to: string, relation: string) returns (removed: bool)
      requires Valid()
      modifies this
      ensures Valid() && view == WithoutEdge(old(view), Key(from, to, relation))
      ensures removed <==> Key(from, to, relation) in old(view).edges
    {
      ghost var key := Key(from, to, relation);
      if from !in ids || to !in ids {
        assert view.edges - {key} == view.edges;
        return false;
      }
      var found := EdgeBetween(ids[from], ids[to], relation);
      match found
      case None =>
        assert view.edges - {key} == view.edges;
        return false;
      case Some(index) =>
        ArcRemoved(nodes, arcs, ids, at, view, key);
        arcs := arcs - {index};
        Settle(at - {key}, WithoutEdge(view, key));
        return true;
    }

    /** Removes every arc at `index` and counts them. */
    method Detach(index: nat) returns (removed: nat)
      modifies this`arcs
      ensures arcs == WithoutArcsAt(old(arcs), index)
      ensures removed == |old(arcs)| - |arcs|
    {
      var leaving := EdgesDirected(index, Outgoing);
      var entering := EdgesDirected(index, Incoming);
      var doomed := (set e | e in leaving) + (set e | e in entering);
      removed := 0;
      while doomed != {}
        invariant forall e :: e in arcs <==> e in old(arcs) && (Meets(old(arcs)[e], index) ==> e in doomed)
        invariant forall e :: e in doomed ==> e in old(arcs) && Meets(old(arcs)[e], index)
        invariant forall e :: e in arcs ==> arcs[e] == old(arcs)[e]
        invariant removed == |old(arcs)| - |arcs|
        decreases doomed
      {
        var e :| e in doomed;
        doomed := doomed - {e};
        if e in arcs {
          UpdateCounts(arcs, e, arcs[e]);
          arcs := arcs - {e};
          removed := removed + 1;
        }
      }
    }

    method RemoveEdgesTouching(id: string) returns (removed: Option<nat>)
      requires Valid()
      modifies this
      ensures Valid() && view == WithoutEdgesAt(old(view), id)
      ensures RemovalReply(old(view), id) == (if removed.Some? then Count(removed.value) else Missing)
    {
      if id !in ids {
        return None;
      }
      var count := DetachIndexed(id);
      return Some(count);
    }

    method DetachIndexed(id: string) returns (count: nat)
      requires Valid() && id in ids
      modifies this
      ensures Valid() && view == WithoutEdgesAt(old(view), id)
      ensures count == |EdgesAt(old(view), id)|
    {
      EdgesDetached(nodes, arcs, ids, at, view, id);
      count := Detach(ids[id]);
      Settle(WithoutKeysAt(at, id), WithoutEdgesAt(view, id));
    }

    method RemoveNode(id: string) returns (removed: Option<nat>)
      requires Valid()
      modifies this
      ensures Valid() && view == WithoutNode(old(view), id)
      ensures RemovalReply(old(view), id) == (if removed.Some? then Count(removed.value) else Missing)
    {
      if id !in ids {
        return None;
      }
      var count := RemoveIndexed(id);
      return Some(count);
    }

    method RemoveIndexed(id: string) returns (count: nat)
      requires Valid() && id in ids
      modifies this
      ensures Valid() && view == WithoutNode(old(view), id)
      ensures count == |EdgesAt(old(view), id)|
    {
      count := TakeOut(id);
      SettleRemoval(old(nodes), old(arcs), old(ids), id);
    }

    /** The id, the arcs at its node and the node go, in this order. */
    method TakeOut(id: string) returns (count: nat)
      requires id in ids
      modifies this`ids, this`arcs, this`nodes
      ensures nodes == old(nodes) - {old(ids)[id]} && ids == old(ids) - {id}
      ensures arcs == WithoutArcsAt(old(arcs), old(ids)[id]) && count == |old(arcs)| - |arcs|
    {
      var index := ids[id];
      ids := ids - {id};
      count := Detach(index);
      nodes := nodes - {index};
    }

    ghost method SettleRemoval(nodes0: map<nat, Node>, arcs0: map<nat, Arc>, ids0: map<string, nat>, id: string)
      requires Represents(nodes0, arcs0, ids0, at, view) && id in ids0
      requires nodes == nodes0 - {ids0[id]} && arcs == WithoutArcsAt(arcs0, ids0[id]) && ids == ids0 - {id}
      modifies this`at, this`view
      ensures Valid() && view == WithoutNode(old(view), id)
      ensures |arcs0| - |arcs| == |EdgesAt(old(view), id)|
    {
      DetachedNodeRemoved(nodes0, arcs0, ids0, at, view, id);
      Settle(WithoutKeysAt(at, id), WithoutNode(view, id));
    }

    method RemoveNodes(batch: seq<string>, token: CancellationToken) returns (r: Result<nat, Error>)
      requires Valid()
      modifies this, token
      ensures Valid()
      ensures token.hits == old(token.hits) + if r == Err(Cancelled) then 1 else 0
      ensures r.Err? ==> r == Err(Cancelled)
      ensures r.Ok? ==> view == WithoutNodes(old(view), batch) && r.value == |old(view).kinds| - |view.kinds|
      ensures r == Err(Cancelled) ==>
                exists n :: 0 <= n <= |batch| && Checkpoint(n, |batch|) && view == WithoutNodes(old(view), batch[..n])
    {
      ghost var start := view;
      assert batch[..0] == [] && Checkpoint(0, |batch|) && WithoutNodes(start, []) == start;
      var stop := token.Check();
      if stop {
        return Err(Cancelled);
      }
      var removed: nat := 0;
      for i := 0 to |batch|
        invariant Valid() && view == WithoutNodes(start, batch[..i])
        invariant removed == |start.kinds| - |view.kinds|
        invariant token.hits == old(token.hits)
      {
        if i % CANCEL_STRIDE == 0 {
          stop := token.Check();
          if stop {
            assert Checkpoint(i, |batch|);
            return Err(Cancelled);
          }
        }
        RemovalStep(start, batch, i);
        var gone := RemoveNode(batch[i]);
        if gone.Some? {
          removed := removed + 1;
        }
      }
      assert batch[..|batch|] == batch;
      stop := token.Check();
      if stop {
        assert Checkpoint(|batch|, |batch|);
        return Err(Cancelled);
      }
      return Ok(removed);
    }

    // ---- searching ----

    /** The steps a search may take from a node, in the order it takes them. */
    method Step(index: nat, q: Query) returns (steps: seq<Hop>)
      requires Valid() && index in nodes
      ensures IsStep(nodes, arcs, q, index, steps)
    {
      steps := [];
      var flows := Flows(q.direction);
      for f := 0 to |flows|
        invariant forall h :: h in steps <==> HopAllowed(arcs, q, index, flows[..f], h)
        invariant TiesOutgoingFirst(nodes, arcs, index, steps)
      {
        assert f == 0 || flows == [Outgoing, Incoming];
        steps := PushSteps(steps, index, q, flows[f], flows[..f]);
        assert flows[..f + 1] == flows[..f] + [flows[f]];
      }
      assert flows[..|flows|] == flows;
      SortedStepsAreOrdered(nodes, arcs, ids, at, view, q, index, steps);
      steps := SortBy(steps, StepOrder(nodes, arcs));
    }

    /** The steps in one direction, in whatever order the digraph has them. */
    method PushSteps(steps0: seq<Hop>, index: nat, q: Query, flow: Direction, ghost before: seq<Direction>)
      returns (steps: seq<Hop>)
      requires Valid() && index in nodes && flow != Both
      requires before == [] || (before == [Outgoing] && flow == Incoming)
      requires forall h :: h in steps0 <==> HopAllowed(arcs, q, index, before, h)
      requires TiesOutgoingFirst(nodes, arcs, index, steps0)
      ensures forall h :: h in steps <==> HopAllowed(arcs, q, index, before + [flow], h)
      ensures TiesOutgoingFirst(nodes, arcs, index, steps)
    {
      steps := steps0;
      var edges := EdgesDirected(index, flow);
      for i := 0 to |edges|
        invariant Pushed(arcs, q, index, before, flow, edges[..i], steps)
        invariant TiesOutgoingFirst(nodes, arcs, index, steps)
      {
        var e := edges[i];
        assert e in edges;
        FrontGrows(edges, i);
        HopPushed(nodes, arcs, ids, at, view, q, index, before, flow, edges[..i], e, steps);
        if Selected(q, arcs[e].relation) {
          steps := steps + [Hop(if flow == Outgoing then arcs[e].to else arcs[e].from, e)];
        }
      }
      assert edges[..|edges|] == edges;
      PushedAll(arcs, q, index, before, flow, edges, steps);
    }

    /** `neighbors`: the same edges in the same order as a step, with what each leads to. */
    method Neighbors(id: string, q: Query) returns (r: Result<seq<Neighbor>, Error>)
      requires Valid()
      ensures NeighborReply(view, q, id, r)
    {
      if id !in ids {
        return Err(InvalidInput(UnknownNode(id)));
      }
      var index := ids[id];
      var steps := Step(index, q);
      var neighbors := [];
      for n := 0 to |steps|
        invariant |neighbors| == n && AreNeighborsOf(nodes, arcs, view, index, steps, neighbors)
      {
        var neighbor := Described(index, q, steps, n);
        neighbors := neighbors + [neighbor];
      }
      StepsAreNeighbors(nodes, arcs, ids, at, view, q, index, steps, neighbors);
      return Ok(neighbors);
    }

    /** What the `n`th step leads to. */
    method Described(index: nat, ghost q: Query, steps: seq<Hop>, n: nat) returns (neighbor: Neighbor)
      requires Valid() && index in nodes && IsStep(nodes, arcs, q, index, steps) && n < |steps|
      ensures IsNeighborOf(nodes, arcs, view, index, steps[n], neighbor)
    {
      StepIsAllowed(nodes, arcs, q, index, steps, n);
      StepSucceeds(nodes, arcs, ids, at, view, q, index, steps[n]);
      var edge := steps[n].edge;
      neighbor :=
        Neighbor(nodes[steps[n].other], EdgeAt(edge), if arcs[edge].from == index then Outgoing else Incoming);
    }

    /** The least shortest path, the reason there is none, or `None` when the target is out of reach. */
    method ShortestPath(from: string, to: string, q: Query, token: CancellationToken)
      returns (r: Result<Option<GraphPath>, Error>)
      requires Valid()
      modifies token
      ensures token.hits == old(token.hits) + if r == Err(Cancelled) then 1 else 0
      ensures r != Err(Cancelled) ==> PathReply(view, q, from, to, r)
    {
      var stop := token.Check();
      if stop { return Err(Cancelled); }
      if from !in ids { return Err(InvalidInput(UnknownNode(from))); }
      if to !in ids { return Err(InvalidInput(UnknownNode(to))); }
      var source, target := ids[from], ids[to];
      if source == target {
        StartHolds(view, q, from);
        assert nodes[source].id == nodes[target].id;
        var path := GraphPath([nodes[source]], []);
        assert Ids(path.nodes) == [from];
        return Ok(Some(path));
      }
      var path;
      stop, path := Search(source, target, q, token);
      if stop { return Err(Cancelled); }
      return Ok(path);
    }

    /** The outer loop of the search: expands nodes in the order they were discovered. */
    method Search(source: nat, target: nat, q: Query, token: CancellationToken)
      returns (stop: bool, r: Option<GraphPath>)
      requires Valid() && source in nodes && target in nodes && source != target
      modifies token
      ensures token.hits == old(token.hits) + if stop then 1 else 0
      ensures !stop && r.Some? ==> IsAnswer(view, q, nodes[source].id, nodes[target].id, r.value)
      ensures !stop && r == None ==> forall w :: !WalkTo(view, q, nodes[source].id, nodes[target].id, w)
    {
      ghost var from, to := nodes[source].id, nodes[target].id;
      assert ids[from] == source && ids[to] == target;
      ghost var s := Start(from);
      TrackingStarts(nodes, arcs, ids, at, view, q, from);
      var cameFrom: map<nat, Back> := map[];
      var seen := {source};
      var queue := [source];
      var visited := 0;
      stop, r := false, None;
      while queue != []
        invariant Tracks(nodes, arcs, ids, view, q, from, s, seen, cameFrom) && Queued(nodes, s, 0, queue)
        invariant NothingFromNext(s) && to !in s.walks
        invariant token.hits == old(token.hits) && !stop && r == None
        decreases |view.kinds| - s.done
      {
        PopQueue(nodes, s, queue);
        var current := queue[0];
        queue := queue[1..];
        visited := visited + 1;
        if visited % CANCEL_STRIDE == 0 {
          stop := token.Check();
          if stop { return; }
        }
        var found;
        ghost var t := s;
        seen, cameFrom, queue, found, t := Expand(current, target, q, seen, cameFrom, queue, from, s);
        if found {
          stop, r := Deliver(source, target, cameFrom, token, from, q, t);
          return;
        }
        s := t;
      }
      ExhaustionIsNone(view, q, from, to, s);
      stop := token.Check();
    }

    /** The path to a target that was found, unless the token says stop. */
    method Deliver(source: nat, target: nat, cameFrom: map<nat, Back>, token: CancellationToken, ghost from: string,
                   ghost q: Query, ghost s: Search)
      returns (stop: bool, r: Option<GraphPath>)
      requires Valid() && SearchInv(view, q, from, s)
      requires source in nodes && nodes[source].id == from && target in nodes && nodes[target].id in s.walks
      requires CameFrom(nodes, arcs, ids, view, q, from, s, cameFrom)
      modifies token
      ensures token.hits == old(token.hits) + if stop then 1 else 0
      ensures !stop ==> r.Some? && IsAnswer(view, q, from, nodes[target].id, r.value)
    {
      stop := token.Check();
      if stop { return stop, None; }
      var path := Rebuild(source, target, cameFrom, from, q, s);
      r := Some(path);
    }

    /** The inner loop of the search: takes the steps of one node until they run out or meet the target. */
    method Expand(current: nat, target: nat, q: Query, seen0: set<nat>, cameFrom0: map<nat, Back>, queue0: seq<nat>,
                  ghost from: string, ghost s0: Search)
      returns (seen: set<nat>, cameFrom: map<nat, Back>, queue: seq<nat>, found: bool, ghost s: Search)
      requires Valid() && Tracks(nodes, arcs, ids, view, q, from, s0, seen0, cameFrom0) && Queued(nodes, s0, 1, queue0)
      requires NothingFromNext(s0) && s0.done < |s0.order|
      requires current in nodes && nodes[current].id == s0.order[s0.done]
      requires target in nodes && nodes[target].id !in s0.walks
      ensures found ==> Tracks(nodes, arcs, ids, view, q, from, s, seen, cameFrom) && nodes[target].id in s.walks
      ensures !found ==>
                && Tracks(nodes, arcs, ids, view, q, from, s, seen, cameFrom)
                && NothingFromNext(s) && Queued(nodes, s, 0, queue)
                && nodes[target].id !in s.walks
                && s.done == s0.done + 1 <= |view.kinds|
    {
      seen, cameFrom, queue, s := seen0, cameFrom0, queue0, s0;
      var steps := Step(current, q);
      NothingStepped(nodes, s, steps);
      for n := 0 to |steps|
        invariant Tracks(nodes, arcs, ids, view, q, from, s, seen, cameFrom) && Queued(nodes, s, 1, queue)
        invariant s.done == s0.done < |s.order| && s.order[s.done] == nodes[current].id && s.order[s.done] in s.walks
        invariant StepsInto(nodes, s, steps, n) && FromSteps(nodes, s, steps, n)
        invariant nodes[target].id !in s.walks
      {
        seen, cameFrom, queue, found, s :=
          Follow(steps, n, current, target, q, seen, cameFrom, queue, from, s);
        if found {
          return;
        }
      }
      ExpansionEnds(nodes, arcs, ids, at, view, q, from, s, seen, cameFrom, queue, current, steps);
      found, s := false, s.(done := s.done + 1);
    }

    /** One step of the node being expanded: nothing new, the target, or one more node in the queue. */
    method Follow(steps: seq<Hop>, n: nat, current: nat, target: nat, ghost q: Query, seen0: set<nat>,
                  cameFrom0: map<nat, Back>, queue0: seq<nat>, ghost from: string, ghost s0: Search)
      returns (seen: set<nat>, cameFrom: map<nat, Back>, queue: seq<nat>, found: bool, ghost s: Search)
      requires Valid() && n < |steps| && current in nodes && IsStep(nodes, arcs, q, current, steps)
      requires Tracks(nodes, arcs, ids, view, q, from, s0, seen0, cameFrom0) && Queued(nodes, s0, 1, queue0)
      requires s0.done < |s0.order| && s0.order[s0.done] == nodes[current].id && s0.order[s0.done] in s0.walks
      requires StepsInto(nodes, s0, steps, n) && FromSteps(nodes, s0, steps, n)
      requires target in nodes && nodes[target].id !in s0.walks
      ensures found ==> Tracks(nodes, arcs, ids, view, q, from, s, seen, cameFrom) && nodes[target].id in s.walks
      ensures !found ==>
                && Tracks(nodes, arcs, ids, view, q, from, s, seen, cameFrom) && Queued(nodes, s, 1, queue)
                && s.done == s0.done < |s.order| && s.order[s.done] == nodes[current].id && s.order[s.done] in s.walks
                && StepsInto(nodes, s, steps, n + 1) && FromSteps(nodes, s, steps, n + 1)
                && nodes[target].id !in s.walks
    {
      seen, cameFrom, queue, s, found := seen0, cameFrom0, queue0, s0, false;
      var hop := steps[n];
      if hop.other in seen {
        StepSkipped(nodes, s, steps, n, seen);
        return;
      }
      StepTracks(nodes, arcs, ids, at, view, q, from, s, seen, cameFrom, current, steps, n);
      QueueGrows(nodes, s, queue, hop.other);
      s := Discover(s, nodes[hop.other].id);
      seen := seen + {hop.other};
      cameFrom := cameFrom[hop.other := Back(current, hop.edge)];
      if hop.other == target {
        found := true;
        return;
      }
      assert ids[nodes[hop.other].id] == hop.other && ids[nodes[target].id] == target;
      queue := queue + [hop.other];
    }

    /** Follows the back pointers from a discovered target; it cannot fail and cannot loop. */
    method Rebuild(source: nat, target: nat, cameFrom: map<nat, Back>, ghost from: string, ghost q: Query,
                   ghost s: Search)
      returns (path: GraphPath)
      requires Valid() && SearchInv(view, q, from, s)
      requires source in nodes && nodes[source].id == from && target in nodes && nodes[target].id in s.walks
      requires CameFrom(nodes, arcs, ids, view, q, from, s, cameFrom)
      ensures IsAnswer(view, q, from, nodes[target].id, path)
    {
      var trail, edges := Retrace(source, target, cameFrom, from, q, s);
      path := GraphPath(Reversed(trail), Reversed(edges));
      RetracedIsAnswer(view, q, from, nodes[target].id, s.walks[nodes[target].id], trail, edges);
    }

    method Retrace(source: nat, target: nat, cameFrom: map<nat, Back>, ghost from: string, ghost q: Query,
                   ghost s: Search)
      returns (trail: seq<Node>, edges: seq<Edge>)
      requires Valid() && SearchInv(view, q, from, s)
      requires source in nodes && nodes[source].id == from && target in nodes && nodes[target].id in s.walks
      requires CameFrom(nodes, arcs, ids, view, q, from, s, cameFrom)
      ensures Retracing(nodes, view, q, s, s.walks[nodes[target].id], trail, edges, source)
    {
      ghost var w := s.walks[nodes[target].id];
      trail, edges := [nodes[target]], [];
      var cursor := target;
      RetracingStarts(nodes, ids, view, q, from, s, target);
      while cursor != source
        invariant Retracing(nodes, view, q, s, w, trail, edges, cursor)
        decreases |w| - |edges|
      {
        RetraceTurn(nodes, arcs, ids, view, q, from, source, s, cameFrom, w, trail, edges, cursor);
        var back := cameFrom[cursor];
        edges := edges + [EdgeAt(back.edge)];
        trail := trail + [nodes[back.node]];
        cursor := back.node;
      }
    }

    // ---- the k-hop query ----

    /** Everything within `hops` steps, unless that is more than the budget allows. */
    method KHopSubgraph(id: string, hops: nat, q: Query, budget: Option<nat>, token: CancellationToken)
      returns (r: Result<Subgraph, Error>)
      requires Valid()
      modifies token
      ensures token.hits == old(token.hits) + if r == Err(Cancelled) then 1 else 0
      ensures r != Err(Cancelled) ==> KHopReply(view, q, id, hops, budget, r)
    {
      var stop := token.Check();
      if stop { return Err(Cancelled); }
      if hops > MAX_HOPS { return Err(InvalidInput(TooManyHops)); }
      var limit := if budget.Some? then budget.value else DEFAULT_NODE_BUDGET;
      if limit == 0 || limit > MAX_NODE_BUDGET { return Err(InvalidInput(BadBudget)); }
      if id !in ids { return Err(InvalidInput(UnknownNode(id))); }
      var depths, exceeded;
      stop, exceeded, depths := Explore(id, hops, q, limit, token);
      if stop { return Err(Cancelled); }
      if exceeded { return Err(LimitExceeded); }
      var listed, edges;
      ghost var got;
      stop, listed, edges, got := Gather(q, depths, token);
      if stop { return Err(Cancelled); }
      GatheredIsSubgraph(nodes, arcs, ids, at, view, q, id, hops, depths, listed, got, edges);
      stop := token.Check();
      if stop { return Err(Cancelled); }
      return Ok(Subgraph(id, SortBy(listed, NearerOrder()), SortBy(edges, EdgeOrder())));
    }

    /** The layer loop: depth by depth until the hops or the new nodes run out. */
    method Explore(id: string, hops: nat, q: Query, limit: nat, token: CancellationToken)
      returns (stop: bool, exceeded: bool, depths: map<nat, nat>)
      requires Valid() && id in view.kinds && limit > 0
      modifies token
      ensures token.hits == old(token.hits) + if stop then 1 else 0
      ensures !stop ==> (exceeded <==> |Ball(view, q, id, hops)| > limit)
      ensures !stop && !exceeded ==> InLayers(nodes, view, q, id, hops, depths)
    {
      stop, exceeded := false, false;
      depths := map[ids[id] := 0];
      var frontier := [ids[id]];
      RootIsLayer(nodes, ids, view, q, id);
      var depth := 0;
      while depth < hops
        invariant depth <= hops && |depths| <= limit
        invariant InLayers(nodes, view, q, id, depth, depths) && Lists(nodes, Layer(view, q, id, depth), frontier)
        invariant token.hits == old(token.hits) && !stop && !exceeded
      {
        stop := token.Check();
        if stop { return; }
        var next;
        depths, next, exceeded := NextLayer(id, q, depth + 1, frontier, depths, limit);
        if exceeded {
          LimitIsExceeded(view, q, id, depth + 1, hops, limit);
          return;
        }
        depth := depth + 1;
        if next == [] {
          EmptyLayerSettles(nodes, ids, view, q, id, depth, hops, depths);
          break;
        }
        frontier := next;
      }
      BallHasSize(nodes, ids, view, q, id, hops, depths);
    }

    /** From one ball to the next. */
    method NextLayer(ghost id: string, q: Query, depth: nat, frontier: seq<nat>, depths0: map<nat, nat>, limit: nat)
      returns (depths: map<nat, nat>, next: seq<nat>, exceeded: bool)
      requires Valid() && id in view.kinds && depth > 0 && |depths0| <= limit
      requires InLayers(nodes, view, q, id, depth - 1, depths0) && Lists(nodes, Layer(view, q, id, depth - 1), frontier)
      ensures exceeded ==> |Ball(view, q, id, depth)| > limit
      ensures !exceeded ==> InLayers(nodes, view, q, id, depth, depths) && Lists(nodes, Layer(view, q, id, depth), next)
      ensures !exceeded ==> |depths| <= limit
    {
      NextBallIsBall(view, q, id, depth);
      depths, next, exceeded :=
        ExpandLayer(q, depth, frontier, depths0, limit, Ball(view, q, id, depth - 1), Layer(view, q, id, depth - 1));
      if !exceeded {
        LayerDone(nodes, view, q, id, depth, depths0, depths, next);
      }
    }

    /** One layer of the expansion: every step of every node on the frontier. */
    method ExpandLayer(q: Query, depth: nat, frontier: seq<nat>, depths0: map<nat, nat>, limit: nat,
                       ghost inner: set<string>, ghost layer: set<string>)
      returns (depths: map<nat, nat>, next: seq<nat>, exceeded: bool)
      requires Valid() && layer <= inner <= view.kinds.Keys && |depths0| <= limit
      requires Covers(nodes, inner, depths0.Keys) && Lists(nodes, layer, frontier)
      ensures exceeded ==> |inner + Successors(view, q, layer)| > limit
      ensures !exceeded ==> Reached(nodes, inner, inner + Successors(view, q, layer), depths0, depths, depth, next)
      ensures !exceeded ==> |depths| <= limit
    {
      depths, next := depths0, [];
      ghost var found, taken: set<string> := inner, {};
      for i := 0 to |frontier|
        invariant taken == NamesOf(nodes, frontier[..i]) && taken <= layer
        invariant found == inner + Successors(view, q, taken)
        invariant Reached(nodes, inner, found, depths0, depths, depth, next) && |depths| <= limit
      {
        var current := frontier[i];
        NamesOfGrow(nodes, layer, frontier, i);
        ghost var outer := inner + Successors(view, q, layer);
        SuccessorsGrow(view, q, taken, layer);
        SuccessorsGrow(view, q, {nodes[current].id}, layer);
        SuccessorsSplit(view, q, taken, nodes[current].id);
        depths, next, exceeded, found := ExpandNode(q, depth, current, depths0, depths, next,
                                                    limit, inner, found, outer);
        if exceeded {
          return;
        }
        UnionsJoin(inner, Successors(view, q, taken), Successors(view, q, {nodes[current].id}));
        taken := taken + {nodes[current].id};
      }
      assert frontier[..|frontier|] == frontier;
      ListNames(nodes, ids, view, layer, frontier);
      exceeded := false;
    }

    /** The steps of one node on the frontier: `base` is known before it, `outer` bounds the layer. */
    method ExpandNode(q: Query, depth: nat, current: nat, ghost depths0: map<nat, nat>, depths1: map<nat, nat>,
                      next1: seq<nat>, limit: nat, ghost inner: set<string>, ghost base: set<string>,
                      ghost outer: set<string>)
      returns (depths: map<nat, nat>, next: seq<nat>, exceeded: bool, ghost found: set<string>)
      requires Valid() && current in nodes && base <= outer <= view.kinds.Keys
      requires Successors(view, q, {nodes[current].id}) <= outer
      requires Reached(nodes, inner, base, depths0, depths1, depth, next1) && |depths1| <= limit
      ensures exceeded ==> |outer| > limit
      ensures !exceeded ==> found == base + Successors(view, q, {nodes[current].id})
      ensures !exceeded ==> Reached(nodes, inner, found, depths0, depths, depth, next) && |depths| <= limit
    {
      var steps := Step(current, q);
      forall h | h in steps ensures h.other in nodes && nodes[h.other].id in outer {
        StepSucceeds(nodes, arcs, ids, at, view, q, current, h);
      }
      AllStepsTaken(nodes, arcs, ids, at, view, q, current, steps);
      depths, next, exceeded, found := TakeSteps(steps, depth, depths0, depths1, next1, limit, inner, base, outer);
    }

    /** Marks the nodes that steps lead to, as far as the budget goes. */
    method TakeSteps(steps: seq<Hop>, depth: nat, ghost depths0: map<nat, nat>, depths1: map<nat, nat>, next1: seq<nat>,
                     limit: nat, ghost inner: set<string>, ghost base: set<string>, ghost outer: set<string>)
      returns (depths: map<nat, nat>, next: seq<nat>, exceeded: bool, ghost found: set<string>)
      requires IdsMatch(nodes, ids, view) && base <= outer <= view.kinds.Keys
      requires forall h :: h in steps ==> h.other in nodes && nodes[h.other].id in outer
      requires Reached(nodes, inner, base, depths0, depths1, depth, next1) && |depths1| <= limit
      ensures exceeded ==> |outer| > limit
      ensures !exceeded ==> found == base + NamesAhead(nodes, steps)
      ensures !exceeded ==> Reached(nodes, inner, found, depths0, depths, depth, next) && |depths| <= limit
    {
      depths, next, found, exceeded := depths1, next1, base, false;
      for n := 0 to |steps|
        invariant found == base + NamesAhead(nodes, steps[..n]) && found <= outer
        invariant Reached(nodes, inner, found, depths0, depths, depth, next) && |depths| <= limit
      {
        assert steps[n] in steps;
        NamesAheadGrow(nodes, steps, n);
        ghost var before := found;
        depths, next, exceeded, found :=
          TakeStep(steps[n].other, depth, depths0, depths, next, limit, inner, found, outer);
        if exceeded {
          return;
        }
        UnionsJoin(base, NamesAhead(nodes, steps[..n]), {nodes[steps[n].other].id});
      }
      assert steps[..|steps|] == steps;
    }

    /** One step of a frontier node: a new node counts against the budget. */
    method TakeStep(neighbor: nat, depth: nat, ghost depths0: map<nat, nat>, depths1: map<nat, nat>, next1: seq<nat>,
                    limit: nat, ghost inner: set<string>, ghost found1: set<string>, ghost outer: set<string>)
      returns (depths: map<nat, nat>, next: seq<nat>, exceeded: bool, ghost found: set<string>)
      requires IdsMatch(nodes, ids, view) && found1 <= outer <= view.kinds.Keys
      requires neighbor in nodes && nodes[neighbor].id in outer
      requires Reached(nodes, inner, found1, depths0, depths1, depth, next1) && |depths1| <= limit
      ensures exceeded ==> |outer| > limit
      ensures found == found1 + {nodes[neighbor].id}
      ensures !exceeded ==> Reached(nodes, inner, found, depths0, depths, depth, next) && |depths| <= limit
    {
      depths, next, found, exceeded := depths1, next1, found1 + {nodes[neighbor].id}, false;
      if neighbor in depths {
        AlreadyFound(nodes, found1, depths.Keys, neighbor);
      } else if |depths| >= limit {
        OneTooMany(nodes, ids, view, outer, found1, depths, neighbor);
        exceeded := true;
      } else {
        ReachedGrows(nodes, ids, view, inner, found1, depths0, depths, depth, next, neighbor);
        depths := depths[neighbor := depth];
        next := next + [neighbor];
      }
    }

    /** Lists the reached nodes and the selected edges among them, in no particular order. */
    method Gather(q: Query, depths: map<nat, nat>, token: CancellationToken)
      returns (stop: bool, listed: seq<SubgraphNode>, edges: seq<Edge>, ghost got: set<nat>)
      requires Valid() && depths.Keys <= nodes.Keys
      modifies token
      ensures token.hits == old(token.hits) + if stop then 1 else 0
      ensures !stop ==> ListedNodes(nodes, depths, depths.Keys, listed) && Gathered(nodes, arcs, view, got, edges)
      ensures !stop ==> got == Between(arcs, q, depths.Keys, depths.Keys)
    {
      listed, edges, got, stop := [], [], {}, false;
      var rest := depths.Keys;
      while rest != {}
        invariant rest <= depths.Keys
        invariant ListedNodes(nodes, depths, depths.Keys - rest, listed)
        invariant Gathered(nodes, arcs, view, got, edges) && got == Between(arcs, q, depths.Keys - rest, depths.Keys)
        invariant token.hits == old(token.hits) && !stop
        decreases rest
      {
        var index :| index in rest;
        stop := token.Check();
        if stop { return; }
        ListedGrows(nodes, ids, view, depths, depths.Keys - rest, listed, index);
        listed := listed + [SubgraphNode(nodes[index], depths[index])];
        assert depths.Keys - (rest - {index}) == (depths.Keys - rest) + {index};
        edges, got := GatherLeaving(index, q, depths, edges, depths.Keys - rest, got);
        rest := rest - {index};
      }
      assert depths.Keys - rest == depths.Keys;
    }

    /** The selected edges from one node into the reached set. */
    method GatherLeaving(index: nat, q: Query, depths: map<nat, nat>, edges0: seq<Edge>, ghost done: set<nat>,
                         ghost got0: set<nat>)
      returns (edges: seq<Edge>, ghost got: set<nat>)
      requires Valid() && index !in done
      requires Gathered(nodes, arcs, view, got0, edges0) && got0 == Between(arcs, q, done, depths.Keys)
      ensures Gathered(nodes, arcs, view, got, edges) && got == Between(arcs, q, done + {index}, depths.Keys)
    {
      edges, got := edges0, got0;
      var leaving := EdgesDirected(index, Outgoing);
      for i := 0 to |leaving|
        invariant Gathered(nodes, arcs, view, got, edges)
        invariant got == got0 + Taken(arcs, q, leaving[..i], depths.Keys)
      {
        NotYetTaken(arcs, q, done, index, depths.Keys, leaving, i);
        TakenGrows(arcs, q, leaving, i, depths.Keys);
        edges, got := GatherOne(leaving[i], q, depths, edges, got);
        UnionsJoin(got0, Taken(arcs, q, leaving[..i], depths.Keys), Taken(arcs, q, [leaving[i]], depths.Keys));
      }
      assert leaving[..|leaving|] == leaving;
      BetweenGrows(arcs, q, done, depths.Keys, leaving, index);
    }

    method GatherOne(e: nat, q: Query, depths: map<nat, nat>, edges0: seq<Edge>, ghost got0: set<nat>)
      returns (edges: seq<Edge>, ghost got: set<nat>)
      requires Valid() && e in arcs && e !in got0 && Gathered(nodes, arcs, view, got0, edges0)
      ensures Gathered(nodes, arcs, view, got, edges) && got == got0 + Taken(arcs, q, [e], depths.Keys)
    {
      edges, got := edges0, got0;
      if Selected(q, arcs[e].relation) && arcs[e].to in depths {
        GatheredGrows(nodes, arcs, ids, at, view, got, edges, e);
        edges := edges + [EdgeAt(e)];
        got := got + {e};
      }
    }

    // ---- listing and hydrating ----

    /** Every node once, by id. */
    method Nodes() returns (r: seq<Node>)
      requires Valid()
      ensures ListsNodes(view, r)
    {
      r := [];
      var rest := nodes.Keys;
      while rest != {}
        invariant rest <= nodes.Keys
        invariant forall n :: n in r <==> n.id in ids && ids[n.id] !in rest && n == nodes[ids[n.id]]
        invariant forall i, j :: 0 <= i < j < |r| ==> r[i].id != r[j].id
        decreases rest
      {
        var index :| index in rest;
        assert ids[nodes[index].id] == index;
        rest := rest - {index};
        r := r + [nodes[index]];
      }
      NodesSort(r);
      r := SortBy(r, NodeOrder());
    }

    /** Every edge once, by (from, to, relation). */
    method Edges() returns (r: seq<Edge>)
      requires Valid()
      ensures ListsEdges(view, view.edges.Keys, r)
    {
      r := [];
      ghost var got: set<nat> := {};
      var rest := arcs.Keys;
      while rest != {}
        invariant rest <= arcs.Keys && got == arcs.Keys - rest
        invariant Gathered(nodes, arcs, view, got, r)
        decreases rest
      {
        var e :| e in rest;
        GatheredGrows(nodes, arcs, ids, at, view, got, r, e);
        r := r + [EdgeAt(e)];
        got := got + {e};
        rest := rest - {e};
      }
      forall k | k in view.edges ensures k in KeysOf(nodes, arcs, got) {
        assert at[k] in got && Live(nodes, arcs[at[k]]);
      }
      GatheredSorts(nodes, arcs, view, got, view.edges.Keys, r);
      r := SortBy(r, EdgeOrder());
    }

    /** Builds a store from a listing; nodes first, so that every edge finds its ends. */
    static method Hydrate(nodes: seq<Node>, edges: seq<Edge>, token: CancellationToken)
      returns (store: Store, r: Result<nat, Error>)
      modifies token
      ensures fresh(store) && store.Valid()
      ensures token.hits == old(token.hits) + if r == Err(Cancelled) then 1 else 0
      ensures r.Ok? ==>
                && FirstNodeFault(nodes) == None && FirstEdgeFault(WithNodes(EMPTY, nodes), edges) == None
                && store.view == WithEdges(WithNodes(EMPTY, nodes), edges)
      ensures r.Err? && r != Err(Cancelled) ==>
                if FirstNodeFault(nodes).Some? then r.error == InvalidInput(FirstNodeFault(nodes).value)
                else
                  var fault := FirstEdgeFault(WithNodes(EMPTY, nodes), edges);
                  fault.Some? && r.error == InvalidInput(fault.value)
    {
      store := new Store();
      r := store.AddNodes(nodes, token);
      if r.Err? {
        return;
      }
      r := store.AddEdges(edges, token);
    }

    function EdgeAt(e: nat): (r: Edge)
      requires Valid() && e in arcs
      reads this
      ensures var k := ArcKey(nodes, arcs[e]); k in view.edges && r == EdgeOf(view, k)
    {
      var arc := arcs[e];
      Edge(nodes[arc.from].id, nodes[arc.to].id, arc.relation, arc.payload.weight, arc.payload.metadata)
    }
  }
}
