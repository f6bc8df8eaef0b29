/**
 * How the working variables of breadth-first search (queue, seen set, back pointers) follow the
 * abstract search, and what each move of the loop keeps.
 */
module GraphTrace {
  import opened Wrappers
  import opened Ordering
  import opened GraphModel
  import opened GraphSearch
  import opened GraphState

  /** A back pointer: the node a discovery was made from, and the edge it was made by. */
  datatype Back = Back(node: nat, edge: nat)

  lemma AdmittedHop(nodes: map<nat, Node>, arcs: map<nat, Arc>, ids: map<string, nat>, at: map<Key, nat>, g: View,
                    q: Query, index: nat, k: Key, b: string)
    requires Represents(nodes, arcs, ids, at, g) && index in nodes
    requires k in g.edges && Admits(q, k, nodes[index].id, b)
    ensures b in ids && HopAllowed(arcs, q, index, Flows(q.direction), Hop(ids[b], at[k]))
  {
    assert k in at && ProperKey(g, k);
    var arc := arcs[at[k]];
    var h := Hop(ids[b], at[k]);
    ArcOfKey(nodes, arcs, ids, at, g, arc.from, arc.to, k);
    assert ids[nodes[arc.from].id] == arc.from && ids[nodes[arc.to].id] == arc.to && ids[nodes[index].id] == index;
    if q.direction != Incoming && k.from == nodes[index].id && k.to == b {
      assert Outgoing in Flows(q.direction);
      assert HopFlows(arcs, index, Outgoing, h);
    } else {
      assert Incoming in Flows(q.direction);
      assert HopFlows(arcs, index, Incoming, h);
    }
  }

  lemma HopAdmits(nodes: map<nat, Node>, arcs: map<nat, Arc>, ids: map<string, nat>, at: map<Key, nat>, g: View,
                  q: Query, index: nat, h: Hop)
    requires Represents(nodes, arcs, ids, at, g) && index in nodes
    requires HopAllowed(arcs, q, index, Flows(q.direction), h)
    ensures h.other in nodes && Live(nodes, arcs[h.edge])
    ensures ArcKey(nodes, arcs[h.edge]) in g.edges && at[ArcKey(nodes, arcs[h.edge])] == h.edge
    ensures Admits(q, ArcKey(nodes, arcs[h.edge]), nodes[index].id, nodes[h.other].id)
  {
    assert Live(nodes, arcs[h.edge]);
  }

  ghost predicate StepsInto(nodes: map<nat, Node>, s: Search, steps: seq<Hop>, n: nat)
    requires n <= |steps|
  {
    forall j :: 0 <= j < n ==> steps[j].other in nodes && nodes[steps[j].other].id in s.walks
  }

  predicate LeadsTo(nodes: map<nat, Node>, h: Hop, x: string) {
    h.other in nodes && nodes[h.other].id == x
  }

  /** What was discovered from the current id came from its first `n` steps. */
  ghost predicate FromSteps(nodes: map<nat, Node>, s: Search, steps: seq<Hop>, n: nat)
    requires n <= |steps| && s.done < |s.order| && s.order[s.done] in s.walks
  {
    forall x :: x in s.walks && |s.walks[x]| > 1 && Init(s.walks[x]) == s.walks[s.order[s.done]]
                ==> exists j :: 0 <= j < n && LeadsTo(nodes, steps[j], x)
  }

  /** The first step to a new id takes the preferred edge, and new siblings come in id order. */
  lemma StepDiscovers(nodes: map<nat, Node>, arcs: map<nat, Arc>, ids: map<string, nat>, at: map<Key, nat>, g: View,
                      q: Query, source: string, s: Search, index: nat, steps: seq<Hop>, n: nat)
    requires Represents(nodes, arcs, ids, at, g) && SearchInv(g, q, source, s)
    requires s.done < |s.order| && index in nodes && nodes[index].id == s.order[s.done]
    requires IsStep(nodes, arcs, q, index, steps) && n < |steps|
    requires StepsInto(nodes, s, steps, n) && FromSteps(nodes, s, steps, n)
    requires steps[n].other in nodes ==> nodes[steps[n].other].id !in s.walks
    ensures steps[n].other in nodes && steps[n].edge in arcs && Live(nodes, arcs[steps[n].edge])
    ensures var b := nodes[steps[n].other].id;
            && SearchInv(g, q, source, Discover(s, b))
            && HopEdge(g, q, s.order[s.done], b, ArcKey(nodes, arcs[steps[n].edge]))
            && StepsInto(nodes, Discover(s, b), steps, n + 1)
            && FromSteps(nodes, Discover(s, b), steps, n + 1)
  {
    var h := steps[n];
    assert h in steps;
    HopAdmits(nodes, arcs, ids, at, g, q, index, h);
    var b, c := nodes[h.other].id, s.order[s.done];
    assert Adjacent(g, q, c, b);
    forall x | x in s.walks && |s.walks[x]| > 1 && Init(s.walks[x]) == s.walks[c] ensures Less(x, b) {
      var j :| 0 <= j < n && LeadsTo(nodes, steps[j], x);
      assert StepBefore(nodes, arcs, index, steps[j], steps[n]);
    }
    DiscoverKeeps(g, q, source, s, b);
    PreferredEdge(nodes, arcs, ids, at, g, q, index, steps, n);
    FromStepsGrows(nodes, s, steps, n, b);
  }

  lemma FromStepsGrows(nodes: map<nat, Node>, s: Search, steps: seq<Hop>, n: nat, b: string)
    requires n < |steps| && s.done < |s.order| && s.order[s.done] in s.walks && b !in s.walks
    requires StepsInto(nodes, s, steps, n) && FromSteps(nodes, s, steps, n) && LeadsTo(nodes, steps[n], b)
    ensures StepsInto(nodes, Discover(s, b), steps, n + 1) && FromSteps(nodes, Discover(s, b), steps, n + 1)
  {
    var t, c := Discover(s, b), s.order[s.done];
    assert t.order[t.done] == c && t.walks[c] == s.walks[c];
    forall x | x in t.walks && |t.walks[x]| > 1 && Init(t.walks[x]) == t.walks[c]
      ensures exists j :: 0 <= j < n + 1 && LeadsTo(nodes, steps[j], x)
    {
      if x == b {
        assert LeadsTo(nodes, steps[n], b);
      } else {
        var j :| 0 <= j < n && LeadsTo(nodes, steps[j], x);
        assert 0 <= j < n + 1;
      }
    }
  }

  lemma PreferredEdge(nodes: map<nat, Node>, arcs: map<nat, Arc>, ids: map<string, nat>, at: map<Key, nat>, g: View,
                      q: Query, index: nat, steps: seq<Hop>, n: nat)
    requires Represents(nodes, arcs, ids, at, g) && index in nodes
    requires IsStep(nodes, arcs, q, index, steps) && n < |steps| && steps[n].other in nodes
    requires forall j :: 0 <= j < n ==> steps[j].other != steps[n].other
    requires steps[n].edge in arcs && Live(nodes, arcs[steps[n].edge])
    ensures HopEdge(g, q, nodes[index].id, nodes[steps[n].other].id, ArcKey(nodes, arcs[steps[n].edge]))
  {
    assert steps[n] in steps;
    HopAdmits(nodes, arcs, ids, at, g, q, index, steps[n]);
    var a, b, key := nodes[index].id, nodes[steps[n].other].id, ArcKey(nodes, arcs[steps[n].edge]);
    forall k | k in g.edges && Admits(q, k, a, b) && k != key ensures HopBefore(a, key, k) {
      AdmittedHop(nodes, arcs, ids, at, g, q, index, k, b);
      var h := Hop(ids[b], at[k]);
      assert h in steps;
      var m :| 0 <= m < |steps| && steps[m] == h;
      assert ids[nodes[steps[n].other].id] == steps[n].other;
      assert ArcKey(nodes, arcs[at[k]]) == k;
      assert n < m;
      assert StepBefore(nodes, arcs, index, steps[n], steps[m]);
      LessIsIrreflexive(b);
    }
  }

  /** Having taken every step, every successor of the current id has been discovered. */
  lemma StepsCover(nodes: map<nat, Node>, arcs: map<nat, Arc>, ids: map<string, nat>, at: map<Key, nat>, g: View,
                   q: Query, s: Search, index: nat, steps: seq<Hop>)
    requires Represents(nodes, arcs, ids, at, g) && index in nodes
    requires IsStep(nodes, arcs, q, index, steps) && StepsInto(nodes, s, steps, |steps|)
    ensures forall b :: Adjacent(g, q, nodes[index].id, b) ==> b in s.walks
  {
    forall b | Adjacent(g, q, nodes[index].id, b) ensures b in s.walks {
      var k :| k in g.edges && Admits(q, k, nodes[index].id, b);
      AdmittedHop(nodes, arcs, ids, at, g, q, index, k, b);
      assert Hop(ids[b], at[k]) in steps;
      assert nodes[ids[b]].id == b;
    }
  }

  // ---- the working variables ----

  /** The queue holds the ids still to be expanded. */
  ghost predicate Queued(nodes: map<nat, Node>, s: Search, skip: nat, queue: seq<nat>) {
    && |queue| == |s.order| - s.done - skip
    && forall i :: 0 <= i < |queue| ==>
         queue[i] in nodes && 0 <= s.done + skip + i < |s.order| && nodes[queue[i]].id == s.order[s.done + skip + i]
  }

  ghost predicate Seen(nodes: map<nat, Node>, s: Search, seen: set<nat>) {
    forall i :: i in seen <==> i in nodes && nodes[i].id in s.walks
  }

  /** A back pointer from `x` leads to the id its walk came through, by the preferred edge. */
  ghost predicate PointsBack(nodes: map<nat, Node>, arcs: map<nat, Arc>, g: View, q: Query, s: Search, x: string,
                             back: Back)
  {
    && back.node in nodes && back.edge in arcs && Live(nodes, arcs[back.edge])
    && x in s.walks && |s.walks[x]| > 1
    && nodes[back.node].id in s.walks && Init(s.walks[x]) == s.walks[nodes[back.node].id]
    && HopEdge(g, q, nodes[back.node].id, x, ArcKey(nodes, arcs[back.edge]))
  }

  ghost predicate CameFrom(nodes: map<nat, Node>, arcs: map<nat, Arc>, ids: map<string, nat>, g: View, q: Query,
                           source: string, s: Search, cameFrom: map<nat, Back>) {
    forall x :: x in s.walks && x != source ==>
                  x in ids && ids[x] in cameFrom && PointsBack(nodes, arcs, g, q, s, x, cameFrom[ids[x]])
  }

  /** A discovery leaves the older back pointers alone. */
  lemma PointsBackStays(nodes: map<nat, Node>, arcs: map<nat, Arc>, g: View, q: Query, s: Search, b: string, x: string,
                        back: Back)
    requires s.done < |s.order| && s.order[s.done] in s.walks && b !in s.walks
    requires PointsBack(nodes, arcs, g, q, s, x, back)
    ensures PointsBack(nodes, arcs, g, q, Discover(s, b), x, back)
  {
  }

  lemma CameFromGrows(nodes: map<nat, Node>, arcs: map<nat, Arc>, ids: map<string, nat>, g: View, q: Query,
                      source: string, s: Search, cameFrom: map<nat, Back>, b: nat, back: Back)
    requires IdsMatch(nodes, ids, g)
    requires s.done < |s.order| && s.order[s.done] in s.walks && s.walks[s.order[s.done]] != []
    requires CameFrom(nodes, arcs, ids, g, q, source, s, cameFrom)
    requires b in nodes && nodes[b].id !in s.walks
    requires back.node in nodes && nodes[back.node].id == s.order[s.done]
    requires back.edge in arcs && Live(nodes, arcs[back.edge])
    requires HopEdge(g, q, s.order[s.done], nodes[b].id, ArcKey(nodes, arcs[back.edge]))
    ensures CameFrom(nodes, arcs, ids, g, q, source, Discover(s, nodes[b].id), cameFrom[b := back])
  {
    var id := nodes[b].id;
    var t := Discover(s, id);
    var after := cameFrom[b := back];
    assert ids[id] == b;
    assert Init(t.walks[id]) == s.walks[s.order[s.done]];
    forall x | x in t.walks && x != source
      ensures x in ids && ids[x] in after && PointsBack(nodes, arcs, g, q, t, x, after[ids[x]])
    {
      if x != id {
        PointsBackStays(nodes, arcs, g, q, s, id, x, cameFrom[ids[x]]);
        assert nodes[ids[x]].id == x;
      }
    }
  }

  /** The working variables agree with the abstract search; `skip` is 1 while an id is being expanded. */
  ghost predicate Tracks(nodes: map<nat, Node>, arcs: map<nat, Arc>, ids: map<string, nat>, g: View, q: Query,
                         from: string, s: Search, seen: set<nat>, cameFrom: map<nat, Back>)
  {
    SearchInv(g, q, from, s) && Seen(nodes, s, seen) && CameFrom(nodes, arcs, ids, g, q, from, s, cameFrom)
  }

  lemma TrackingStarts(nodes: map<nat, Node>, arcs: map<nat, Arc>, ids: map<string, nat>, at: map<Key, nat>, g: View,
                       q: Query, from: string)
    requires Represents(nodes, arcs, ids, at, g) && from in ids
    ensures Tracks(nodes, arcs, ids, g, q, from, Start(from), {ids[from]}, map[])
    ensures NothingFromNext(Start(from)) && Queued(nodes, Start(from), 0, [ids[from]])
  {
    StartHolds(g, q, from);
    forall i ensures i in {ids[from]} <==> i in nodes && nodes[i].id in Start(from).walks {
      if i in nodes && nodes[i].id == from {
        assert ids[nodes[i].id] == i;
      }
    }
  }

  lemma PopQueue(nodes: map<nat, Node>, s: Search, queue: seq<nat>)
    requires Queued(nodes, s, 0, queue) && queue != []
    ensures queue[0] in nodes && s.done < |s.order| && nodes[queue[0]].id == s.order[s.done]
    ensures Queued(nodes, s, 1, queue[1..])
  {
  }

  lemma NothingStepped(nodes: map<nat, Node>, s: Search, steps: seq<Hop>)
    requires s.done < |s.order| && (forall x :: x in s.order ==> x in s.walks) && NothingFromNext(s)
    ensures StepsInto(nodes, s, steps, 0) && FromSteps(nodes, s, steps, 0)
  {
    forall x | x in s.walks && |s.walks[x]| > 1 ensures Init(s.walks[x]) != s.walks[s.order[s.done]] {
      BeforeIsStrict(Init(s.walks[x]), s.walks[s.order[s.done]]);
    }
  }

  lemma StepSkipped(nodes: map<nat, Node>, s: Search, steps: seq<Hop>, n: nat, seen: set<nat>)
    requires n < |steps| && s.done < |s.order| && s.order[s.done] in s.walks
    requires StepsInto(nodes, s, steps, n) && FromSteps(nodes, s, steps, n) && Seen(nodes, s, seen)
    requires steps[n].other in seen
    ensures StepsInto(nodes, s, steps, n + 1) && FromSteps(nodes, s, steps, n + 1)
  {
    forall x | x in s.walks && |s.walks[x]| > 1 && Init(s.walks[x]) == s.walks[s.order[s.done]]
      ensures exists j :: 0 <= j < n + 1 && LeadsTo(nodes, steps[j], x)
    {
      var j :| 0 <= j < n && LeadsTo(nodes, steps[j], x);
      assert 0 <= j < n + 1;
    }
  }

  lemma SeenGrows(nodes: map<nat, Node>, ids: map<string, nat>, g: View, s: Search, seen: set<nat>, b: nat)
    requires IdsMatch(nodes, ids, g) && Seen(nodes, s, seen) && b in nodes
    requires s.done < |s.order| && s.order[s.done] in s.walks
    ensures Seen(nodes, Discover(s, nodes[b].id), seen + {b})
  {
    forall i ensures i in seen + {b} <==> i in nodes && nodes[i].id in Discover(s, nodes[b].id).walks {
      if i in nodes && nodes[i].id == nodes[b].id {
        assert ids[nodes[i].id] == i && ids[nodes[b].id] == b;
      }
    }
  }

  /** Taking a step to an unseen node. */
  lemma StepTracks(nodes: map<nat, Node>, arcs: map<nat, Arc>, ids: map<string, nat>, at: map<Key, nat>, g: View,
                   q: Query, from: string, s: Search, seen: set<nat>, cameFrom: map<nat, Back>, current: nat,
                   steps: seq<Hop>, n: nat)
    requires Represents(nodes, arcs, ids, at, g) && Tracks(nodes, arcs, ids, g, q, from, s, seen, cameFrom)
    requires s.done < |s.order| && current in nodes && nodes[current].id == s.order[s.done]
    requires IsStep(nodes, arcs, q, current, steps) && n < |steps|
    requires StepsInto(nodes, s, steps, n) && FromSteps(nodes, s, steps, n)
    requires steps[n].other !in seen
    ensures steps[n].other in nodes && nodes[steps[n].other].id !in s.walks
    ensures var t := Discover(s, nodes[steps[n].other].id);
            && Tracks(nodes, arcs, ids, g, q, from, t, seen + {steps[n].other},
                      cameFrom[steps[n].other := Back(current, steps[n].edge)])
            && StepsInto(nodes, t, steps, n + 1) && FromSteps(nodes, t, steps, n + 1)
  {
    var b := steps[n].other;
    StepDiscovers(nodes, arcs, ids, at, g, q, from, s, current, steps, n);
    assert s.order[s.done] in s.order;
    WalkEndsAt(g, q, from, s, s.order[s.done]);
    CameFromGrows(nodes, arcs, ids, g, q, from, s, cameFrom, b, Back(current, steps[n].edge));
    SeenGrows(nodes, ids, g, s, seen, b);
  }

  lemma QueueGrows(nodes: map<nat, Node>, s: Search, queue: seq<nat>, b: nat)
    requires Queued(nodes, s, 1, queue) && s.done < |s.order| && b in nodes && s.order[s.done] in s.walks
    ensures Queued(nodes, Discover(s, nodes[b].id), 1, queue + [b])
  {
  }

  /** The current id is fully expanded. */
  lemma ExpansionEnds(nodes: map<nat, Node>, arcs: map<nat, Arc>, ids: map<string, nat>, at: map<Key, nat>, g: View,
                      q: Query, from: string, s: Search, seen: set<nat>, cameFrom: map<nat, Back>, queue: seq<nat>,
                      current: nat, steps: seq<Hop>)
    requires Represents(nodes, arcs, ids, at, g) && Tracks(nodes, arcs, ids, g, q, from, s, seen, cameFrom)
    requires s.done < |s.order| && current in nodes && nodes[current].id == s.order[s.done]
    requires Queued(nodes, s, 1, queue)
    requires IsStep(nodes, arcs, q, current, steps) && StepsInto(nodes, s, steps, |steps|)
    ensures var t := s.(done := s.done + 1);
            && Tracks(nodes, arcs, ids, g, q, from, t, seen, cameFrom) && NothingFromNext(t)
            && Queued(nodes, t, 0, queue)
    ensures s.done < |g.kinds|
  {
    StepsCover(nodes, arcs, ids, at, g, q, s, current, steps);
    AdvanceKeeps(g, q, from, s);
    DoneIsBounded(g, q, from, s);
    DoneIsNotTracked(nodes, arcs, ids, g, q, from, s, seen, cameFrom, queue);
  }

  lemma DoneIsNotTracked(nodes: map<nat, Node>, arcs: map<nat, Arc>, ids: map<string, nat>, g: View, q: Query,
                         from: string, s: Search, seen: set<nat>, cameFrom: map<nat, Back>, queue: seq<nat>)
    requires s.done < |s.order| && Queued(nodes, s, 1, queue)
    requires Seen(nodes, s, seen) && CameFrom(nodes, arcs, ids, g, q, from, s, cameFrom)
    ensures var t := s.(done := s.done + 1);
            Queued(nodes, t, 0, queue) && Seen(nodes, t, seen) && CameFrom(nodes, arcs, ids, g, q, from, t, cameFrom)
  {
    var t := s.(done := s.done + 1);
    forall x | x in t.walks && x != from
      ensures x in ids && ids[x] in cameFrom && PointsBack(nodes, arcs, g, q, t, x, cameFrom[ids[x]])
    {
      assert PointsBack(nodes, arcs, g, q, s, x, cameFrom[ids[x]]);
    }
  }

  /** What a shortest-path query must answer, errors included. */
  ghost predicate PathReply(g: View, q: Query, from: string, to: string, r: Result<Option<GraphPath>, Error>) {
    if from !in g.kinds then r == Err(InvalidInput(UnknownNode(from)))
    else if to !in g.kinds then r == Err(InvalidInput(UnknownNode(to)))
    else
      && r.Ok?
      && (r.value == None ==> forall w :: !WalkTo(g, q, from, to, w))
      && (r.value.Some? ==> IsAnswer(g, q, from, to, r.value.value))
  }

  /** There is a path in the reply exactly when there is a walk. */
  lemma SomeIffWalk(g: View, q: Query, from: string, to: string, r: Result<Option<GraphPath>, Error>)
    requires from in g.kinds && to in g.kinds && PathReply(g, q, from, to, r)
    ensures r.Ok? && (r.value.Some? <==> exists w :: WalkTo(g, q, from, to, w))
  {
    if r.value.Some? {
      assert WalkTo(g, q, from, to, Ids(r.value.value.nodes));
    }
  }

  /** Two stores holding the same graph value give the same reply to the same query. */
  lemma PathReplyIsUnique(g: View, q: Query, from: string, to: string,
                          r: Result<Option<GraphPath>, Error>, t: Result<Option<GraphPath>, Error>)
    requires PathReply(g, q, from, to, r) && PathReply(g, q, from, to, t)
    ensures r == t
  {
    if from in g.kinds && to in g.kinds {
      SomeIffWalk(g, q, from, to, r);
      SomeIffWalk(g, q, from, to, t);
      if r.value.Some? {
        AnswerIsUnique(g, q, from, to, r.value.value, t.value.value);
      }
    }
  }

  /** The search has exhausted the reachable ids without meeting the target. */
  lemma ExhaustionIsNone(g: View, q: Query, source: string, target: string, s: Search)
    requires SearchInv(g, q, source, s) && s.done == |s.order| && target !in s.walks
    ensures forall w :: !WalkTo(g, q, source, target, w)
  {
    forall w ensures !WalkTo(g, q, source, target, w) {
      if WalkTo(g, q, source, target, w) {
        ExhaustionIsComplete(g, q, source, s, target, w);
      }
    }
  }

  // ---- following the back pointers ----

  function Reversed<T>(s: seq<T>): (r: seq<T>)
    ensures |r| == |s| && forall i :: 0 <= i < |s| ==> r[i] == s[|s| - 1 - i]
  {
    seq(|s|, i requires 0 <= i < |s| => s[|s| - 1 - i])
  }

  /** `trail` and `edges` retrace the end of the walk `w`, last id first. */
  ghost predicate Retraced(g: View, q: Query, w: seq<string>, trail: seq<Node>, edges: seq<Edge>) {
    && |trail| <= |w| && |edges| == |trail| - 1
    && (forall i {:trigger trail[i]} :: 0 <= i < |trail| ==>
                      trail[i].id == w[|w| - 1 - i] && trail[i].id in g.kinds && trail[i].kind == g.kinds[trail[i].id])
    && (forall i {:trigger edges[i]} :: 0 <= i < |edges| ==>
                      && HopEdge(g, q, w[|w| - 2 - i], w[|w| - 1 - i], KeyOf(edges[i]))
                      && edges[i] == EdgeOf(g, KeyOf(edges[i])))
  }

  lemma RetraceStep(nodes: map<nat, Node>, arcs: map<nat, Arc>, ids: map<string, nat>, g: View, q: Query,
                    s: Search, w: seq<string>, trail: seq<Node>, edges: seq<Edge>, cursor: nat, back: Back)
    requires IdsMatch(nodes, ids, g)
    requires Retraced(g, q, w, trail, edges) && |edges| < |w|
    requires cursor in nodes && nodes[cursor].id in s.walks && s.walks[nodes[cursor].id] == w[..|w| - |edges|]
    requires PointsBack(nodes, arcs, g, q, s, nodes[cursor].id, back)
    requires EndsRight(s, nodes[cursor].id) && EndsRight(s, nodes[back.node].id)
    ensures s.walks[nodes[back.node].id] == w[..|w| - |edges| - 1]
    ensures ArcKey(nodes, arcs[back.edge]) in g.edges
    ensures Retraced(g, q, w, trail + [nodes[back.node]], edges + [EdgeOf(g, ArcKey(nodes, arcs[back.edge]))])
  {
    var x, y := nodes[cursor].id, nodes[back.node].id;
    assert Init(w[..|w| - |edges|]) == w[..|w| - |edges| - 1];
    assert x == w[|w| - 1 - |edges|] && y == w[|w| - 2 - |edges|];
    assert KeyOf(EdgeOf(g, ArcKey(nodes, arcs[back.edge]))) == ArcKey(nodes, arcs[back.edge]);
    assert nodes[back.node] == Node(y, g.kinds[y]);
  }

  /** The loop that rebuilds a path: the trail goes back along the target's walk, and `cursor` is where it stands. */
  ghost predicate Retracing(nodes: map<nat, Node>, g: View, q: Query, s: Search, w: seq<string>,
                            trail: seq<Node>, edges: seq<Edge>, cursor: nat) {
    && cursor in nodes && nodes[cursor].id in s.walks
    && |s.walks[nodes[cursor].id]| + |edges| == |w|
    && Retraced(g, q, w, trail, edges)
    && s.walks[nodes[cursor].id] == w[..|w| - |edges|]
  }

  lemma RetracingStarts(nodes: map<nat, Node>, ids: map<string, nat>, g: View, q: Query, from: string, s: Search,
                        target: nat)
    requires IdsMatch(nodes, ids, g) && SearchInv(g, q, from, s) && target in nodes && nodes[target].id in s.walks
    ensures Retracing(nodes, g, q, s, s.walks[nodes[target].id], [nodes[target]], [], target)
  {
    WalkEndsAt(g, q, from, s, nodes[target].id);
    var w := s.walks[nodes[target].id];
    assert w[..|w|] == w;
  }

  lemma RetraceTurn(nodes: map<nat, Node>, arcs: map<nat, Arc>, ids: map<string, nat>, g: View, q: Query, from: string,
                    source: nat, s: Search, cameFrom: map<nat, Back>, w: seq<string>, trail: seq<Node>,
                    edges: seq<Edge>,
                    cursor: nat)
    requires IdsMatch(nodes, ids, g) && SearchInv(g, q, from, s) && CameFrom(nodes, arcs, ids, g, q, from, s, cameFrom)
    requires source in nodes && nodes[source].id == from && cursor != source
    requires Retracing(nodes, g, q, s, w, trail, edges, cursor)
    ensures cursor in cameFrom
    ensures var back := cameFrom[cursor];
            && back.node in nodes && back.edge in arcs && Live(nodes, arcs[back.edge])
            && ArcKey(nodes, arcs[back.edge]) in g.edges && |edges| < |w|
            && Retracing(nodes, g, q, s, w, trail + [nodes[back.node]],
                         edges + [EdgeOf(g, ArcKey(nodes, arcs[back.edge]))], back.node)
  {
    assert ids[nodes[cursor].id] == cursor && ids[nodes[source].id] == source;
    var back := cameFrom[cursor];
    assert PointsBack(nodes, arcs, g, q, s, nodes[cursor].id, back);
    WalkEndsAt(g, q, from, s, nodes[cursor].id);
    WalkEndsAt(g, q, from, s, nodes[back.node].id);
    RetraceStep(nodes, arcs, ids, g, q, s, w, trail, edges, cursor, back);
  }

  ghost predicate EndsRight(s: Search, x: string) {
    x in s.walks && s.walks[x] != [] && Last(s.walks[x]) == x
  }

  lemma WalkEndsAt(g: View, q: Query, source: string, s: Search, x: string)
    requires SearchInv(g, q, source, s) && x in s.walks
    ensures EndsRight(s, x)
  {
  }

  lemma RetracedIsAnswer(g: View, q: Query, source: string, target: string, w: seq<string>, trail: seq<Node>,
                         edges: seq<Edge>)
    requires Least(g, q, source, target, w)
    requires Retraced(g, q, w, trail, edges) && |trail| == |w|
    ensures IsAnswer(g, q, source, target, GraphPath(Reversed(trail), Reversed(edges)))
  {
    var nodes, links := Reversed(trail), Reversed(edges);
    forall i | 0 <= i < |nodes|
      ensures nodes[i].id == w[i] && nodes[i].id in g.kinds && nodes[i].kind == g.kinds[nodes[i].id]
    {
      assert nodes[i] == trail[|trail| - 1 - i];
    }
    assert Ids(nodes) == w;
    forall i | 0 <= i < |links|
      ensures HopEdge(g, q, nodes[i].id, nodes[i + 1].id, KeyOf(links[i])) && links[i] == EdgeOf(g, KeyOf(links[i]))
    {
      assert links[i] == edges[|edges| - 1 - i];
      assert nodes[i].id == w[i] && nodes[i + 1].id == w[i + 1];
    }
  }

  /** Ids are discovered once, and only ids of the graph: the search is bounded by the graph. */
  lemma DoneIsBounded(g: View, q: Query, source: string, s: Search)
    requires WellFormed(g) && SearchInv(g, q, source, s)
    ensures |s.order| <= |g.kinds|
  {
    forall x | x in s.order ensures x in g.kinds {
      WalkStaysInside(g, q, s.walks[x]);
      WalkEndsAt(g, q, source, s, x);
    }
    forall i, j | 0 <= i < j < |s.order| ensures s.order[i] != s.order[j] {
      BeforeIsStrict(s.walks[s.order[i]], s.walks[s.order[j]]);
    }
    DistinctAreFew(s.order, g.kinds.Keys);
    assert |g.kinds.Keys| == |g.kinds|;
  }

  lemma {:induction false} DistinctAreFew(s: seq<string>, all: set<string>)
    requires forall i, j :: 0 <= i < j < |s| ==> s[i] != s[j]
    requires forall x :: x in s ==> x in all
    ensures |s| <= |all|
  {
    if s != [] {
      assert s[0] in all;
      forall x | x in s[1..] ensures x in all - {s[0]} {
        var i :| 0 <= i < |s| - 1 && s[1..][i] == x;
        assert s[i + 1] == x;
      }
      DistinctAreFew(s[1..], all - {s[0]});
    }
  }
}
