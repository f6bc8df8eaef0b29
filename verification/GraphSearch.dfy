/**
 * Walks over the graph value and what breadth-first search knows about them.
 * The search state is the list of discovered ids with the walk each was discovered by.
 */
module GraphSearch {
  import opened Wrappers
  import opened Ordering
  import opened GraphModel

  datatype Direction = Outgoing | Incoming | Both

  datatype Query = Query(relation: Option<string>, direction: Direction)

  predicate Selected(q: Query, relation: string) {
    q.relation == None || q.relation.value == relation
  }

  /** The edge `k` lets a walk go from `a` to `b`. */
  predicate Admits(q: Query, k: Key, a: string, b: string) {
    && Selected(q, k.relation)
    && ((q.direction != Incoming && k.from == a && k.to == b)
        || (q.direction != Outgoing && k.from == b && k.to == a))
  }

  ghost predicate Adjacent(g: View, q: Query, a: string, b: string) {
    exists k :: k in g.edges && Admits(q, k, a, b)
  }

  ghost predicate IsWalk(g: View, q: Query, w: seq<string>) {
    && w != [] && w[0] in g.kinds
    && forall i, j :: 0 <= i < j < |w| && j == i + 1 ==> Adjacent(g, q, w[i], w[j])
  }

  ghost predicate WalkTo(g: View, q: Query, source: string, target: string, w: seq<string>) {
    IsWalk(g, q, w) && w[0] == source && w[|w| - 1] == target
  }

  lemma WalkExtends(g: View, q: Query, source: string, a: string, b: string, w: seq<string>)
    requires WalkTo(g, q, source, a, w) && Adjacent(g, q, a, b)
    ensures WalkTo(g, q, source, b, w + [b])
  {
    var v := w + [b];
    forall i, j | 0 <= i < j < |v| && j == i + 1 ensures Adjacent(g, q, v[i], v[j]) {
      if j == |w| {
        assert v[i] == a && v[j] == b;
      }
    }
  }

  function Init(w: seq<string>): seq<string>
    requires w != []
  {
    w[..|w| - 1]
  }

  function Last(w: seq<string>): string
    requires w != []
  {
    w[|w| - 1]
  }

  lemma WalkShortens(g: View, q: Query, source: string, target: string, w: seq<string>)
    requires WalkTo(g, q, source, target, w) && |w| > 1
    ensures WalkTo(g, q, source, Last(Init(w)), Init(w)) && Adjacent(g, q, Last(Init(w)), target)
    ensures w == Init(w) + [target]
  {
    assert Adjacent(g, q, w[|w| - 2], w[|w| - 1]);
  }

  lemma {:induction false} WalkStaysInside(g: View, q: Query, w: seq<string>)
    requires WellFormed(g) && IsWalk(g, q, w)
    ensures forall i :: 0 <= i < |w| ==> w[i] in g.kinds
  {
    if |w| > 1 {
      WalkShortens(g, q, w[0], Last(w), w);
      WalkStaysInside(g, q, Init(w));
    }
  }

  /** The least walk to `target`: no walk is shorter, and none of its length comes first by ids. */
  ghost predicate Least(g: View, q: Query, source: string, target: string, w: seq<string>) {
    && WalkTo(g, q, source, target, w)
    && forall v :: WalkTo(g, q, source, target, v) ==> NotAfter(w, v)
  }

  lemma LeastIsUnique(g: View, q: Query, source: string, target: string, w: seq<string>, v: seq<string>)
    requires Least(g, q, source, target, w) && Least(g, q, source, target, v)
    ensures w == v
  {
    assert NotAfter(w, v) && NotAfter(v, w);
    if w != v {
      BeforeIsStrict(w, v);
    }
  }

  // ---- the search ----

  /** Discovered ids in order, the walk that discovered each, and how many are fully expanded. */
  datatype Search = Search(order: seq<string>, walks: map<string, seq<string>>, done: nat)

  ghost predicate Discovered(g: View, q: Query, source: string, s: Search) {
    && s.order != [] && s.order[0] == source && source in g.kinds
    && s.done <= |s.order|
    && (forall x :: x in s.walks <==> x in s.order)
    && s.walks[source] == [source]
    && (forall x :: x in s.walks ==> Least(g, q, source, x, s.walks[x]))
  }

  /** Ids are discovered in the order of their least walks. */
  ghost predicate InOrder(s: Search)
    requires forall x :: x in s.order ==> x in s.walks
  {
    forall i, j :: 0 <= i < j < |s.order| ==> Before(s.walks[s.order[i]], s.walks[s.order[j]])
  }

  /** Expanded ids have all their successors discovered. */
  ghost predicate Expanded(g: View, q: Query, s: Search)
    requires s.done <= |s.order|
  {
    forall i, b :: 0 <= i < s.done && Adjacent(g, q, s.order[i], b) ==> b in s.walks
  }

  /** No walk was found by way of an id that comes after the one being expanded. */
  ghost predicate ParentsCome(s: Search)
    requires forall x :: x in s.order ==> x in s.walks
  {
    s.done < |s.order| ==>
      forall x :: x in s.walks && |s.walks[x]| > 1 ==>
                    NotAfter(Init(s.walks[x]), s.walks[s.order[s.done]])
  }

  /** Nothing has been discovered yet by way of the id to expand next. */
  ghost predicate NothingFromNext(s: Search)
    requires forall x :: x in s.order ==> x in s.walks
  {
    s.done < |s.order| ==>
      forall x :: x in s.walks && |s.walks[x]| > 1 ==>
                    Before(Init(s.walks[x]), s.walks[s.order[s.done]])
  }

  ghost predicate SearchInv(g: View, q: Query, source: string, s: Search) {
    Discovered(g, q, source, s) && InOrder(s) && Expanded(g, q, s) && ParentsCome(s)
  }

  function Start(source: string): Search {
    Search([source], map[source := [source]], 0)
  }

  function Discover(s: Search, b: string): Search
    requires s.done < |s.order| && s.order[s.done] in s.walks
  {
    s.(order := s.order + [b], walks := s.walks[b := s.walks[s.order[s.done]] + [b]])
  }

  lemma StartHolds(g: View, q: Query, source: string)
    requires source in g.kinds
    ensures SearchInv(g, q, source, Start(source)) && NothingFromNext(Start(source))
  {
    forall v | WalkTo(g, q, source, source, v) ensures NotAfter([source], v) {
      if |v| == 1 {
        assert v == [source];
      }
    }
    assert WalkTo(g, q, source, source, [source]);
  }

  /** A walk that leaves the discovered ids is longer than the walk to the id being expanded. */
  lemma {:induction false} LeavingIsLonger(g: View, q: Query, source: string, s: Search, x: string, w: seq<string>)
    requires SearchInv(g, q, source, s) && s.done < |s.order|
    requires WalkTo(g, q, source, x, w) && x !in s.walks
    ensures |s.walks[s.order[s.done]]| < |w|
    decreases |w|
  {
    assert source in s.order;
    assert |w| > 1;
    WalkShortens(g, q, source, x, w);
    var m := Last(Init(w));
    if m !in s.walks {
      LeavingIsLonger(g, q, source, s, m, Init(w));
    } else {
      CurrentIsNoLater(g, q, source, s, m, x);
      assert NotAfter(s.walks[m], Init(w));
    }
  }

  /** An id with an undiscovered successor has not been expanded, so the current one is no later. */
  lemma CurrentIsNoLater(g: View, q: Query, source: string, s: Search, m: string, x: string)
    requires SearchInv(g, q, source, s) && s.done < |s.order|
    requires m in s.walks && Adjacent(g, q, m, x) && x !in s.walks
    ensures NotAfter(s.walks[s.order[s.done]], s.walks[m])
  {
    var i :| 0 <= i < |s.order| && s.order[i] == m;
    assert i >= s.done;
  }

  /** The walk through the id being expanded is the least one to a newly discovered id. */
  lemma DiscoveryIsLeast(g: View, q: Query, source: string, s: Search, b: string)
    requires SearchInv(g, q, source, s) && s.done < |s.order|
    requires Adjacent(g, q, s.order[s.done], b) && b !in s.walks
    ensures Least(g, q, source, b, s.walks[s.order[s.done]] + [b])
  {
    var c := s.order[s.done];
    var p := s.walks[c];
    assert c in s.walks;
    WalkExtends(g, q, source, c, b, p);
    forall v | WalkTo(g, q, source, b, v) ensures NotAfter(p + [b], v) {
      assert source in s.order;
      WalkShortens(g, q, source, b, v);
      var m := Last(Init(v));
      if m !in s.walks {
        LeavingIsLonger(g, q, source, s, m, Init(v));
      } else {
        CurrentIsNoLater(g, q, source, s, m, b);
        assert NotAfter(s.walks[m], Init(v));
        if p != s.walks[m] && s.walks[m] != Init(v) {
          BeforeIsTransitive(p, s.walks[m], Init(v));
        }
        if p != Init(v) {
          BeforeExtends(p, Init(v), b, b);
        }
      }
    }
  }

  /** Every walk known so far comes before the one to a new id, if siblings come in id order. */
  lemma DiscoveryIsLast(g: View, q: Query, source: string, s: Search, b: string, x: string)
    requires SearchInv(g, q, source, s) && s.done < |s.order|
    requires b !in s.walks && x in s.walks
    requires |s.walks[x]| > 1 && Init(s.walks[x]) == s.walks[s.order[s.done]] ==> Less(x, b)
    ensures Before(s.walks[x], s.walks[s.order[s.done]] + [b])
  {
    var p, w := s.walks[s.order[s.done]], s.walks[x];
    assert s.order[s.done] in s.walks;
    WalkIsExtended(g, q, source, s, x);
    NewWalkIsLater(p, w, x, b);
  }

  lemma WalkIsExtended(g: View, q: Query, source: string, s: Search, x: string)
    requires SearchInv(g, q, source, s) && s.done < |s.order| && x in s.walks
    ensures s.order[s.done] in s.walks && s.walks[x] != [] && s.walks[s.order[s.done]] != []
    ensures |s.walks[x]| > 1 ==>
              && s.walks[x] == Init(s.walks[x]) + [x]
              && NotAfter(Init(s.walks[x]), s.walks[s.order[s.done]])
  {
    assert s.order[s.done] in s.walks;
    assert Least(g, q, source, x, s.walks[x]);
  }

  lemma NewWalkIsLater(p: seq<string>, w: seq<string>, x: string, b: string)
    requires w != [] && p != []
    requires |w| > 1 ==> w == Init(w) + [x] && NotAfter(Init(w), p) && (Init(w) == p ==> Less(x, b))
    ensures Before(w, p + [b])
  {
    if |w| > 1 {
      if Init(w) == p {
        LastDecides(p, x, b);
      } else {
        BeforeExtends(Init(w), p, x, b);
      }
    }
  }

  lemma DiscoverKeeps(g: View, q: Query, source: string, s: Search, b: string)
    requires SearchInv(g, q, source, s) && s.done < |s.order|
    requires Adjacent(g, q, s.order[s.done], b) && b !in s.walks
    requires forall x :: x in s.walks && |s.walks[x]| > 1 && Init(s.walks[x]) == s.walks[s.order[s.done]] ==> Less(x, b)
    ensures SearchInv(g, q, source, Discover(s, b))
  {
    var t := Discover(s, b);
    var c := s.order[s.done];
    DiscoveryIsLeast(g, q, source, s, b);
    assert source in s.order && c in s.walks;
    forall x ensures x in t.walks <==> x in t.order {
      assert x in t.order <==> x in s.order || x == b;
    }
    forall x | x in t.walks ensures Least(g, q, source, x, t.walks[x]) {
      assert x != b ==> t.walks[x] == s.walks[x];
    }
    DiscoveryInOrder(g, q, source, s, b);
    forall i, d | 0 <= i < t.done && Adjacent(g, q, t.order[i], d) ensures d in t.walks {
      assert t.order[i] == s.order[i];
    }
    forall x | x in t.walks && |t.walks[x]| > 1 ensures NotAfter(Init(t.walks[x]), t.walks[t.order[t.done]]) {
      if x == b {
        assert Init(t.walks[b]) == s.walks[c];
      }
    }
  }

  lemma DiscoveryInOrder(g: View, q: Query, source: string, s: Search, b: string)
    requires SearchInv(g, q, source, s) && s.done < |s.order|
    requires Adjacent(g, q, s.order[s.done], b) && b !in s.walks
    requires forall x :: x in s.walks && |s.walks[x]| > 1 && Init(s.walks[x]) == s.walks[s.order[s.done]] ==> Less(x, b)
    ensures (forall x :: x in Discover(s, b).order ==> x in Discover(s, b).walks) && InOrder(Discover(s, b))
  {
    var t := Discover(s, b);
    forall i, j | 0 <= i < j < |t.order| ensures Before(t.walks[t.order[i]], t.walks[t.order[j]]) {
      assert t.order[i] in s.walks;
      if j < |s.order| {
        assert t.order[j] in s.walks;
      } else {
        DiscoveryIsLast(g, q, source, s, b, t.order[i]);
      }
    }
  }

  lemma AdvanceOrders(s: Search)
    requires forall x :: x in s.order ==> x in s.walks
    requires InOrder(s) && ParentsCome(s) && s.done + 1 < |s.order|
    ensures NothingFromNext(s.(done := s.done + 1)) && ParentsCome(s.(done := s.done + 1))
  {
    var c, d := s.walks[s.order[s.done]], s.walks[s.order[s.done + 1]];
    assert Before(c, d);
    forall x | x in s.walks && |s.walks[x]| > 1 ensures Before(Init(s.walks[x]), d) {
      if Init(s.walks[x]) != c {
        BeforeIsTransitive(Init(s.walks[x]), c, d);
      }
    }
  }

  lemma AdvanceExpands(g: View, q: Query, s: Search)
    requires s.done < |s.order| && Expanded(g, q, s)
    requires forall b :: Adjacent(g, q, s.order[s.done], b) ==> b in s.walks
    ensures Expanded(g, q, s.(done := s.done + 1))
  {
  }

  lemma AdvanceKeeps(g: View, q: Query, source: string, s: Search)
    requires SearchInv(g, q, source, s) && s.done < |s.order|
    requires forall b :: Adjacent(g, q, s.order[s.done], b) ==> b in s.walks
    ensures SearchInv(g, q, source, s.(done := s.done + 1)) && NothingFromNext(s.(done := s.done + 1))
  {
    var t := s.(done := s.done + 1);
    AdvanceExpands(g, q, s);
    if t.done < |t.order| {
      AdvanceOrders(s);
    }
    assert Discovered(g, q, source, t);
    assert InOrder(t);
  }

  /** When nothing is left to expand, every reachable id has been discovered. */
  lemma {:induction false} ExhaustionIsComplete(g: View, q: Query, source: string, s: Search, x: string, w: seq<string>)
    requires SearchInv(g, q, source, s) && s.done == |s.order|
    requires WalkTo(g, q, source, x, w)
    ensures x in s.walks
    decreases |w|
  {
    assert source in s.order;
    if |w| > 1 {
      WalkShortens(g, q, source, x, w);
      var m := Last(Init(w));
      ExhaustionIsComplete(g, q, source, s, m, Init(w));
      var i :| 0 <= i < |s.order| && s.order[i] == m;
    }
  }

  // ---- the answer to a shortest-path query ----

  datatype GraphPath = GraphPath(nodes: seq<Node>, edges: seq<Edge>)

  function Ids(nodes: seq<Node>): (r: seq<string>)
    ensures |r| == |nodes| && forall i :: 0 <= i < |r| ==> r[i] == nodes[i].id
  {
    seq(|nodes|, i requires 0 <= i < |nodes| => nodes[i].id)
  }

  /** Among parallel edges: the smaller relation first, then the one that leaves `a`. */
  predicate HopBefore(a: string, j: Key, k: Key) {
    Less(j.relation, k.relation) || (j.relation == k.relation && j.from == a && k.from != a)
  }

  /** `k` is the edge the search takes from `a` to `b`. */
  ghost predicate HopEdge(g: View, q: Query, a: string, b: string, k: Key) {
    && k in g.edges && Admits(q, k, a, b)
    && forall j :: j in g.edges && Admits(q, j, a, b) && j != k ==> HopBefore(a, k, j)
  }

  ghost predicate IsAnswer(g: View, q: Query, source: string, target: string, path: GraphPath) {
    && Least(g, q, source, target, Ids(path.nodes))
    && (forall i {:trigger path.nodes[i]} :: 0 <= i < |path.nodes| ==>
                      path.nodes[i].id in g.kinds && path.nodes[i].kind == g.kinds[path.nodes[i].id])
    && |path.edges| == |path.nodes| - 1
    && (forall i {:trigger path.edges[i]} :: 0 <= i < |path.edges| ==>
                      && HopEdge(g, q, path.nodes[i].id, path.nodes[i + 1].id, KeyOf(path.edges[i]))
                      && path.edges[i] == EdgeOf(g, KeyOf(path.edges[i])))
  }

  lemma HopEdgeIsUnique(g: View, q: Query, a: string, b: string, j: Key, k: Key)
    requires HopEdge(g, q, a, b, j) && HopEdge(g, q, a, b, k)
    ensures j == k
  {
    if j != k {
      assert HopBefore(a, j, k) && HopBefore(a, k, j);
      if Less(j.relation, k.relation) {
        LessIsStrict(j.relation, k.relation);
      } else if Less(k.relation, j.relation) {
        LessIsStrict(k.relation, j.relation);
      }
    }
  }

  /** The graph value fixes the whole answer, nodes and edges: insertion order cannot show. */
  lemma AnswerIsUnique(g: View, q: Query, source: string, target: string, a: GraphPath, b: GraphPath)
    requires IsAnswer(g, q, source, target, a) && IsAnswer(g, q, source, target, b)
    ensures a == b
  {
    LeastIsUnique(g, q, source, target, Ids(a.nodes), Ids(b.nodes));
    assert |a.nodes| == |Ids(a.nodes)| == |Ids(b.nodes)| == |b.nodes|;
    forall i | 0 <= i < |a.nodes| ensures a.nodes[i] == b.nodes[i] {
      assert Ids(a.nodes)[i] == Ids(b.nodes)[i];
    }
    assert a.nodes == b.nodes;
    forall i | 0 <= i < |a.edges| ensures a.edges[i] == b.edges[i] {
      HopEdgeIsUnique(g, q, a.nodes[i].id, a.nodes[i + 1].id, KeyOf(a.edges[i]), KeyOf(b.edges[i]));
    }
  }

  /** A least walk meets no id twice: the answer is a path. */
  lemma LeastWalkIsSimple(g: View, q: Query, source: string, target: string, w: seq<string>)
    requires Least(g, q, source, target, w)
    ensures forall i, j :: 0 <= i < j < |w| ==> w[i] != w[j]
  {
    forall i, j | 0 <= i < j < |w| ensures w[i] != w[j] {
      if w[i] == w[j] {
        var v := w[..i] + w[j..];
        forall m, n | 0 <= m < n < |v| && n == m + 1 ensures Adjacent(g, q, v[m], v[n]) {
          if m >= i {
            assert v[m] == w[m + (j - i)] && v[n] == w[n + (j - i)];
          } else if n == i {
            assert v[m] == w[m] && v[n] == w[j] == w[n];
          } else {
            assert v[m] == w[m] && v[n] == w[n];
          }
        }
        assert v[|v| - 1] == target && v[0] == source;
        assert WalkTo(g, q, source, target, v);
      }
    }
  }
}
