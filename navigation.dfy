// What the multi-floor router reads: floors with their devices, the
// navigation anchors, edge weights brought up to date, the candidate nodes
// near an anchor and the index of elevator groups.

module Navigation {
  import opened Wrappers
  import opened Geometry
  import opened LevelGraph
  import opened GraphDoc

  /** The `type` of an elevator entry: a lift, or anything else (stairs). */
  datatype Kind = Lift | Stairs

  /** An elevator or staircase entry of a floor: kind, connection anchor, optional group id. */
  datatype Device = Device(kind: Kind, anchor: Point, group: Option<string>)

  /** A device takes part in transfers only when its group id is truthy. */
  predicate Grouped(d: Device)
  {
    d.group.Some? && d.group.value != ""
  }

  /** One floor as the router reads it: its graph and its devices. */
  datatype Level = Level(nodes: map<int, Node>, order: seq<int>, edges: seq<Edge>, devices: seq<Device>)

  /** The node dict of a floor keeps its shape. */
  predicate LevelShaped(v: Level)
  {
    Keyed(v.nodes) && OrderOf(v.order, v.nodes)
  }

  /** Every floor's node dict keeps its shape. */
  predicate LevelsShaped(levels: map<int, Level>)
  {
    forall f :: f in levels ==> LevelShaped(levels[f])
  }

  /** The nodes of a floor in dict order. */
  function NodeList(v: Level): seq<Node>
    requires LevelShaped(v)
  {
    Entries(v.nodes, v.order)
  }

  /**
   * A navigation start or end: a room or device on a floor, with its own
   * position and, when it has one, a connection point on the corridor.
   */
  datatype NavPoint = NavPoint(floor: int, pos: Point, connection: Option<Point>)

  /** The point the router measures from: the connection point when there is one. */
  function Anchor(p: NavPoint): Point
  {
    if p.connection.Some? then p.connection.value else p.pos
  }

  /** Nodes within this distance of an anchor are candidates; also the reach of devices. */
  const NearRadius: real := 500.0

  // ---------------------------------------------------------------------
  // recalculate_all_edge_weights
  // ---------------------------------------------------------------------

  /** An edge after recalculation: the endpoint distance when both ends exist. */
  function Reweigh(e: Edge, nodes: map<int, Node>, dist: (Point, Point) -> real): Edge
  {
    if e.n1 in nodes && e.n2 in nodes then Edge(e.n1, e.n2, Some(dist(nodes[e.n1].pos, nodes[e.n2].pos)))
    else e
  }

  /** Every edge recalculated, in place and in order. */
  function Reweighed(edges: seq<Edge>, nodes: map<int, Node>, dist: (Point, Point) -> real): (r: seq<Edge>)
    ensures |r| == |edges|
  {
    seq(|edges|, i requires 0 <= i < |edges| => Reweigh(edges[i], nodes, dist))
  }

  /** Each edge between two existing nodes weighs exactly their distance. */
  predicate WeightsSettled(nodes: map<int, Node>, edges: seq<Edge>, dist: (Point, Point) -> real)
  {
    forall e :: e in edges && e.n1 in nodes && e.n2 in nodes ==>
      e.weight == Some(dist(nodes[e.n1].pos, nodes[e.n2].pos))
  }

  /**
   * Recalculation settles every weight, keeps every endpoint, and is
   * idempotent: a second pass changes nothing.
   */
  lemma ReweighedSettles(edges: seq<Edge>, nodes: map<int, Node>, dist: (Point, Point) -> real)
    ensures WeightsSettled(nodes, Reweighed(edges, nodes, dist), dist)
    ensures forall i :: 0 <= i < |edges| ==>
      Reweighed(edges, nodes, dist)[i].n1 == edges[i].n1 && Reweighed(edges, nodes, dist)[i].n2 == edges[i].n2
    ensures Reweighed(Reweighed(edges, nodes, dist), nodes, dist) == Reweighed(edges, nodes, dist)
  {
    var r := Reweighed(edges, nodes, dist);
    forall e | e in r && e.n1 in nodes && e.n2 in nodes
      ensures e.weight == Some(dist(nodes[e.n1].pos, nodes[e.n2].pos))
    {
      var i :| 0 <= i < |r| && r[i] == e;
      assert r[i] == Reweigh(edges[i], nodes, dist);
    }
  }

  /** Recalculating weights keeps the graph invariant: only weights change. */
  lemma ReweighedKeepsInvariant(nodes: map<int, Node>, order: seq<int>, edges: seq<Edge>, next: int,
                                dist: (Point, Point) -> real)
    requires GraphInvariant(nodes, order, edges, next)
    ensures GraphInvariant(nodes, order, Reweighed(edges, nodes, dist), next)
  {
    var r := Reweighed(edges, nodes, dist);
    ReweighedSettles(edges, nodes, dist);
    forall e | e in r ensures e.n1 in nodes && e.n2 in nodes {
      var i :| 0 <= i < |r| && r[i] == e;
      assert edges[i] in edges;
    }
    forall i, j | 0 <= i < j < |r| ensures !Joins(r[j], r[i].n1, r[i].n2) {
      assert !Joins(edges[j], edges[i].n1, edges[i].n2);
    }
  }

  /**
   * Recalculation on one floor's graph: every edge between existing nodes
   * gets their distance as its weight, in place; nothing else changes.
   */
  method RecalculateEdgeWeights(g: Graph, dist: (Point, Point) -> real)
    modifies g
    ensures g.edges == Reweighed(old(g.edges), old(g.nodes), dist)
    ensures g.nodes == old(g.nodes) && g.order == old(g.order)
    ensures g.name == old(g.name) && g.nextNodeId == old(g.nextNodeId)
  {
    var i := 0;
    while i < |g.edges|
      invariant 0 <= i <= |g.edges| == |old(g.edges)|
      invariant g.nodes == old(g.nodes) && g.order == old(g.order)
      invariant g.name == old(g.name) && g.nextNodeId == old(g.nextNodeId)
      invariant forall k :: 0 <= k < i ==> g.edges[k] == Reweigh(old(g.edges)[k], g.nodes, dist)
      invariant forall k :: i <= k < |g.edges| ==> g.edges[k] == old(g.edges)[k]
    {
      var e := g.edges[i];
      if e.n1 in g.nodes && e.n2 in g.nodes {
        var d := dist(g.nodes[e.n1].pos, g.nodes[e.n2].pos);
        if e.weight != Some(d) {
          g.edges := g.edges[i := Edge(e.n1, e.n2, Some(d))];
        }
      }
      i := i + 1;
    }
  }

  /**
   * `recalculate_all_edge_weights`: the recalculation on every floor's graph,
   * floor by floor in the order of the floors dict (each floor owns its graph).
   */
  method RecalculateAllEdgeWeights(graphs: map<int, Graph>, floorOrder: seq<int>, dist: (Point, Point) -> real)
    requires Distinct(floorOrder) && forall f :: f in graphs <==> f in floorOrder
    requires forall f, h :: f in graphs && h in graphs && f != h ==> graphs[f] != graphs[h]
    modifies set f | f in graphs :: graphs[f]
    ensures forall f :: f in graphs ==>
      graphs[f].edges == Reweighed(old(graphs[f].edges), old(graphs[f].nodes), dist)
      && graphs[f].nodes == old(graphs[f].nodes) && graphs[f].order == old(graphs[f].order)
      && graphs[f].name == old(graphs[f].name) && graphs[f].nextNodeId == old(graphs[f].nextNodeId)
  {
    var i := 0;
    while i < |floorOrder|
      invariant 0 <= i <= |floorOrder|
      invariant forall f :: f in graphs && f in floorOrder[..i] ==>
        graphs[f].edges == Reweighed(old(graphs[f].edges), old(graphs[f].nodes), dist)
        && graphs[f].nodes == old(graphs[f].nodes) && graphs[f].order == old(graphs[f].order)
        && graphs[f].name == old(graphs[f].name) && graphs[f].nextNodeId == old(graphs[f].nextNodeId)
      invariant forall f :: f in graphs && f !in floorOrder[..i] ==>
        graphs[f].edges == old(graphs[f].edges)
        && graphs[f].nodes == old(graphs[f].nodes) && graphs[f].order == old(graphs[f].order)
        && graphs[f].name == old(graphs[f].name) && graphs[f].nextNodeId == old(graphs[f].nextNodeId)
    {
      var f := floorOrder[i];
      assert f in floorOrder;
      RecalculateEdgeWeights(graphs[f], dist);
      assert floorOrder[..i + 1] == floorOrder[..i] + [f];
      assert forall k :: 0 <= k < i ==> floorOrder[k] != f;
      i := i + 1;
    }
    assert floorOrder[..i] == floorOrder;
  }

  // ---------------------------------------------------------------------
  // get_nodes_near_point
  // ---------------------------------------------------------------------

  /** A candidate node and its distance from the anchor. */
  datatype Near = Near(id: int, dist: real)

  /** The candidates among the first n nodes: those strictly within the radius, in order. */
  function WithinRadius(ns: seq<Node>, anchor: Point, dist: (Point, Point) -> real, n: nat): seq<Near>
    requires n <= |ns|
  {
    if n == 0 then []
    else
      WithinRadius(ns, anchor, dist, n - 1)
      + if dist(ns[n - 1].pos, anchor) < NearRadius then [Near(ns[n - 1].id, dist(ns[n - 1].pos, anchor))] else []
  }

  /** Ascending by distance. */
  predicate ByDistance(r: seq<Near>)
  {
    forall i, j :: 0 <= i < j < |r| ==> r[i].dist <= r[j].dist
  }

  /** Inserts x after every entry not farther than it: one step of a stable sort. */
  function InsertByDistance(r: seq<Near>, x: Near): seq<Near>
  {
    if r == [] then [x]
    else if x.dist < r[0].dist then [x] + r
    else [r[0]] + InsertByDistance(r[1..], x)
  }

  /** Insertion adds exactly x to the entries. */
  lemma {:induction false} InsertByDistanceMultiset(r: seq<Near>, x: Near)
    ensures multiset(InsertByDistance(r, x)) == multiset(r) + multiset{x}
  {
    if r != [] && x.dist >= r[0].dist {
      assert r == [r[0]] + r[1..];
      InsertByDistanceMultiset(r[1..], x);
    }
  }

  /** Every entry after insertion was there before or is x. */
  lemma {:induction false} InsertByDistanceMembers(r: seq<Near>, x: Near)
    ensures forall y :: y in InsertByDistance(r, x) ==> y in r || y == x
  {
    if r != [] && x.dist >= r[0].dist {
      InsertByDistanceMembers(r[1..], x);
      forall y | y in r[1..] ensures y in r {
        var k :| 0 <= k < |r[1..]| && r[1..][k] == y;
        assert r[k + 1] == y;
      }
    }
  }

  /** Insertion keeps an ascending list ascending. */
  lemma {:induction false} InsertByDistanceSorted(r: seq<Near>, x: Near)
    requires ByDistance(r)
    ensures ByDistance(InsertByDistance(r, x))
  {
    if r != [] && x.dist >= r[0].dist {
      var tail := r[1..];
      var t := InsertByDistance(tail, x);
      assert ByDistance(tail) by {
        forall i, j | 0 <= i < j < |tail| ensures tail[i].dist <= tail[j].dist {
          assert tail[i] == r[i + 1] && tail[j] == r[j + 1];
        }
      }
      InsertByDistanceSorted(tail, x);
      InsertByDistanceMembers(tail, x);
      forall y | y in t ensures r[0].dist <= y.dist {
        if y != x {
          var k :| 0 <= k < |tail| && tail[k] == y;
          assert r[k + 1] == y;
        }
      }
      var s := [r[0]] + t;
      forall i, j | 0 <= i < j < |s| ensures s[i].dist <= s[j].dist {
        if i > 0 {
          assert s[i] == t[i - 1] && s[j] == t[j - 1];
        } else {
          assert s[j] in t;
        }
      }
    } else if r != [] {
      var s := [x] + r;
      forall i, j | 0 <= i < j < |s| ensures s[i].dist <= s[j].dist {
        assert s[j] == r[j - 1];
        if i > 0 {
          assert s[i] == r[i - 1];
        } else {
          assert r[0].dist <= r[j - 1].dist;
        }
      }
    }
  }

  /** The stable sort by distance of the first n entries (`list.sort` with the distance key). */
  function SortByDistance(xs: seq<Near>, n: nat): seq<Near>
    requires n <= |xs|
  {
    if n == 0 then [] else InsertByDistance(SortByDistance(xs, n - 1), xs[n - 1])
  }

  lemma MultisetSnoc(xs: seq<Near>, n: nat)
    requires 0 < n <= |xs|
    ensures multiset(xs[..n]) == multiset(xs[..n - 1]) + multiset{xs[n - 1]}
  {
    assert xs[..n] == xs[..n - 1] + [xs[n - 1]];
  }

  /** The sort is a permutation of what it sorts. */
  lemma {:induction false} SortByDistancePermutes(xs: seq<Near>, n: nat)
    requires n <= |xs|
    ensures multiset(SortByDistance(xs, n)) == multiset(xs[..n])
  {
    if n > 0 {
      var prev := SortByDistance(xs, n - 1);
      SortByDistancePermutes(xs, n - 1);
      assert xs[..n] == xs[..n - 1] + [xs[n - 1]];
      InsertPermutes(prev, xs[n - 1], xs[..n - 1], xs[..n]);
      assert SortByDistance(xs, n) == InsertByDistance(prev, xs[n - 1]);
    }
  }

  /** Inserting x into a permutation of before gives a permutation of before with x appended. */
  lemma InsertPermutes(prev: seq<Near>, x: Near, before: seq<Near>, after: seq<Near>)
    requires multiset(prev) == multiset(before) && after == before + [x]
    ensures multiset(InsertByDistance(prev, x)) == multiset(after)
  {
    InsertByDistanceMultiset(prev, x);
  }

  /** Sorting loses no candidate: a non-empty list sorts to a non-empty one. */
  lemma SortedNonEmpty(xs: seq<Near>)
    requires xs != []
    ensures SortByDistance(xs, |xs|) != []
  {
    SortedMembers(xs);
    assert xs[0] in xs;
  }

  /** The sorted list holds exactly the entries of the list sorted. */
  lemma SortedMembers(xs: seq<Near>)
    ensures forall x :: x in SortByDistance(xs, |xs|) <==> x in xs
  {
    SortByDistancePermutes(xs, |xs|);
    assert xs[..|xs|] == xs;
    forall x
      ensures x in SortByDistance(xs, |xs|) <==> x in xs
    {
      assert x in SortByDistance(xs, |xs|) <==> x in multiset(SortByDistance(xs, |xs|));
      assert x in xs <==> x in multiset(xs);
    }
  }

  /** The sort is ascending. */
  lemma {:induction false} SortByDistanceSorted(xs: seq<Near>, n: nat)
    requires n <= |xs|
    ensures ByDistance(SortByDistance(xs, n))
  {
    if n > 0 {
      SortByDistanceSorted(xs, n - 1);
      InsertByDistanceSorted(SortByDistance(xs, n - 1), xs[n - 1]);
    }
  }

  /** A candidate entry is a node of the list within the radius, with its distance. */
  lemma {:induction false} WithinRadiusMembers(ns: seq<Node>, anchor: Point, dist: (Point, Point) -> real, n: nat)
    requires n <= |ns|
    ensures forall x :: x in WithinRadius(ns, anchor, dist, n) <==>
      exists i :: 0 <= i < n && x == Near(ns[i].id, dist(ns[i].pos, anchor)) && x.dist < NearRadius
  {
    if n > 0 {
      WithinRadiusMembers(ns, anchor, dist, n - 1);
      var prev := WithinRadius(ns, anchor, dist, n - 1);
      forall x ensures x in WithinRadius(ns, anchor, dist, n) <==>
        exists i :: 0 <= i < n && x == Near(ns[i].id, dist(ns[i].pos, anchor)) && x.dist < NearRadius
      {
        if x in prev {
          var i :| 0 <= i < n - 1 && x == Near(ns[i].id, dist(ns[i].pos, anchor)) && x.dist < NearRadius;
          assert 0 <= i < n && x == Near(ns[i].id, dist(ns[i].pos, anchor)) && x.dist < NearRadius;
        }
        if exists i :: 0 <= i < n && x == Near(ns[i].id, dist(ns[i].pos, anchor)) && x.dist < NearRadius {
          var i :| 0 <= i < n && x == Near(ns[i].id, dist(ns[i].pos, anchor)) && x.dist < NearRadius;
          if i < n - 1 {
            assert x in prev;
          }
        }
      }
    }
  }

  /**
   * The sorted candidates of a floor are exactly its nodes strictly within
   * the radius, each with its distance, ascending, each node at most once.
   */
  lemma NearbyMeaning(v: Level, anchor: Point, dist: (Point, Point) -> real)
    requires LevelShaped(v)
    ensures var ns := NodeList(v);
      var r := SortByDistance(WithinRadius(ns, anchor, dist, |ns|), |WithinRadius(ns, anchor, dist, |ns|)|);
      ByDistance(r)
      && (forall x :: x in r <==>
            x.id in v.nodes && x.dist == dist(v.nodes[x.id].pos, anchor) && x.dist < NearRadius)
  {
    var ns := NodeList(v);
    var w := WithinRadius(ns, anchor, dist, |ns|);
    SortByDistanceSorted(w, |w|);
    SortedMembers(w);
    WithinRadiusMeaning(v, anchor, dist);
  }

  /** The candidates of a floor are exactly its nodes strictly within the radius, with their distances. */
  lemma WithinRadiusMeaning(v: Level, anchor: Point, dist: (Point, Point) -> real)
    requires LevelShaped(v)
    ensures var ns := NodeList(v);
      forall x :: x in WithinRadius(ns, anchor, dist, |ns|) <==>
        x.id in v.nodes && x.dist == dist(v.nodes[x.id].pos, anchor) && x.dist < NearRadius
  {
    var ns := NodeList(v);
    var w := WithinRadius(ns, anchor, dist, |ns|);
    WithinRadiusMembers(ns, anchor, dist, |ns|);
    forall x ensures x in w <==> x.id in v.nodes && x.dist == dist(v.nodes[x.id].pos, anchor) && x.dist < NearRadius {
      if x.id in v.nodes && x.dist == dist(v.nodes[x.id].pos, anchor) && x.dist < NearRadius {
        var k := x.id;
        assert k in v.order;
        var i :| 0 <= i < |v.order| && v.order[i] == k;
        assert ns[i] == v.nodes[k];
      }
    }
  }

  /** x names a node of the floor at minimal distance from the anchor. */
  predicate Nearest(v: Level, anchor: Point, dist: (Point, Point) -> real, x: Near)
  {
    x.id in v.nodes && x.dist == dist(v.nodes[x.id].pos, anchor)
    && forall k :: k in v.nodes ==> x.dist <= dist(v.nodes[k].pos, anchor)
  }

  /**
   * cands is what `get_nodes_near_point` gives for floor v and the anchor:
   * the nodes strictly within 500 sorted by distance; when there are none
   * and the floor has nodes, the single nearest node; empty only on an
   * empty floor; each entry a node at its own distance.
   */
  predicate NearCandidates(v: Level, anchor: Point, cands: seq<Near>, dist: (Point, Point) -> real)
    requires LevelShaped(v)
  {
    var ns := NodeList(v);
    var w := WithinRadius(ns, anchor, dist, |ns|);
    (w != [] ==> cands == SortByDistance(w, |w|))
    && (w == [] && v.order != [] ==> |cands| == 1 && Nearest(v, anchor, dist, cands[0]))
    && (cands == [] <==> v.order == [])
    && forall x :: x in cands ==> x.id in v.nodes && x.dist == dist(v.nodes[x.id].pos, anchor)
  }

  /**
   * `get_nodes_near_point` on the floor of a navigation point: the nodes
   * strictly within 500 of its anchor sorted by distance; when there are
   * none and the floor has nodes, the single nearest node instead.
   */
  method NodesNearPoint(v: Level, anchor: Point, dist: (Point, Point) -> real) returns (r: seq<Near>)
    requires LevelShaped(v)
    ensures NearCandidates(v, anchor, r, dist)
  {
    var ns := NodeList(v);
    var nearby: seq<Near> := [];
    var i := 0;
    while i < |ns|
      invariant 0 <= i <= |ns|
      invariant nearby == WithinRadius(ns, anchor, dist, i)
    {
      var d := dist(ns[i].pos, anchor);
      if d < NearRadius {
        nearby := nearby + [Near(ns[i].id, d)];
      }
      i := i + 1;
    }
    r := SortByDistance(nearby, |nearby|);
    if nearby != [] {
      SortedNonEmpty(nearby);
      NearbyMeaning(v, anchor, dist);
      assert forall x :: x in r ==> x.id in v.nodes && x.dist == dist(v.nodes[x.id].pos, anchor);
    }
    if r == [] && ns != [] {
      r := NearestNode(v, anchor, dist);
    }
    assert |ns| == |v.order|;
  }

  /** The fallback of `get_nodes_near_point`: the node at minimal distance, with no radius. */
  method NearestNode(v: Level, anchor: Point, dist: (Point, Point) -> real) returns (r: seq<Near>)
    requires LevelShaped(v) && NodeList(v) != []
    ensures |r| == 1 && Nearest(v, anchor, dist, r[0])
  {
    var ns := NodeList(v);
    var closest: Option<Node> := None;
    var minDist: real := 0.0;
    var j := 0;
    while j < |ns|
      invariant 0 <= j <= |ns|
      invariant closest.None? <==> j == 0
      invariant closest.Some? ==> closest.value in ns && minDist == dist(closest.value.pos, anchor)
      invariant forall k :: 0 <= k < j ==> minDist <= dist(ns[k].pos, anchor)
    {
      var d := dist(ns[j].pos, anchor);
      if closest.None? || d < minDist {
        minDist := d;
        closest := Some(ns[j]);
      }
      j := j + 1;
    }
    r := [Near(closest.value.id, minDist)];
    NearestFound(v, anchor, dist, closest.value, minDist);
  }

  /** The minimum over the node list is the nearest node of the floor. */
  lemma NearestFound(v: Level, anchor: Point, dist: (Point, Point) -> real, n: Node, d: real)
    requires LevelShaped(v)
    requires n in NodeList(v) && d == dist(n.pos, anchor)
    requires forall k :: 0 <= k < |NodeList(v)| ==> d <= dist(NodeList(v)[k].pos, anchor)
    ensures Nearest(v, anchor, dist, Near(n.id, d))
  {
    var ns := NodeList(v);
    var i :| 0 <= i < |ns| && ns[i] == n;
    assert n == v.nodes[v.order[i]];
    forall k | k in v.nodes ensures d <= dist(v.nodes[k].pos, anchor) {
      assert k in v.order;
      var j :| 0 <= j < |v.order| && v.order[j] == k;
      assert ns[j] == v.nodes[k];
    }
  }

  // ---------------------------------------------------------------------
  // build_elevator_connections
  // ---------------------------------------------------------------------

  /** The floors dict: its keys in insertion order, each once. */
  predicate Storeys(levels: map<int, Level>, floorOrder: seq<int>)
  {
    Distinct(floorOrder) && (forall f :: f in floorOrder ==> f in levels) && (forall f :: f in levels ==> f in floorOrder)
  }

  /** For one group id: the floors holding its devices, in first-seen order, and those devices per floor. */
  datatype GroupIndex = GroupIndex(floors: seq<int>, devices: map<int, seq<Device>>)

  /** The entry of a group before anything is registered for it. */
  function IndexOrEmpty(conn: map<string, GroupIndex>, g: string): GroupIndex
  {
    if g in conn then conn[g] else GroupIndex([], map[])
  }

  /** Registers one device found on floor f: skipped without a truthy group id. */
  function Register(conn: map<string, GroupIndex>, f: int, d: Device): map<string, GroupIndex>
  {
    if !Grouped(d) then conn
    else
      var g := d.group.value;
      var gi := IndexOrEmpty(conn, g);
      conn[g := if f in gi.devices then GroupIndex(gi.floors, gi.devices[f := gi.devices[f] + [d]])
                else GroupIndex(gi.floors + [f], gi.devices[f := [d]])]
  }

  /** The first n devices of floor f registered in order. */
  function RegisterFloor(conn: map<string, GroupIndex>, f: int, ds: seq<Device>, n: nat): map<string, GroupIndex>
    requires n <= |ds|
  {
    if n == 0 then conn else Register(RegisterFloor(conn, f, ds, n - 1), f, ds[n - 1])
  }

  /** The index after the first n floors of the floors dict. */
  function Connections(levels: map<int, Level>, floorOrder: seq<int>, n: nat): map<string, GroupIndex>
    requires Storeys(levels, floorOrder) && n <= |floorOrder|
  {
    if n == 0 then map[]
    else
      var f := floorOrder[n - 1];
      assert f in floorOrder;
      RegisterFloor(Connections(levels, floorOrder, n - 1), f, levels[f].devices, |levels[f].devices|)
  }

  /** The first n devices of a list that belong to group g, in order. */
  function InGroup(ds: seq<Device>, g: string, n: nat): seq<Device>
    requires n <= |ds|
  {
    if n == 0 then []
    else InGroup(ds, g, n - 1) + if Grouped(ds[n - 1]) && ds[n - 1].group.value == g then [ds[n - 1]] else []
  }

  /** The devices filed under group g are devices of the list with that group id. */
  lemma {:induction false} InGroupMembers(ds: seq<Device>, g: string, n: nat)
    requires n <= |ds|
    ensures forall x :: x in InGroup(ds, g, n) ==> x in ds && Grouped(x) && x.group == Some(g)
  {
    if n > 0 {
      InGroupMembers(ds, g, n - 1);
    }
  }

  /** The devices of a floor that belong to group g. */
  function GroupDevices(v: Level, g: string): seq<Device>
  {
    InGroup(v.devices, g, |v.devices|)
  }

  /** The first n floors that hold a device of group g, in floor order. */
  function FloorsWith(levels: map<int, Level>, floorOrder: seq<int>, g: string, n: nat): seq<int>
    requires Storeys(levels, floorOrder) && n <= |floorOrder|
  {
    if n == 0 then []
    else
      var f := floorOrder[n - 1];
      assert f in floorOrder;
      FloorsWith(levels, floorOrder, g, n - 1) + if GroupDevices(levels[f], g) != [] then [f] else []
  }

  /**
   * What the index says about group g after n floors: g is present exactly
   * when one of those floors holds a device of g; it lists those floors in
   * order, and for each of them exactly its devices of g, in order.
   */
  ghost predicate IndexedUpTo(conn: map<string, GroupIndex>, levels: map<int, Level>, floorOrder: seq<int>, g: string, n: nat)
    requires Storeys(levels, floorOrder) && n <= |floorOrder|
  {
    (g in conn <==> FloorsWith(levels, floorOrder, g, n) != [])
    && (g in conn ==>
          conn[g].floors == FloorsWith(levels, floorOrder, g, n)
          && (forall f :: f in conn[g].devices <==> f in conn[g].floors)
          && (forall f :: f in conn[g].devices ==> f in levels && conn[g].devices[f] == GroupDevices(levels[f], g)))
  }

  /** Every group after all floors. */
  ghost predicate Indexed(conn: map<string, GroupIndex>, levels: map<int, Level>, floorOrder: seq<int>)
    requires Storeys(levels, floorOrder)
  {
    forall g :: IndexedUpTo(conn, levels, floorOrder, g, |floorOrder|)
  }

  /**
   * Registering the first m devices of a floor f not yet in g's entry:
   * without a device of g nothing changes for g; otherwise f is appended to
   * g's floors with exactly its devices of g.
   */
  lemma {:induction false} RegisterFloorEffect(conn: map<string, GroupIndex>, f: int, ds: seq<Device>, m: nat, g: string)
    requires m <= |ds| && f !in IndexOrEmpty(conn, g).devices
    ensures var r := RegisterFloor(conn, f, ds, m); var b := IndexOrEmpty(conn, g);
      (InGroup(ds, g, m) == [] ==> (g in r <==> g in conn) && (g in conn ==> r[g] == conn[g]))
      && (InGroup(ds, g, m) != [] ==> g in r && r[g] == GroupIndex(b.floors + [f], b.devices[f := InGroup(ds, g, m)]))
  {
    if m > 0 {
      RegisterFloorEffect(conn, f, ds, m - 1, g);
      var prev := RegisterFloor(conn, f, ds, m - 1);
      var d := ds[m - 1];
      if Grouped(d) && d.group.value == g {
        var b := IndexOrEmpty(conn, g);
        if InGroup(ds, g, m - 1) == [] {
          assert IndexOrEmpty(prev, g) == b;
          assert InGroup(ds, g, m) == [d];
        } else {
          var pg := prev[g];
          assert f in pg.devices;
          assert InGroup(ds, g, m) == InGroup(ds, g, m - 1) + [d];
          UpdateTwice(b.devices, f, InGroup(ds, g, m - 1), InGroup(ds, g, m));
          assert RegisterFloor(conn, f, ds, m) == Register(prev, f, d);
          assert Register(prev, f, d)[g] == GroupIndex(pg.floors, pg.devices[f := pg.devices[f] + [d]]);
        }
      } else {
        assert InGroup(ds, g, m) == InGroup(ds, g, m - 1) + [];
        assert InGroup(ds, g, m - 1) + [] == InGroup(ds, g, m - 1);
      }
    }
  }

  lemma UpdateTwice(m: map<int, seq<Device>>, k: int, a: seq<Device>, b: seq<Device>)
    ensures m[k := a][k := b] == m[k := b]
  {
  }

  /** Floors holding a group's devices are among the floors seen so far. */
  lemma {:induction false} FloorsWithSeen(levels: map<int, Level>, floorOrder: seq<int>, g: string, n: nat)
    requires Storeys(levels, floorOrder) && n <= |floorOrder|
    ensures forall f :: f in FloorsWith(levels, floorOrder, g, n) ==> exists i :: 0 <= i < n && floorOrder[i] == f
  {
    if n > 0 {
      FloorsWithSeen(levels, floorOrder, g, n - 1);
    }
  }

  /** The index after n floors describes every group as IndexedUpTo says. */
  lemma {:induction false} ConnectionsMeaning(levels: map<int, Level>, floorOrder: seq<int>, n: nat, g: string)
    requires Storeys(levels, floorOrder) && n <= |floorOrder|
    ensures IndexedUpTo(Connections(levels, floorOrder, n), levels, floorOrder, g, n)
  {
    if n > 0 {
      var prev := Connections(levels, floorOrder, n - 1);
      ConnectionsMeaning(levels, floorOrder, n - 1, g);
      var f := floorOrder[n - 1];
      assert f in floorOrder;
      var ds := levels[f].devices;
      var fw := FloorsWith(levels, floorOrder, g, n - 1);
      FloorsWithSeen(levels, floorOrder, g, n - 1);
      assert forall i :: 0 <= i < n - 1 ==> floorOrder[i] != f;
      assert f !in fw;
      RegisterFloorEffect(prev, f, ds, |ds|, g);
      IndexedNextFloor(prev, Connections(levels, floorOrder, n), levels, floorOrder, g, n, f);
    }
  }

  /** One more floor f in the index: g's entry grows by f exactly when f holds a device of g. */
  lemma IndexedNextFloor(prev: map<string, GroupIndex>, r: map<string, GroupIndex>, levels: map<int, Level>,
                         floorOrder: seq<int>, g: string, n: nat, f: int)
    requires Storeys(levels, floorOrder) && 0 < n <= |floorOrder| && f == floorOrder[n - 1] && f in levels
    requires IndexedUpTo(prev, levels, floorOrder, g, n - 1)
    requires f !in FloorsWith(levels, floorOrder, g, n - 1)
    requires GroupDevices(levels[f], g) == [] ==> (g in r <==> g in prev) && (g in prev ==> r[g] == prev[g])
    requires GroupDevices(levels[f], g) != [] ==>
      (g in r && r[g] == GroupIndex(IndexOrEmpty(prev, g).floors + [f],
                                    IndexOrEmpty(prev, g).devices[f := GroupDevices(levels[f], g)]))
    ensures IndexedUpTo(r, levels, floorOrder, g, n)
  {
    var fw := FloorsWith(levels, floorOrder, g, n - 1);
    var gd := GroupDevices(levels[f], g);
    assert FloorsWith(levels, floorOrder, g, n) == fw + if gd != [] then [f] else [];
    if gd == [] {
      assert FloorsWith(levels, floorOrder, g, n) == fw;
    } else {
      var b := IndexOrEmpty(prev, g);
      assert b.floors == fw;
      forall k ensures k in r[g].devices <==> k in r[g].floors {
        assert k in r[g].floors <==> k in fw || k == f;
      }
      forall k | k in r[g].devices ensures k in levels && r[g].devices[k] == GroupDevices(levels[k], g) {
        if k != f {
          assert k in b.devices;
        }
      }
    }
  }

  /**
   * `build_elevator_connections`: for every device with a truthy group id,
   * floor by floor and device by device, files it under its group and floor.
   */
  method BuildElevatorConnections(levels: map<int, Level>, floorOrder: seq<int>)
    returns (conn: map<string, GroupIndex>)
    requires Storeys(levels, floorOrder)
    ensures conn == Connections(levels, floorOrder, |floorOrder|)
    ensures Indexed(conn, levels, floorOrder)
  {
    conn := map[];
    var i := 0;
    while i < |floorOrder|
      invariant 0 <= i <= |floorOrder|
      invariant conn == Connections(levels, floorOrder, i)
    {
      var f := floorOrder[i];
      assert f in floorOrder;
      var ds := levels[f].devices;
      var j := 0;
      while j < |ds|
        invariant 0 <= j <= |ds|
        invariant conn == RegisterFloor(Connections(levels, floorOrder, i), f, ds, j)
      {
        var d := ds[j];
        if Grouped(d) {
          var g := d.group.value;
          ghost var before := conn;
          if g !in conn {
            conn := conn[g := GroupIndex([], map[])];
          }
          if f !in conn[g].devices {
            conn := conn[g := GroupIndex(conn[g].floors + [f], conn[g].devices[f := []])];
            UpdateTwice(IndexOrEmpty(before, g).devices, f, [], [d]);
            assert [] + [d] == [d];
          }
          conn := conn[g := GroupIndex(conn[g].floors, conn[g].devices[f := conn[g].devices[f] + [d]])];
          assert conn == Register(before, f, d);
        }
        j := j + 1;
      }
      i := i + 1;
    }
    forall g ensures IndexedUpTo(conn, levels, floorOrder, g, |floorOrder|) {
      ConnectionsMeaning(levels, floorOrder, |floorOrder|, g);
    }
  }
}
