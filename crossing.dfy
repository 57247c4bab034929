/**
 * Splitting an edge where a path being drawn crosses it: the editor's
 * `find_edge_crossing` scan, and the block of `canvas_drag` that puts a
 * junction node at the crossing point, replaces the crossed edge by its two
 * halves and connects the path to the junction.
 */
module Crossing {
  import opened Wrappers
  import opened Geometry
  import opened LevelGraph
  import opened Maintenance

  /** The default `min_edge_length`: shorter edges are never split. */
  const DefaultMinEdgeLength: real := 50.0

  /** A crossing point closer than this to an end of the crossed edge is not used. */
  const MinGapToEndpoints: real := 20.0

  // ---------------------------------------------------------------------
  // find_edge_crossing
  // ---------------------------------------------------------------------

  /**
   * What `find_edge_crossing` makes of edge e for the drawn segment a-b
   * whose start is node `last`: the point where the segment crosses e, or
   * None when e is skipped or rejected.
   */
  function CrossingPoint(nodes: map<int, Node>, e: Edge, a: Point, b: Point, last: int, minLen: real,
                         dist: (Point, Point) -> real): (r: Option<Point>)
    ensures r.Some? ==> e.n1 in nodes && e.n2 in nodes
    ensures r.Some? ==> OnSegment(r.value, a, b) && OnSegment(r.value, nodes[e.n1].pos, nodes[e.n2].pos)
  {
    if e.n1 !in nodes || e.n2 !in nodes then None
    else
      var p, q := nodes[e.n1].pos, nodes[e.n2].pos;
      if dist(q, p) < minLen || e.n1 == last || e.n2 == last || !LinesIntersect(a, b, p, q) then None
      else
        match IntersectionPoint(a, b, p, q)
        case None => None
        case Some(ip) => if dist(ip, p) < MinGapToEndpoints || dist(ip, q) < MinGapToEndpoints then None else Some(ip)
  }

  /** Edge i is the first edge of the list for which the scan reports a crossing. */
  predicate FirstCrossing(nodes: map<int, Node>, edges: seq<Edge>, i: int, a: Point, b: Point, last: int, minLen: real,
                          dist: (Point, Point) -> real)
  {
    0 <= i < |edges|
    && CrossingPoint(nodes, edges[i], a, b, last, minLen, dist).Some?
    && forall j :: 0 <= j < i ==> CrossingPoint(nodes, edges[j], a, b, last, minLen, dist).None?
  }

  /**
   * `find_edge_crossing`: scans the edges in list order and returns the
   * first one the segment a-b crosses, with the crossing point.
   */
  method FindEdgeCrossing(g: Graph, a: Point, b: Point, last: int, minLen: real, dist: (Point, Point) -> real)
    returns (r: Option<(Edge, Point)>)
    ensures r.None? ==> forall j :: 0 <= j < |g.edges| ==> CrossingPoint(g.nodes, g.edges[j], a, b, last, minLen, dist).None?
    ensures r.Some? ==>
      exists i :: (FirstCrossing(g.nodes, g.edges, i, a, b, last, minLen, dist)
                   && r.value.0 == g.edges[i] && CrossingPoint(g.nodes, g.edges[i], a, b, last, minLen, dist) == Some(r.value.1))
  {
    var i := 0;
    while i < |g.edges|
      invariant 0 <= i <= |g.edges|
      invariant forall j :: 0 <= j < i ==> CrossingPoint(g.nodes, g.edges[j], a, b, last, minLen, dist).None?
    {
      var e := g.edges[i];
      if e.n1 in g.nodes && e.n2 in g.nodes {
        var p, q := g.nodes[e.n1].pos, g.nodes[e.n2].pos;
        if !(dist(q, p) < minLen) && e.n1 != last && e.n2 != last && LinesIntersect(a, b, p, q) {
          var point := IntersectionPoint(a, b, p, q);
          if point.Some? {
            var ip := point.value;
            var tooClose := false;
            var ends := [p, q];
            var k := 0;
            while k < 2
              invariant 0 <= k <= 2
              invariant tooClose <==> exists m :: 0 <= m < k && dist(ip, ends[m]) < MinGapToEndpoints
            {
              if dist(ip, ends[k]) < MinGapToEndpoints {
                tooClose := true;
                break;
              }
              k := k + 1;
            }
            assert tooClose <==> dist(ip, p) < MinGapToEndpoints || dist(ip, q) < MinGapToEndpoints by {
              assert ends[0] == p && ends[1] == q;
            }
            if !tooClose {
              assert FirstCrossing(g.nodes, g.edges, i, a, b, last, minLen, dist);
              return Some((e, ip));
            }
          }
        }
      }
      i := i + 1;
    }
    return None;
  }

  /**
   * What a reported crossing guarantees: the edge's ends are nodes at least
   * minLen apart, neither is the path's last node, the orientation test
   * reports the two segments as intersecting, the point lies on both
   * segments, and it is at least MinGapToEndpoints from both ends.
   */
  lemma CrossingPointSpec(nodes: map<int, Node>, e: Edge, a: Point, b: Point, last: int, minLen: real,
                          dist: (Point, Point) -> real, ip: Point)
    requires CrossingPoint(nodes, e, a, b, last, minLen, dist) == Some(ip)
    ensures e.n1 in nodes && e.n2 in nodes && e.n1 != last && e.n2 != last
    ensures dist(nodes[e.n2].pos, nodes[e.n1].pos) >= minLen
    ensures LinesIntersect(a, b, nodes[e.n1].pos, nodes[e.n2].pos)
    ensures IntersectionPoint(a, b, nodes[e.n1].pos, nodes[e.n2].pos) == Some(ip)
    ensures OnSegment(ip, a, b) && OnSegment(ip, nodes[e.n1].pos, nodes[e.n2].pos)
    ensures dist(ip, nodes[e.n1].pos) >= MinGapToEndpoints && dist(ip, nodes[e.n2].pos) >= MinGapToEndpoints
  {
  }

  /**
   * Conversely, an eligible edge that the segment crosses properly, and
   * whose determinant clears the parallel threshold, always has an
   * intersection point, and it is reported exactly when that point keeps
   * MinGapToEndpoints from both ends of the edge.
   */
  lemma ProperCrossingReported(nodes: map<int, Node>, e: Edge, a: Point, b: Point, last: int, minLen: real,
                               dist: (Point, Point) -> real)
    requires e.n1 in nodes && e.n2 in nodes && e.n1 != last && e.n2 != last
    requires dist(nodes[e.n2].pos, nodes[e.n1].pos) >= minLen
    requires ProperlyCross(a, b, nodes[e.n1].pos, nodes[e.n2].pos)
    requires Abs(Denominator(a, b, nodes[e.n1].pos, nodes[e.n2].pos)) >= ParallelEpsilon
    ensures IntersectionPoint(a, b, nodes[e.n1].pos, nodes[e.n2].pos).Some?
    ensures var ip := IntersectionPoint(a, b, nodes[e.n1].pos, nodes[e.n2].pos).value;
      CrossingPoint(nodes, e, a, b, last, minLen, dist).Some?
      <==> dist(ip, nodes[e.n1].pos) >= MinGapToEndpoints && dist(ip, nodes[e.n2].pos) >= MinGapToEndpoints
  {
    var p, q := nodes[e.n1].pos, nodes[e.n2].pos;
    ProperCrossingDetected(a, b, p, q);
    CrossingHasPoint(a, b, p, q);
  }

  // ---------------------------------------------------------------------
  // The crossing split in canvas_drag
  // ---------------------------------------------------------------------

  /**
   * The edge list after the split, with c the new junction node (already in
   * `nodes`): when both ends of the crossed edge e are nodes, every edge
   * between them is removed and the halves e.n1-c and c-e.n2 are added;
   * then the path's last node is connected to c. Each `add_edge` weighs the
   * new edge by the distance of its ends and adds nothing when the pair is
   * already connected. The halves are only requested between existing
   * nodes; the last `add_edge` raises when the path's last node is missing,
   * and the edges are then the halves alone.
   */
  function SplitEdges(edges: seq<Edge>, nodes: map<int, Node>, e: Edge, c: int, last: int, dist: (Point, Point) -> real): seq<Edge>
    requires c in nodes
  {
    var halves :=
      if e.n1 in nodes && e.n2 in nodes then
        var h1 := Connect(WithoutPair(edges, e.n1, e.n2), e.n1, c, dist(nodes[e.n1].pos, nodes[c].pos));
        Connect(h1, c, e.n2, dist(nodes[c].pos, nodes[e.n2].pos))
      else edges;
    if last in nodes then Connect(halves, last, c, dist(nodes[last].pos, nodes[c].pos)) else halves
  }

  /** The split keeps every edge endpoint a node and one edge per pair. */
  lemma SplitKeepsInvariant(edges: seq<Edge>, nodes: map<int, Node>, e: Edge, c: int, last: int, dist: (Point, Point) -> real)
    requires c in nodes && EndpointsExist(nodes, edges) && NoDuplicatePairs(edges)
    ensures EndpointsExist(nodes, SplitEdges(edges, nodes, e, c, last, dist))
    ensures NoDuplicatePairs(SplitEdges(edges, nodes, e, c, last, dist))
  {
    if e.n1 in nodes && e.n2 in nodes {
      WithoutPairKeepsInvariant(nodes, edges, e.n1, e.n2);
      var w := WithoutPair(edges, e.n1, e.n2);
      ConnectKeepsInvariant(nodes, w, e.n1, c, dist(nodes[e.n1].pos, nodes[c].pos));
      var h1 := Connect(w, e.n1, c, dist(nodes[e.n1].pos, nodes[c].pos));
      ConnectKeepsInvariant(nodes, h1, c, e.n2, dist(nodes[c].pos, nodes[e.n2].pos));
    }
    var halves := if e.n1 in nodes && e.n2 in nodes then
        Connect(Connect(WithoutPair(edges, e.n1, e.n2), e.n1, c, dist(nodes[e.n1].pos, nodes[c].pos)), c, e.n2, dist(nodes[c].pos, nodes[e.n2].pos))
      else edges;
    if last in nodes {
      ConnectKeepsInvariant(nodes, halves, last, c, dist(nodes[last].pos, nodes[c].pos));
    }
  }

  /**
   * Splitting an edge e of the list at a junction c that no edge touches
   * yet: afterwards e's ends are no longer directly linked, each is linked
   * to c, and the path's last node is linked to c when it is a node; every
   * other edge is kept, and every new edge has c as an end.
   */
  lemma SplitReplacesEdge(edges: seq<Edge>, nodes: map<int, Node>, e: Edge, c: int, last: int, dist: (Point, Point) -> real)
    requires c in nodes && EndpointsExist(nodes, edges)
    requires e in edges && forall x :: x in edges ==> !Touches(x, c)
    ensures var r := SplitEdges(edges, nodes, e, c, last, dist);
      !Linked(r, e.n1, e.n2) && Linked(r, e.n1, c) && Linked(r, c, e.n2)
      && (last in nodes ==> Linked(r, last, c))
    ensures var r := SplitEdges(edges, nodes, e, c, last, dist);
      (forall x :: x in edges && !Joins(x, e.n1, e.n2) ==> x in r)
      && (forall x :: x in r ==> (x in edges && !Joins(x, e.n1, e.n2)) || Touches(x, c))
  {
    var w := WithoutPair(edges, e.n1, e.n2);
    var w1, w2 := dist(nodes[e.n1].pos, nodes[c].pos), dist(nodes[c].pos, nodes[e.n2].pos);
    var h1 := Connect(w, e.n1, c, w1);
    var h2 := Connect(h1, c, e.n2, w2);
    assert e.n1 != c && e.n2 != c;
    ConnectSpec(w, e.n1, c, w1);
    ConnectSpec(h1, c, e.n2, w2);
    HalvesShape(edges, e, c, w, h1, h2, w1, w2);
    var r := SplitEdges(edges, nodes, e, c, last, dist);
    if last in nodes {
      var w3 := dist(nodes[last].pos, nodes[c].pos);
      ConnectSpec(h2, last, c, w3);
      LastLinkShape(h2, last, c, w3, e.n1, e.n2);
    }
  }

  /** The two halves: e's ends are linked to c and not to each other; old edges kept, new ones at c. */
  lemma HalvesShape(edges: seq<Edge>, e: Edge, c: int, w: seq<Edge>, h1: seq<Edge>, h2: seq<Edge>, w1: real, w2: real)
    requires e.n1 != c && e.n2 != c
    requires w == WithoutPair(edges, e.n1, e.n2) && h1 == Connect(w, e.n1, c, w1) && h2 == Connect(h1, c, e.n2, w2)
    ensures !Linked(h2, e.n1, e.n2)
    ensures forall x :: x in edges && !Joins(x, e.n1, e.n2) ==> x in h2
    ensures forall x :: x in h2 ==> (x in edges && !Joins(x, e.n1, e.n2)) || Touches(x, c)
  {
    forall x | x in h2 ensures (x in w) || Touches(x, c) {
      ConnectMembers(h1, c, e.n2, w2, x);
      if x in h1 {
        ConnectMembers(w, e.n1, c, w1, x);
      }
    }
    forall x | x in edges && !Joins(x, e.n1, e.n2) ensures x in h2 {
      assert x in w;
      ConnectSpec(w, e.n1, c, w1);
      ConnectSpec(h1, c, e.n2, w2);
    }
  }

  /** An edge Connect adds has both given ends; every other member is an old one. */
  lemma ConnectMembers(edges: seq<Edge>, a: int, b: int, w: real, x: Edge)
    requires x in Connect(edges, a, b, w)
    ensures x in edges || (x.n1 == a && x.n2 == b)
  {
  }

  /** Connecting last to c keeps the other properties of the split. */
  lemma LastLinkShape(h2: seq<Edge>, last: int, c: int, w3: real, n1: int, n2: int)
    requires n1 != c && n2 != c && !Linked(h2, n1, n2)
    ensures !Linked(Connect(h2, last, c, w3), n1, n2)
    ensures forall x :: x in Connect(h2, last, c, w3) ==> x in h2 || Touches(x, c)
  {
    ConnectSpec(h2, last, c, w3);
    forall x | x in Connect(h2, last, c, w3) ensures x in h2 || Touches(x, c) {
      ConnectMembers(h2, last, c, w3, x);
    }
  }

  /** Adding the junction under a fresh id and splitting keep the graph invariant. */
  lemma SplitKeepsGraphInvariant(nodes: map<int, Node>, order: seq<int>, edges: seq<Edge>, next: int,
                                 c: Node, e: Edge, last: int, dist: (Point, Point) -> real)
    requires GraphInvariant(nodes, order, edges, next) && c.id == next && c.tag != ""
    ensures next !in nodes
    ensures GraphInvariant(nodes[next := c], order + [next], SplitEdges(edges, nodes[next := c], e, next, last, dist), next + 1)
  {
    AddNodeKeepsInvariant(nodes, order, edges, next, c);
    SplitKeepsInvariant(edges, nodes[next := c], e, next, last, dist);
  }

  /** The edge part of the crossing block, once the junction c is a node. */
  method SplitEdge(g: Graph, e: Edge, c: int, last: int, dist: (Point, Point) -> real) returns (linked: Result<Edge, GraphError>)
    modifies g
    requires c in g.nodes
    ensures linked.Failure? <==> last !in g.nodes
    ensures g.nodes == old(g.nodes) && g.order == old(g.order) && g.name == old(g.name) && g.nextNodeId == old(g.nextNodeId)
    ensures g.edges == SplitEdges(old(g.edges), g.nodes, e, c, last, dist)
  {
    if e.n1 in g.nodes && e.n2 in g.nodes {
      g.RemoveEdge(e.n1, e.n2);
      var _ := g.AddEdge(e.n1, c, None, dist);
      var _ := g.AddEdge(c, e.n2, None, dist);
    }
    linked := g.AddEdge(last, c, None, dist);
  }

  /**
   * The crossing block of `canvas_drag`: adds the junction node at the
   * crossing point, labelled "X" followed by one more than the number of
   * labels already starting with "X"; splits the crossed edge when both its
   * ends are nodes; connects the path's last node to the junction and
   * returns the junction, which becomes the path's last node. The link from
   * the path's last node fails, with the rest done, when that node is missing.
   */
  method SplitAtCrossing(g: Graph, last: int, e: Edge, ip: Point, dist: (Point, Point) -> real)
    returns (c: Node, linked: Result<Edge, GraphError>)
    modifies g
    ensures linked.Failure? <==> last !in g.nodes
    ensures c == Node(old(g.nextNodeId), ip, Numbered('X', CountPrefixed(old(g.nodes), old(g.order), 'X') + 1))
    ensures g.nodes == old(g.nodes)[c.id := c]
    ensures g.order == if c.id in old(g.nodes) then old(g.order) else old(g.order) + [c.id]
    ensures g.edges == SplitEdges(old(g.edges), g.nodes, e, c.id, last, dist)
    ensures g.name == old(g.name) && g.nextNodeId == old(g.nextNodeId) + 1
    ensures old(g.Valid()) ==> g.Valid()
  {
    var tag := Numbered('X', CountPrefixed(g.nodes, g.order, 'X') + 1);
    if g.Valid() {
      SplitKeepsGraphInvariant(g.nodes, g.order, g.edges, g.nextNodeId, Node(g.nextNodeId, ip, tag), e, last, dist);
    }
    c := g.AddNode(ip.x, ip.y, tag);
    linked := SplitEdge(g, e, c.id, last, dist);
  }
}
