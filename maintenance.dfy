/**
 * The editor's graph maintenance operations on one floor: merging two
 * nodes, merging every pair closer than a radius, and removing the
 * straight-line nodes of paths.
 *
 * Each operation works on the floor's Graph object in place, through the
 * graph's own add/remove methods where the editor calls them. What it
 * leaves behind is stated against a function on Floor values, and the
 * properties of that function are proved as lemmas.
 */
module Maintenance {
  import opened Wrappers
  import opened Geometry
  import opened Text
  import opened LevelGraph

  /** The part of a floor's graph the maintenance operations change, as a value. */
  datatype Floor = Floor(nodes: map<int, Node>, order: seq<int>, edges: seq<Edge>)

  /** The graph invariant of a floor whose id counter is next. */
  ghost predicate FloorValid(s: Floor, next: int)
  {
    GraphInvariant(s.nodes, s.order, s.edges, next)
  }

  // ---------------------------------------------------------------------
  // Labels
  // ---------------------------------------------------------------------

  /**
   * How many nodes, visited in dict order, have a label starting with c:
   * the editor's `len([n for n in nodes.values() if n.label.startswith(c)])`.
   */
  function CountPrefixed(nodes: map<int, Node>, order: seq<int>, c: char): (n: nat)
    ensures n <= |order|
  {
    if order == [] then 0
    else (if order[0] in nodes && StartsWith(nodes[order[0]].tag, c) then 1 else 0) + CountPrefixed(nodes, order[1..], c)
  }

  /** The label f"{c}{n}". */
  function Numbered(c: char, n: nat): (r: string)
    ensures |r| > 1 && StartsWith(r, c)
  {
    [c] + NatToString(n)
  }

  // ---------------------------------------------------------------------
  // merge_two_nodes
  // ---------------------------------------------------------------------

  function Midpoint(a: Point, b: Point): Point
  {
    Point((a.x + b.x) / 2.0, (a.y + b.y) / 2.0)
  }

  /**
   * The `add_edge` requests `merge_two_nodes` collects while scanning the
   * first n edges: for each edge at `remove`, one towards its other end,
   * unless that end is `keep` or `remove` itself or `keep` is already
   * linked to it.
   */
  function Reroutes(edges: seq<Edge>, n: nat, keep: int, remove: int): seq<Edge>
    requires n <= |edges|
  {
    if n == 0 then []
    else
      var e := edges[n - 1];
      var other := Other(e, remove);
      Reroutes(edges, n - 1, keep, remove)
      + (if Touches(e, remove) && other != keep && other != remove && !Linked(edges, keep, other)
         then [Edge(keep, other, None)] else [])
  }

  /**
   * The node table after the relabelling step: `keep` gets a fresh
   * "X<k>" label when it is not already a junction and now has more than
   * two edges.
   */
  function Relabelled(nodes: map<int, Node>, order: seq<int>, edges: seq<Edge>, keep: int): (r: map<int, Node>)
    requires keep in nodes
  {
    var k := nodes[keep];
    if !StartsWith(k.tag, 'X') && Degree(edges, keep) > 2
    then nodes[keep := Node(k.id, k.pos, Numbered('X', CountPrefixed(nodes, order, 'X') + 1))]
    else nodes
  }

  /** The node table once `keep` has moved to the midpoint of the two nodes. */
  function Moved(nodes: map<int, Node>, keep: int, remove: int): (r: map<int, Node>)
    requires keep in nodes && remove in nodes
  {
    var k := nodes[keep];
    nodes[keep := Node(k.id, Midpoint(k.pos, nodes[remove].pos), k.tag)]
  }

  /** The edges after `merge_two_nodes`: those at `remove` dropped, the rerouted ones added. */
  function MergedEdges(s: Floor, keep: int, remove: int, dist: (Point, Point) -> real): seq<Edge>
    requires keep in s.nodes && remove in s.nodes
  {
    ConnectAll(WithoutNode(s.edges, remove), Reroutes(s.edges, |s.edges|, keep, remove), Moved(s.nodes, keep, remove), dist)
  }

  /**
   * `merge_two_nodes(keep, remove)`: nothing happens when the ids are equal
   * or either node is missing; otherwise `keep` moves to the midpoint, the
   * edges at `remove` are rerouted to `keep`, `keep` is relabelled when it
   * became a junction, and `remove` is deleted.
   */
  function MergeFloor(s: Floor, keep: int, remove: int, dist: (Point, Point) -> real): Floor
  {
    if keep == remove || keep !in s.nodes || remove !in s.nodes then s
    else
      var edges := MergedEdges(s, keep, remove, dist);
      Floor(Relabelled(Moved(s.nodes, keep, remove), s.order, edges, keep) - {remove}, Erase(s.order, remove), edges)
  }

  /** Every request the merge collects names two nodes of the floor, so no `add_edge` of it raises. */
  predicate MergeResolves(s: Floor, keep: int, remove: int)
  {
    RequestsResolve(Reroutes(s.edges, |s.edges|, keep, remove), s.nodes)
  }

  /**
   * The edges when the merge's `add_edge` calls stop: those at `remove`
   * dropped, and the rerouted ones added up to the first that names a
   * missing node, where `add_edge` raises.
   */
  function ReroutedEdges(s: Floor, keep: int, remove: int, dist: (Point, Point) -> real): seq<Edge>
    requires keep in s.nodes && remove in s.nodes
  {
    var reqs := Reroutes(s.edges, |s.edges|, keep, remove);
    var moved := Moved(s.nodes, keep, remove);
    ConnectAll(WithoutNode(s.edges, remove), reqs[..Resolved(reqs, moved)], moved, dist)
  }

  /**
   * The floor a merge leaves when `add_edge` raises: `keep` moved, the
   * edges as above, no relabelling, and `remove` still in the dict.
   */
  function AbortedMerge(s: Floor, keep: int, remove: int, dist: (Point, Point) -> real): Floor
    requires keep in s.nodes && remove in s.nodes
  {
    Floor(Moved(s.nodes, keep, remove), s.order, ReroutedEdges(s, keep, remove, dist))
  }

  /** Moving `keep` leaves the keys, so a request resolves before the move exactly when it does after. */
  lemma MovedResolves(s: Floor, keep: int, remove: int, reqs: seq<Edge>)
    requires keep in s.nodes && remove in s.nodes
    ensures Moved(s.nodes, keep, remove).Keys == s.nodes.Keys
    ensures RequestsResolve(reqs, Moved(s.nodes, keep, remove)) <==> RequestsResolve(reqs, s.nodes)
  {
  }

  /** On a floor whose edges join existing nodes, every collected request resolves. */
  lemma EndpointsResolveMerge(s: Floor, keep: int, remove: int)
    requires EndpointsExist(s.nodes, s.edges) && keep in s.nodes
    ensures MergeResolves(s, keep, remove)
  {
    var reqs := Reroutes(s.edges, |s.edges|, keep, remove);
    ReroutesShape(s.edges, |s.edges|, keep, remove);
    ReroutesResolve(s, keep, remove, reqs, s.nodes);
  }

  /** When every request resolves, the `add_edge` calls run to the end and give the merged edges. */
  lemma ReroutedComplete(s: Floor, keep: int, remove: int, dist: (Point, Point) -> real)
    requires keep in s.nodes && remove in s.nodes
    ensures MergeResolves(s, keep, remove) <==> Resolved(Reroutes(s.edges, |s.edges|, keep, remove), Moved(s.nodes, keep, remove)) == |Reroutes(s.edges, |s.edges|, keep, remove)|
    ensures MergeResolves(s, keep, remove) ==> ReroutedEdges(s, keep, remove, dist) == MergedEdges(s, keep, remove, dist)
  {
    var reqs := Reroutes(s.edges, |s.edges|, keep, remove);
    var moved := Moved(s.nodes, keep, remove);
    MovedResolves(s, keep, remove, reqs);
    ResolvedAll(reqs, moved);
    assert reqs[..|reqs|] == reqs;
  }

  /** An aborted merge keeps the dict's keys, order and shape, and moves only `keep`. */
  lemma AbortedMergeNodes(s: Floor, keep: int, remove: int, dist: (Point, Point) -> real)
    requires Keyed(s.nodes) && OrderOf(s.order, s.nodes)
    requires keep != remove && keep in s.nodes && remove in s.nodes
    ensures var r := AbortedMerge(s, keep, remove, dist);
      && r.nodes.Keys == s.nodes.Keys && r.order == s.order
      && Keyed(r.nodes) && OrderOf(r.order, r.nodes)
      && r.nodes[keep].pos == Midpoint(s.nodes[keep].pos, s.nodes[remove].pos)
      && (forall k :: k in r.nodes && k != keep ==> r.nodes[k] == s.nodes[k])
  {
    var moved := Moved(s.nodes, keep, remove);
    assert moved.Keys == s.nodes.Keys;
    forall k | k in moved ensures moved[k].id == k && moved[k].tag != "" {
      if k != keep {
        assert moved[k] == s.nodes[k];
      }
    }
  }

  /**
   * An aborted merge leaves no edge at `remove`: the edges away from it are
   * kept in front, and only links from `keep` to its neighbours are added.
   */
  lemma AbortedMergeEdges(s: Floor, keep: int, remove: int, dist: (Point, Point) -> real)
    requires keep != remove && keep in s.nodes && remove in s.nodes
    ensures var r := AbortedMerge(s, keep, remove, dist);
      && WithoutNode(s.edges, remove) <= r.edges
      && (forall e :: e in r.edges ==> !Touches(e, remove))
  {
    var reqs := Reroutes(s.edges, |s.edges|, keep, remove);
    var moved := Moved(s.nodes, keep, remove);
    var n := Resolved(reqs, moved);
    var pre := reqs[..n];
    var w := WithoutNode(s.edges, remove);
    var m := ConnectAll(w, pre, moved, dist);
    assert m == AbortedMerge(s, keep, remove, dist).edges;
    ReroutesShape(s.edges, |s.edges|, keep, remove);
    forall q | q in pre
      ensures q in reqs && q.n1 in moved && q.n2 in moved
    {
      var i :| 0 <= i < |pre| && pre[i] == q;
      assert reqs[i] == q;
    }
    ConnectAllSpec(w, pre, moved, dist);
    MergeLinks(s.edges, w, pre, m, keep, remove);
    NothingAtRemoved(s.edges, m, keep, remove);
  }

  /**
   * Every collected request goes from `keep` to a neighbour of `remove`
   * other than the two merged nodes; every such neighbour not yet linked to
   * `keep` is requested.
   */
  lemma {:induction false} ReroutesShape(edges: seq<Edge>, n: nat, keep: int, remove: int)
    requires n <= |edges|
    ensures forall q :: q in Reroutes(edges, n, keep, remove) ==>
      q.n1 == keep && q.n2 != keep && q.n2 != remove && q.weight.None? && Linked(edges, remove, q.n2)
    ensures forall i :: 0 <= i < n && Touches(edges[i], remove) ==>
      var o := Other(edges[i], remove);
      o == keep || o == remove || Linked(edges, keep, o) || Edge(keep, o, None) in Reroutes(edges, n, keep, remove)
  {
    if n > 0 {
      ReroutesShape(edges, n - 1, keep, remove);
      var e := edges[n - 1];
      if Touches(e, remove) {
        assert Joins(e, remove, Other(e, remove));
      }
    }
  }

  /**
   * The edges a merge leaves: none at `remove`; every other neighbour of
   * `remove` linked to `keep`; every old edge away from `remove` kept, in
   * order, in front; and no link that was not there before except
   * `keep`'s new links to `remove`'s neighbours, so no new self-loop.
   */
  lemma MergedEdgesSpec(s: Floor, keep: int, remove: int, dist: (Point, Point) -> real)
    requires keep != remove && keep in s.nodes && remove in s.nodes
    requires EndpointsExist(s.nodes, s.edges)
    ensures forall e :: e in MergedEdges(s, keep, remove, dist) ==> !Touches(e, remove)
    ensures forall o :: Linked(s.edges, remove, o) && o != keep && o != remove ==> Linked(MergedEdges(s, keep, remove, dist), keep, o)
    ensures WithoutNode(s.edges, remove) <= MergedEdges(s, keep, remove, dist)
    ensures forall x, y :: Linked(MergedEdges(s, keep, remove, dist), x, y) ==> MergeLink(s.edges, keep, remove, x, y)
  {
    var w := WithoutNode(s.edges, remove);
    var reqs := Reroutes(s.edges, |s.edges|, keep, remove);
    var moved := Moved(s.nodes, keep, remove);
    var m := ConnectAll(w, reqs, moved, dist);
    ReroutesShape(s.edges, |s.edges|, keep, remove);
    ReroutesResolve(s, keep, remove, reqs, moved);
    ConnectAllSpec(w, reqs, moved, dist);
    MergeLinks(s.edges, w, reqs, m, keep, remove);
    NothingAtRemoved(s.edges, m, keep, remove);
    NeighboursRelinked(s.edges, w, reqs, m, keep, remove);
  }

  /**
   * x-y is a link a merge of `remove` into `keep` may leave: an old link
   * away from `remove`, or a new one from `keep` to a neighbour of `remove`.
   */
  ghost predicate MergeLink(edges: seq<Edge>, keep: int, remove: int, x: int, y: int)
  {
    (Linked(edges, x, y) && x != remove && y != remove)
    || (x == keep && y != keep && y != remove && Linked(edges, remove, y))
    || (y == keep && x != keep && x != remove && Linked(edges, remove, x))
  }

  lemma ReroutesResolve(s: Floor, keep: int, remove: int, reqs: seq<Edge>, moved: map<int, Node>)
    requires EndpointsExist(s.nodes, s.edges) && keep in s.nodes
    requires moved.Keys == s.nodes.Keys
    requires forall q :: q in reqs ==> q.n1 == keep && Linked(s.edges, remove, q.n2)
    ensures RequestsResolve(reqs, moved)
  {
    forall q | q in reqs ensures q.n1 in moved && q.n2 in moved {
      var i :| 0 <= i < |s.edges| && Joins(s.edges[i], remove, q.n2);
      assert s.edges[i] in s.edges;
    }
  }

  lemma MergeLinks(edges: seq<Edge>, w: seq<Edge>, reqs: seq<Edge>, m: seq<Edge>, keep: int, remove: int)
    requires w == WithoutNode(edges, remove)
    requires forall q :: q in reqs ==> q.n1 == keep && q.n2 != keep && q.n2 != remove && Linked(edges, remove, q.n2)
    requires forall x, y :: Linked(m, x, y) ==> Linked(w, x, y) || exists q :: q in reqs && Joins(q, x, y)
    ensures forall x, y :: Linked(m, x, y) ==> MergeLink(edges, keep, remove, x, y)
  {
    forall x, y | Linked(m, x, y) ensures MergeLink(edges, keep, remove, x, y) {
      if Linked(w, x, y) {
        var i :| 0 <= i < |w| && Joins(w[i], x, y);
        assert w[i] in w;
        var j :| 0 <= j < |edges| && edges[j] == w[i];
        assert Linked(edges, x, y);
      } else {
        var q :| q in reqs && Joins(q, x, y);
      }
    }
  }

  lemma NothingAtRemoved(edges: seq<Edge>, m: seq<Edge>, keep: int, remove: int)
    requires keep != remove
    requires forall x, y :: Linked(m, x, y) ==> MergeLink(edges, keep, remove, x, y)
    ensures forall e :: e in m ==> !Touches(e, remove)
  {
    forall e | e in m ensures !Touches(e, remove) {
      var i :| 0 <= i < |m| && m[i] == e;
      assert Joins(m[i], e.n1, e.n2);
      assert MergeLink(edges, keep, remove, e.n1, e.n2);
    }
  }

  lemma NeighboursRelinked(edges: seq<Edge>, w: seq<Edge>, reqs: seq<Edge>, m: seq<Edge>, keep: int, remove: int)
    requires keep != remove
    requires w == WithoutNode(edges, remove)
    requires forall i :: 0 <= i < |edges| && Touches(edges[i], remove) ==>
      var o := Other(edges[i], remove);
      o == keep || o == remove || Linked(edges, keep, o) || Edge(keep, o, None) in reqs
    requires w <= m
    requires forall q :: q in reqs ==> Linked(m, q.n1, q.n2)
    ensures forall o :: Linked(edges, remove, o) && o != keep && o != remove ==> Linked(m, keep, o)
  {
    forall o | Linked(edges, remove, o) && o != keep && o != remove ensures Linked(m, keep, o) {
      var i :| 0 <= i < |edges| && Joins(edges[i], remove, o);
      assert Other(edges[i], remove) == o;
      if Linked(edges, keep, o) {
        var j :| 0 <= j < |edges| && Joins(edges[j], keep, o);
        assert edges[j] in w;
        var k :| 0 <= k < |w| && w[k] == edges[j];
        assert m[k] == w[k];
      } else {
        assert Edge(keep, o, None) in reqs;
      }
    }
  }

  /**
   * The node table a merge leaves: `remove` gone, `keep` at the midpoint
   * of the two old positions, labelled as a junction exactly when it
   * already was one or now has more than two edges, every other node as
   * it was; `remove` also leaves the key order.
   */
  lemma MergeFloorNodes(s: Floor, keep: int, remove: int, dist: (Point, Point) -> real)
    requires keep != remove && keep in s.nodes && remove in s.nodes
    ensures var r := MergeFloor(s, keep, remove, dist);
      && (forall k :: k in r.nodes <==> k in s.nodes && k != remove)
      && r.nodes[keep].id == s.nodes[keep].id
      && r.nodes[keep].pos == Midpoint(s.nodes[keep].pos, s.nodes[remove].pos)
      && (StartsWith(r.nodes[keep].tag, 'X') <==> StartsWith(s.nodes[keep].tag, 'X') || Degree(r.edges, keep) > 2)
      && (!StartsWith(s.nodes[keep].tag, 'X') && Degree(r.edges, keep) <= 2 ==> r.nodes[keep].tag == s.nodes[keep].tag)
      && (forall k :: k in r.nodes && k != keep ==> r.nodes[k] == s.nodes[k])
      && r.order == Erase(s.order, remove)
  {
  }

  /** The keys a merge leaves, and what it does to the nodes other than `keep`. */
  lemma MergeFloorKeys(s: Floor, keep: int, remove: int, dist: (Point, Point) -> real)
    requires keep != remove && keep in s.nodes && remove in s.nodes
    ensures var r := MergeFloor(s, keep, remove, dist);
      && (forall k :: k in r.nodes <==> k in s.nodes && k != remove)
      && r.nodes[keep].id == s.nodes[keep].id
      && (s.nodes[keep].tag != "" ==> r.nodes[keep].tag != "")
      && (forall k :: k in r.nodes && k != keep ==> r.nodes[k] == s.nodes[k])
      && r.order == Erase(s.order, remove)
  {
  }

  /** A merge keeps the dict's shape: nodes under their own ids, the order listing the keys once each. */
  lemma MergeFloorWellFormed(s: Floor, keep: int, remove: int, dist: (Point, Point) -> real)
    requires Keyed(s.nodes) && OrderOf(s.order, s.nodes)
    ensures Keyed(MergeFloor(s, keep, remove, dist).nodes)
    ensures OrderOf(MergeFloor(s, keep, remove, dist).order, MergeFloor(s, keep, remove, dist).nodes)
  {
    if keep != remove && keep in s.nodes && remove in s.nodes {
      MergeFloorKeys(s, keep, remove, dist);
      EraseDistinct(s.order, remove);
    }
  }

  /** A merge of two different present nodes removes exactly one node. */
  lemma MergeFloorShrinks(s: Floor, keep: int, remove: int, dist: (Point, Point) -> real)
    requires keep != remove && keep in s.nodes && remove in s.nodes
    ensures |MergeFloor(s, keep, remove, dist).nodes| == |s.nodes| - 1
  {
    var r := MergeFloor(s, keep, remove, dist);
    MergeFloorKeys(s, keep, remove, dist);
    assert r.nodes.Keys == s.nodes.Keys - {remove};
    assert |r.nodes| == |r.nodes.Keys|;
  }

  /** A merge keeps the graph invariant. */
  lemma MergeFloorValid(s: Floor, keep: int, remove: int, dist: (Point, Point) -> real, next: int)
    requires FloorValid(s, next)
    ensures FloorValid(MergeFloor(s, keep, remove, dist), next)
  {
    if keep != remove && keep in s.nodes && remove in s.nodes {
      var r := MergeFloor(s, keep, remove, dist);
      MergeFloorWellFormed(s, keep, remove, dist);
      MergeFloorKeys(s, keep, remove, dist);
      MergedEdgesValid(s, keep, remove, dist);
    }
  }

  /** The merged edges keep one edge per pair and only join nodes that are left. */
  lemma MergedEdgesValid(s: Floor, keep: int, remove: int, dist: (Point, Point) -> real)
    requires keep != remove && keep in s.nodes && remove in s.nodes
    requires EndpointsExist(s.nodes, s.edges) && NoDuplicatePairs(s.edges)
    ensures NoDuplicatePairs(MergedEdges(s, keep, remove, dist))
    ensures EndpointsExist(s.nodes - {remove}, MergedEdges(s, keep, remove, dist))
  {
    var moved := Moved(s.nodes, keep, remove);
    var w := WithoutNode(s.edges, remove);
    var reqs := Reroutes(s.edges, |s.edges|, keep, remove);
    MergedEdgesSpec(s, keep, remove, dist);
    WithoutNodeKeepsInvariant(s.nodes, s.edges, remove);
    assert EndpointsExist(moved, w);
    ConnectAllKeepsInvariant(w, reqs, moved, dist);
  }

  /**
   * `merge_two_nodes` as written: a self-loop at `remove` yields a request
   * to link `keep` with `remove` itself.
   */
  function ReroutesAsWritten(edges: seq<Edge>, n: nat, keep: int, remove: int): seq<Edge>
    requires n <= |edges|
  {
    if n == 0 then []
    else
      var e := edges[n - 1];
      var other := Other(e, remove);
      ReroutesAsWritten(edges, n - 1, keep, remove)
      + (if Touches(e, remove) && other != keep && !Linked(edges, keep, other)
         then [Edge(keep, other, None)] else [])
  }

  /** The edges `merge_two_nodes` as written leaves. */
  function MergedEdgesAsWritten(s: Floor, keep: int, remove: int, dist: (Point, Point) -> real): seq<Edge>
    requires keep in s.nodes && remove in s.nodes
  {
    ConnectAll(WithoutNode(s.edges, remove), ReroutesAsWritten(s.edges, |s.edges|, keep, remove), Moved(s.nodes, keep, remove), dist)
  }

  /** The as-written requests: all from `keep` to neighbours of `remove`, one of them to `remove` when it has a self-loop. */
  lemma {:induction false} ReroutesAsWrittenShape(edges: seq<Edge>, n: nat, keep: int, remove: int)
    requires n <= |edges|
    ensures forall q :: q in ReroutesAsWritten(edges, n, keep, remove) ==> q.n1 == keep && Linked(edges, remove, q.n2)
    ensures keep != remove && !Linked(edges, keep, remove) && (exists i :: 0 <= i < n && edges[i] == Edge(remove, remove, edges[i].weight))
      ==> Edge(keep, remove, None) in ReroutesAsWritten(edges, n, keep, remove)
  {
    if n > 0 {
      ReroutesAsWrittenShape(edges, n - 1, keep, remove);
      var e := edges[n - 1];
      if Touches(e, remove) {
        assert Joins(e, remove, Other(e, remove));
      }
    }
  }

  /**
   * Merging `remove` into `keep` as written, on a valid floor where
   * `remove` has a self-loop and no edge joins the two: the request for
   * `remove`'s self-loop links `keep` to `remove` while `remove` is still a
   * node, then `remove` is deleted, and that edge is left pointing at a
   * missing node. The corrected merge leaves every endpoint a node.
   */
  lemma SelfLoopLeavesDanglingEdge(s: Floor, keep: int, remove: int, dist: (Point, Point) -> real, next: int)
    requires FloorValid(s, next) && keep != remove && keep in s.nodes && remove in s.nodes
    requires Linked(s.edges, remove, remove) && !Linked(s.edges, keep, remove)
    ensures !EndpointsExist(MergeFloor(s, keep, remove, dist).nodes, MergedEdgesAsWritten(s, keep, remove, dist))
    ensures EndpointsExist(MergeFloor(s, keep, remove, dist).nodes, MergeFloor(s, keep, remove, dist).edges)
  {
    var reqs := ReroutesAsWritten(s.edges, |s.edges|, keep, remove);
    var j :| 0 <= j < |s.edges| && Joins(s.edges[j], remove, remove);
    assert s.edges[j] == Edge(remove, remove, s.edges[j].weight);
    var moved := Moved(s.nodes, keep, remove);
    var m := MergedEdgesAsWritten(s, keep, remove, dist);
    ReroutesAsWrittenShape(s.edges, |s.edges|, keep, remove);
    ReroutesResolve(s, keep, remove, reqs, moved);
    ConnectAllSpec(WithoutNode(s.edges, remove), reqs, moved, dist);
    assert Linked(m, keep, remove);
    var i :| 0 <= i < |m| && Joins(m[i], keep, remove);
    assert m[i] in m;
    MergeFloorNodes(s, keep, remove, dist);
    MergeFloorValid(s, keep, remove, dist, next);
  }

  /** A floor the lemma above applies to: nodes 1 and 2 and a self-loop at 2, merging 2 into 1. */
  lemma SelfLoopFloorExists()
    ensures var s := Floor(map[1 := Node(1, Point(0.0, 0.0), "A"), 2 := Node(2, Point(2.0, 0.0), "B")], [1, 2], [Edge(2, 2, Some(0.0))]);
      FloorValid(s, 3) && Linked(s.edges, 2, 2) && !Linked(s.edges, 1, 2)
  {
    var s := Floor(map[1 := Node(1, Point(0.0, 0.0), "A"), 2 := Node(2, Point(2.0, 0.0), "B")], [1, 2], [Edge(2, 2, Some(0.0))]);
    assert s.edges[0] == Edge(2, 2, Some(0.0));
    assert Distinct(s.order);
    assert OrderOf(s.order, s.nodes);
    assert EndpointsExist(s.nodes, s.edges);
  }

  /** The scanning loop of `merge_two_nodes`, collecting the edges to add. */
  method CollectReroutes(g: Graph, keep: int, remove: int) returns (requests: seq<Edge>)
    ensures requests == Reroutes(g.edges, |g.edges|, keep, remove)
  {
    requests := [];
    var i := 0;
    while i < |g.edges|
      invariant 0 <= i <= |g.edges|
      invariant requests == Reroutes(g.edges, i, keep, remove)
    {
      var e := g.edges[i];
      if Touches(e, remove) {
        var other := if e.n1 == remove then e.n2 else e.n1;
        if other != keep && other != remove {
          var linked := g.EdgeExists(keep, other);
          if !linked {
            requests := requests + [Edge(keep, other, None)];
          }
        }
      }
      i := i + 1;
    }
  }

  /**
   * `merge_two_nodes` on the floor's graph. When an edge at `remove` leads
   * to a missing node, `add_edge` raises part-way: the floor is left as
   * AbortedMerge describes, and the failure is returned.
   */
  method MergeTwoNodes(g: Graph, keep: int, remove: int, dist: (Point, Point) -> real) returns (r: Result<(), GraphError>)
    modifies g
    ensures r.Failure? <==>
      keep != remove && keep in old(g.nodes) && remove in old(g.nodes) && !MergeResolves(old(Floor(g.nodes, g.order, g.edges)), keep, remove)
    ensures r.Success? ==> Floor(g.nodes, g.order, g.edges) == MergeFloor(old(Floor(g.nodes, g.order, g.edges)), keep, remove, dist)
    ensures r.Failure? ==> Floor(g.nodes, g.order, g.edges) == AbortedMerge(old(Floor(g.nodes, g.order, g.edges)), keep, remove, dist)
    ensures g.name == old(g.name) && g.nextNodeId == old(g.nextNodeId)
  {
    if keep == remove || keep !in g.nodes || remove !in g.nodes {
      return Success(());
    }
    ghost var s := Floor(g.nodes, g.order, g.edges);
    ReroutedComplete(s, keep, remove, dist);
    r := RerouteEdges(g, keep, remove, dist);
    if r.Failure? {
      return;
    }
    MarkJunction(g, keep);
    if remove in g.nodes {
      g.nodes := g.nodes - {remove};
      g.order := Erase(g.order, remove);
    }
  }

  /**
   * The first steps of a merge: move `keep`, drop the edges at `remove`,
   * add the rerouted ones; fails when one of them names a missing node.
   */
  method RerouteEdges(g: Graph, keep: int, remove: int, dist: (Point, Point) -> real) returns (r: Result<(), GraphError>)
    requires keep in g.nodes && remove in g.nodes
    modifies g
    ensures r.Success? <==> MergeResolves(old(Floor(g.nodes, g.order, g.edges)), keep, remove)
    ensures g.nodes == Moved(old(g.nodes), keep, remove)
    ensures g.edges == ReroutedEdges(old(Floor(g.nodes, g.order, g.edges)), keep, remove, dist)
    ensures g.order == old(g.order) && g.name == old(g.name) && g.nextNodeId == old(g.nextNodeId)
  {
    ghost var s := Floor(g.nodes, g.order, g.edges);
    g.nodes := Moved(g.nodes, keep, remove);
    var requests := CollectReroutes(g, keep, remove);
    MovedResolves(s, keep, remove, requests);
    g.edges := WithoutNode(g.edges, remove);
    r := g.AddEdges(requests, dist);
  }

  /** The relabelling step of a merge: a node that became a junction gets the next "X" label. */
  method MarkJunction(g: Graph, keep: int)
    requires keep in g.nodes
    modifies g
    ensures g.nodes == Relabelled(old(g.nodes), g.order, g.edges, keep)
    ensures g.order == old(g.order) && g.edges == old(g.edges)
    ensures g.name == old(g.name) && g.nextNodeId == old(g.nextNodeId)
  {
    var k := g.nodes[keep];
    if !StartsWith(k.tag, 'X') {
      var connections := Degree(g.edges, keep);
      if connections > 2 {
        var xCount := CountPrefixed(g.nodes, g.order, 'X');
        g.nodes := g.nodes[keep := Node(k.id, k.pos, Numbered('X', xCount + 1))];
      }
    }
  }

  // ---------------------------------------------------------------------
  // auto_merge_nearby_nodes
  // ---------------------------------------------------------------------

  /** The nodes at positions i and j of the dict order are closer than r. */
  predicate Close(nodes: map<int, Node>, order: seq<int>, i: int, j: int, r: real, dist: (Point, Point) -> real)
  {
    0 <= i < |order| && 0 <= j < |order| && order[i] in nodes && order[j] in nodes
    && dist(nodes[order[i]].pos, nodes[order[j]].pos) < r
  }

  /** (i, j) is the first close pair i < j, in row-by-row order. */
  predicate FirstClose(nodes: map<int, Node>, order: seq<int>, i: int, j: int, r: real, dist: (Point, Point) -> real)
  {
    0 <= i < j < |order| && Close(nodes, order, i, j, r, dist)
    && forall i', j' :: 0 <= i' < j' < |order| && (i' < i || (i' == i && j' < j)) ==> !Close(nodes, order, i', j', r, dist)
  }

  /**
   * One round of `auto_merge_nearby_nodes`: scans the pairs i < j of the
   * dict order, row by row, and reports the first pair closer than r.
   * Nothing is removed during a scan, so the editor's checks that both
   * nodes are still present always pass and are not repeated here.
   */
  method FindClosePair(g: Graph, r: real, dist: (Point, Point) -> real) returns (p: Option<(int, int)>)
    requires g.WellFormed()
    ensures p.None? ==> forall i, j :: 0 <= i < j < |g.order| ==> !Close(g.nodes, g.order, i, j, r, dist)
    ensures p.Some? ==> exists i, j :: FirstClose(g.nodes, g.order, i, j, r, dist) && p.value == (g.order[i], g.order[j])
  {
    var i := 0;
    while i < |g.order|
      invariant 0 <= i <= |g.order|
      invariant forall i', j' :: 0 <= i' < i && i' < j' < |g.order| ==> !Close(g.nodes, g.order, i', j', r, dist)
    {
      var a := g.order[i];
      assert a in g.order;
      var j := i + 1;
      while j < |g.order|
        invariant i + 1 <= j <= |g.order|
        invariant forall j' :: i < j' < j ==> !Close(g.nodes, g.order, i, j', r, dist)
      {
        var b := g.order[j];
        assert b in g.order;
        if dist(g.nodes[a].pos, g.nodes[b].pos) < r {
          return Some((a, b));
        }
        j := j + 1;
      }
      i := i + 1;
    }
    return None;
  }

  /**
   * Ascending positions in the order that have no close pair leave no two
   * distinct nodes closer than r, in either direction.
   */
  lemma NoCloseNodes(nodes: map<int, Node>, order: seq<int>, r: real, dist: (Point, Point) -> real)
    requires Keyed(nodes) && OrderOf(order, nodes) && IsEuclidean(dist)
    requires forall i, j :: 0 <= i < j < |order| ==> !Close(nodes, order, i, j, r, dist)
    ensures forall a, b :: a in nodes && b in nodes && a != b ==> dist(nodes[a].pos, nodes[b].pos) >= r
  {
    forall a, b | a in nodes && b in nodes && a != b ensures dist(nodes[a].pos, nodes[b].pos) >= r {
      assert a in order && b in order;
      var i :| 0 <= i < |order| && order[i] == a;
      var j :| 0 <= j < |order| && order[j] == b;
      if j < i {
        assert !Close(nodes, order, j, i, r, dist);
        DistSymmetric(dist, nodes[a].pos, nodes[b].pos);
      } else {
        assert !Close(nodes, order, i, j, r, dist);
      }
    }
  }

  /**
   * `auto_merge_nearby_nodes(r)`: merges the first close pair, rescans, and
   * stops when no two nodes are closer than r. Every round removes a node,
   * so it terminates; it returns how many merges it did, which is how many
   * nodes went. A merge that raises stops the whole operation with the
   * error; a floor whose edges all join existing nodes never raises.
   */
  method AutoMergeNearbyNodes(g: Graph, r: real, dist: (Point, Point) -> real) returns (merged: Result<nat, GraphError>)
    requires g.WellFormed() && IsEuclidean(dist)
    modifies g
    ensures g.WellFormed()
    ensures merged.Success? ==> merged.value == old(|g.nodes|) - |g.nodes|
    ensures merged.Success? ==> forall a, b :: a in g.nodes && b in g.nodes && a != b ==> dist(g.nodes[a].pos, g.nodes[b].pos) >= r
    ensures forall k :: k in g.nodes ==> k in old(g.nodes)
    ensures old(g.Valid()) ==> merged.Success? && g.Valid()
    ensures g.name == old(g.name) && g.nextNodeId == old(g.nextNodeId)
  {
    var count := 0;
    while true
      invariant g.WellFormed()
      invariant count + |g.nodes| == old(|g.nodes|)
      invariant forall k :: k in g.nodes ==> k in old(g.nodes)
      invariant old(g.Valid()) ==> g.Valid()
      invariant g.name == old(g.name) && g.nextNodeId == old(g.nextNodeId)
      decreases |g.nodes|
    {
      var pair := FindClosePair(g, r, dist);
      if pair.None? {
        NoCloseNodes(g.nodes, g.order, r, dist);
        return Success(count);
      }
      var keep, remove := pair.value.0, pair.value.1;
      var step := MergeStep(g, keep, remove, dist);
      if step.Failure? {
        return Failure(step.error);
      }
      count := count + 1;
    }
  }

  /**
   * One merge of a close pair found by the scan, with what the loop needs
   * to know about it: it removes one node, or it raises and removes none.
   */
  method MergeStep(g: Graph, keep: int, remove: int, dist: (Point, Point) -> real) returns (r: Result<(), GraphError>)
    requires g.WellFormed()
    requires exists i, j :: 0 <= i < j < |g.order| && (keep, remove) == (g.order[i], g.order[j])
    modifies g
    ensures g.WellFormed()
    ensures |g.nodes| == if r.Success? then old(|g.nodes|) - 1 else old(|g.nodes|)
    ensures forall k :: k in g.nodes ==> k in old(g.nodes)
    ensures old(g.Valid()) ==> r.Success? && g.Valid()
    ensures g.name == old(g.name) && g.nextNodeId == old(g.nextNodeId)
  {
    var i, j :| 0 <= i < j < |g.order| && (keep, remove) == (g.order[i], g.order[j]);
    assert keep in g.order && remove in g.order;
    ghost var s := Floor(g.nodes, g.order, g.edges);
    MergeFloorWellFormed(s, keep, remove, dist);
    MergeFloorShrinks(s, keep, remove, dist);
    MergeFloorNodes(s, keep, remove, dist);
    AbortedMergeNodes(s, keep, remove, dist);
    if g.Valid() {
      MergeFloorValid(s, keep, remove, dist, g.nextNodeId);
      EndpointsResolveMerge(s, keep, remove);
    }
    r := MergeTwoNodes(g, keep, remove, dist);
    if r.Failure? {
      assert g.nodes.Keys == s.nodes.Keys;
    }
  }

  // ---------------------------------------------------------------------
  // simplify_paths
  // ---------------------------------------------------------------------

  /** The edges at id, in list order: the editor's `connected_edges`. */
  function Incident(edges: seq<Edge>, id: int): (r: seq<Edge>)
    ensures |r| == Degree(edges, id)
  {
    if edges == [] then []
    else (if Touches(edges[0], id) then [edges[0]] else []) + Incident(edges[1..], id)
  }

  /** How far from the segment between its neighbours a node may lie and still count as straight. */
  const MaxDistanceFromLine: real := 15.0

  /**
   * Step 1 of `simplify_paths`: a node is a key node when it does not have
   * exactly two edges, or when both its neighbours exist and it lies more
   * than MaxDistanceFromLine from the segment between them.
   */
  predicate IsKeyNode(nodes: map<int, Node>, edges: seq<Edge>, id: int, dist: (Point, Point) -> real)
    requires id in nodes && IsEuclidean(dist)
  {
    var inc := Incident(edges, id);
    |inc| != 2
    || (var n1, n2 := Other(inc[0], id), Other(inc[1], id);
        n1 in nodes && n2 in nodes
        && PointToLineDistance(nodes[id].pos, nodes[n1].pos, nodes[n2].pos, dist) > MaxDistanceFromLine)
  }

  /** The key nodes of a floor. */
  function KeyNodes(nodes: map<int, Node>, edges: seq<Edge>, dist: (Point, Point) -> real): set<int>
    requires IsEuclidean(dist)
  {
    set k | k in nodes && IsKeyNode(nodes, edges, k, dist)
  }

  /** Step 1 of `simplify_paths`: the set of key nodes. */
  method MarkKeyNodes(g: Graph, dist: (Point, Point) -> real) returns (important: set<int>)
    requires g.WellFormed() && IsEuclidean(dist)
    ensures forall k :: k in important <==> k in g.nodes && IsKeyNode(g.nodes, g.edges, k, dist)
    ensures important == KeyNodes(g.nodes, g.edges, dist)
  {
    important := {};
    var i := 0;
    while i < |g.order|
      invariant 0 <= i <= |g.order|
      invariant forall k :: k in important <==> k in g.nodes && k in g.order[..i] && IsKeyNode(g.nodes, g.edges, k, dist)
    {
      var k := g.order[i];
      assert k in g.order;
      important := MarkNode(g, k, important, dist);
      assert g.order[..i + 1] == g.order[..i] + [k];
      i := i + 1;
    }
    assert g.order[..|g.order|] == g.order;
    KeyNodesMembers(g.nodes, g.edges, dist, important);
  }

  /** One pass of step 1's loop: node k joins the marked set exactly when it is a key node. */
  method MarkNode(g: Graph, k: int, important: set<int>, dist: (Point, Point) -> real) returns (marked: set<int>)
    requires k in g.nodes && IsEuclidean(dist)
    ensures marked == if IsKeyNode(g.nodes, g.edges, k, dist) then important + {k} else important
  {
    marked := important;
    var connected := Incident(g.edges, k);
    if |connected| != 2 {
      marked := marked + {k};
    } else {
      var n1, n2 := Other(connected[0], k), Other(connected[1], k);
      if n1 in g.nodes && n2 in g.nodes {
        var d := PointToLineDistance(g.nodes[k].pos, g.nodes[n1].pos, g.nodes[n2].pos, dist);
        if d > MaxDistanceFromLine {
          marked := marked + {k};
        }
      }
    }
  }

  lemma KeyNodesMembers(nodes: map<int, Node>, edges: seq<Edge>, dist: (Point, Point) -> real, important: set<int>)
    requires IsEuclidean(dist)
    requires forall k :: k in important <==> k in nodes && IsKeyNode(nodes, edges, k, dist)
    ensures important == KeyNodes(nodes, edges, dist)
  {
    var key := KeyNodes(nodes, edges, dist);
    forall k | k in key ensures k in important {
      assert k in nodes && IsKeyNode(nodes, edges, k, dist);
    }
    forall k | k in important ensures k in key {
      assert k in nodes && IsKeyNode(nodes, edges, k, dist);
    }
  }

  /** Step 2 of `simplify_paths`: of the first n keys, in order, those not marked and with exactly two edges. */
  function Removable(order: seq<int>, edges: seq<Edge>, important: set<int>, n: nat): seq<int>
    requires n <= |order|
  {
    if n == 0 then []
    else
      var k := order[n - 1];
      Removable(order, edges, important, n - 1) + (if k !in important && Degree(edges, k) == 2 then [k] else [])
  }

  /** Step 2 of `simplify_paths`. */
  method ListRemovable(g: Graph, important: set<int>) returns (candidates: seq<int>)
    ensures candidates == Removable(g.order, g.edges, important, |g.order|)
  {
    candidates := [];
    var i := 0;
    while i < |g.order|
      invariant 0 <= i <= |g.order|
      invariant candidates == Removable(g.order, g.edges, important, i)
    {
      var k := g.order[i];
      if k !in important {
        var connected := Incident(g.edges, k);
        if |connected| == 2 {
          candidates := candidates + [k];
        }
      }
      i := i + 1;
    }
  }

  /** The removed candidates are keys, not marked, with two edges, each listed once. */
  lemma {:induction false} RemovableMembers(order: seq<int>, edges: seq<Edge>, important: set<int>, n: nat)
    requires n <= |order| && Distinct(order)
    ensures forall k :: k in Removable(order, edges, important, n) <==> k in order[..n] && k !in important && Degree(edges, k) == 2
    ensures Distinct(Removable(order, edges, important, n))
  {
    if n > 0 {
      RemovableMembers(order, edges, important, n - 1);
      assert order[..n] == order[..n - 1] + [order[n - 1]];
      var prefix := Removable(order, edges, important, n - 1);
      var r := Removable(order, edges, important, n);
      var k := order[n - 1];
      assert k !in order[..n - 1];
      forall i, j | 0 <= i < j < |r| ensures r[i] != r[j] {
        if j >= |prefix| {
          assert r[i] == prefix[i] && prefix[i] in prefix;
        } else {
          assert r[i] == prefix[i] && r[j] == prefix[j];
        }
      }
    }
  }

  /** `remove_node` on a floor value. */
  function Deleted(s: Floor, id: int): (r: Floor)
  {
    if id in s.nodes then Floor(s.nodes - {id}, Erase(s.order, id), WithoutNode(s.edges, id)) else s
  }

  /**
   * Step 3 of `simplify_paths` for one candidate: when it still has
   * exactly two edges it is deleted, and its two neighbours, when both are
   * still nodes and not yet linked, get an edge.
   */
  function SimplifyStep(s: Floor, v: int, dist: (Point, Point) -> real): Floor
  {
    var inc := Incident(s.edges, v);
    if |inc| != 2 then s
    else
      var n1, n2 := Other(inc[0], v), Other(inc[1], v);
      var t := Deleted(s, v);
      if n1 in t.nodes && n2 in t.nodes && !Linked(t.edges, n1, n2)
      then Floor(t.nodes, t.order, Connect(t.edges, n1, n2, dist(t.nodes[n1].pos, t.nodes[n2].pos)))
      else t
  }

  /** Step 3 of `simplify_paths` over the first n candidates. */
  function SimplifyAll(s: Floor, candidates: seq<int>, n: nat, dist: (Point, Point) -> real): Floor
    requires n <= |candidates|
  {
    if n == 0 then s else SimplifyStep(SimplifyAll(s, candidates, n - 1, dist), candidates[n - 1], dist)
  }

  /** How many of the first n candidates step 3 counts as removed: those with two edges when their turn comes. */
  function RemovedCount(s: Floor, candidates: seq<int>, n: nat, dist: (Point, Point) -> real): nat
    requires n <= |candidates|
  {
    if n == 0 then 0
    else RemovedCount(s, candidates, n - 1, dist) + if Degree(SimplifyAll(s, candidates, n - 1, dist).edges, candidates[n - 1]) == 2 then 1 else 0
  }

  /** The incident list holds exactly the edges touching id. */
  lemma {:induction false} IncidentMembers(edges: seq<Edge>, id: int)
    ensures forall e :: e in Incident(edges, id) <==> e in edges && Touches(e, id)
  {
    if edges != [] {
      IncidentMembers(edges[1..], id);
      assert edges == [edges[0]] + edges[1..];
    }
  }

  /** A node with an edge is a node of a graph whose endpoints exist. */
  lemma TouchedIsNode(nodes: map<int, Node>, edges: seq<Edge>, id: int)
    requires EndpointsExist(nodes, edges) && Degree(edges, id) > 0
    ensures id in nodes
  {
    var e :| e in edges && Touches(e, id);
  }

  /** `remove_node` keeps the graph invariant and takes exactly one node away when the id is present. */
  lemma DeletedValid(s: Floor, id: int, next: int)
    requires FloorValid(s, next)
    ensures FloorValid(Deleted(s, id), next)
    ensures id in s.nodes ==> |Deleted(s, id).nodes| == |s.nodes| - 1
  {
    if id in s.nodes {
      EraseDistinct(s.order, id);
      WithoutNodeKeepsInvariant(s.nodes, s.edges, id);
      assert (s.nodes - {id}).Keys == s.nodes.Keys - {id};
    }
  }

  /** One step keeps the graph invariant. */
  lemma SimplifyStepValid(s: Floor, v: int, dist: (Point, Point) -> real, next: int)
    requires FloorValid(s, next)
    ensures FloorValid(SimplifyStep(s, v, dist), next)
  {
    DeletedValid(s, v, next);
    var inc := Incident(s.edges, v);
    if |inc| == 2 {
      var n1, n2 := Other(inc[0], v), Other(inc[1], v);
      var t := Deleted(s, v);
      if n1 in t.nodes && n2 in t.nodes && !Linked(t.edges, n1, n2) {
        ConnectKeepsInvariant(t.nodes, t.edges, n1, n2, dist(t.nodes[n1].pos, t.nodes[n2].pos));
      }
    }
  }

  /**
   * One step on a valid floor: a node without exactly two edges is left
   * alone; one with two edges is deleted together with its edges, the other
   * edges stay in order and at most one edge is appended.
   */
  lemma SimplifyStepEffect(s: Floor, v: int, dist: (Point, Point) -> real, next: int)
    requires FloorValid(s, next)
    ensures Degree(s.edges, v) != 2 ==> SimplifyStep(s, v, dist) == s
    ensures Degree(s.edges, v) == 2 ==>
      var r := SimplifyStep(s, v, dist);
      v in s.nodes && r.nodes == s.nodes - {v} && r.order == Erase(s.order, v)
      && WithoutNode(s.edges, v) <= r.edges && |r.edges| <= |WithoutNode(s.edges, v)| + 1
  {
    if Degree(s.edges, v) == 2 {
      TouchedIsNode(s.nodes, s.edges, v);
      var inc := Incident(s.edges, v);
      var t := Deleted(s, v);
      var n1, n2 := Other(inc[0], v), Other(inc[1], v);
      if n1 in t.nodes && n2 in t.nodes {
        ConnectSpec(t.edges, n1, n2, dist(t.nodes[n1].pos, t.nodes[n2].pos));
      }
    }
  }

  /**
   * A step that deletes a node with two edges appends nothing but an edge
   * joining its two neighbours, and leaves them linked whenever both are
   * still nodes.
   */
  lemma SimplifyStepRelinks(s: Floor, v: int, dist: (Point, Point) -> real, inc: seq<Edge>, r: Floor)
    requires EndpointsExist(s.nodes, s.edges) && Degree(s.edges, v) == 2
    requires inc == Incident(s.edges, v) && r == SimplifyStep(s, v, dist)
    ensures inc[0] in s.edges && inc[1] in s.edges && Touches(inc[0], v) && Touches(inc[1], v)
    ensures forall i :: |WithoutNode(s.edges, v)| <= i < |r.edges| ==> Joins(r.edges[i], Other(inc[0], v), Other(inc[1], v))
    ensures Other(inc[0], v) in r.nodes && Other(inc[1], v) in r.nodes ==> Linked(r.edges, Other(inc[0], v), Other(inc[1], v))
  {
    IncidentMembers(s.edges, v);
    TouchedIsNode(s.nodes, s.edges, v);
    var n1, n2 := Other(inc[0], v), Other(inc[1], v);
    var t := Deleted(s, v);
    assert t.edges == WithoutNode(s.edges, v);
    if n1 in t.nodes && n2 in t.nodes && !Linked(t.edges, n1, n2) {
      var w := dist(t.nodes[n1].pos, t.nodes[n2].pos);
      assert r.edges == t.edges + [Edge(n1, n2, Some(w))];
      assert Joins(r.edges[|t.edges|], n1, n2);
    } else {
      assert r.edges == t.edges;
    }
  }

  /** One more candidate is one more step, and one more count when it has two edges then. */
  lemma SimplifyAllStep(s: Floor, candidates: seq<int>, i: nat, dist: (Point, Point) -> real)
    requires i < |candidates|
    ensures SimplifyAll(s, candidates, i + 1, dist) == SimplifyStep(SimplifyAll(s, candidates, i, dist), candidates[i], dist)
    ensures RemovedCount(s, candidates, i + 1, dist)
      == RemovedCount(s, candidates, i, dist) + if Degree(SimplifyAll(s, candidates, i, dist).edges, candidates[i]) == 2 then 1 else 0
  {
  }

  /** A step deletes at most the candidate itself and changes no other node. */
  lemma SimplifyStepNodes(s: Floor, v: int, dist: (Point, Point) -> real)
    ensures SimplifyStep(s, v, dist).nodes == s.nodes || SimplifyStep(s, v, dist).nodes == s.nodes - {v}
  {
  }

  /** One step deletes one node exactly when the candidate has two edges. */
  lemma StepCount(prev: Floor, v: int, dist: (Point, Point) -> real, next: int, r: Floor)
    requires FloorValid(prev, next) && r == SimplifyStep(prev, v, dist)
    ensures |r.nodes| + (if Degree(prev.edges, v) == 2 then 1 else 0) == |prev.nodes|
  {
    SimplifyStepEffect(prev, v, dist, next);
    if Degree(prev.edges, v) == 2 {
      assert (prev.nodes - {v}).Keys == prev.nodes.Keys - {v};
    }
  }

  /** Step 3 of `simplify_paths` for one candidate, on the graph. */
  method SimplifyOne(g: Graph, v: int, dist: (Point, Point) -> real) returns (removed: bool)
    modifies g
    ensures Floor(g.nodes, g.order, g.edges) == SimplifyStep(old(Floor(g.nodes, g.order, g.edges)), v, dist)
    ensures removed <==> Degree(old(g.edges), v) == 2
    ensures g.name == old(g.name) && g.nextNodeId == old(g.nextNodeId)
  {
    var connected := Incident(g.edges, v);
    if |connected| != 2 {
      return false;
    }
    var n1, n2 := Other(connected[0], v), Other(connected[1], v);
    g.RemoveNode(v);
    if n1 in g.nodes && n2 in g.nodes {
      var linked := g.EdgeExists(n1, n2);
      if !linked {
        var _ := g.AddEdge(n1, n2, None, dist);
      }
    }
    return true;
  }

  /**
   * Every node of `after` is a node of `before`, unchanged, and every node
   * of `before` not listed in `gone` is still there.
   */
  ghost predicate KeptNodes(after: map<int, Node>, before: map<int, Node>, gone: seq<int>)
  {
    (forall k :: k in after ==> k in before && after[k] == before[k])
    && (forall k :: k in before && k !in gone ==> k in after)
  }

  /** Step 3 of `simplify_paths` after the first i candidates, starting from s. */
  ghost predicate SimplifiedSoFar(f: Floor, s: Floor, valid: bool, next: int, candidates: seq<int>, i: nat, removed: nat,
                                  dist: (Point, Point) -> real)
  {
    i <= |candidates|
    && f == SimplifyAll(s, candidates, i, dist)
    && removed == RemovedCount(s, candidates, i, dist)
    && (valid ==> FloorValid(f, next) && |f.nodes| + removed == |s.nodes|)
    && KeptNodes(f.nodes, s.nodes, candidates[..i])
  }

  /** One more step keeps the facts about step 3 so far. */
  lemma SimplifiedOneMore(f: Floor, s: Floor, valid: bool, next: int, candidates: seq<int>, i: nat, removed: nat,
                          dist: (Point, Point) -> real, r: Floor, did: bool)
    requires i < |candidates| && SimplifiedSoFar(f, s, valid, next, candidates, i, removed, dist)
    requires r == SimplifyStep(f, candidates[i], dist) && (did <==> Degree(f.edges, candidates[i]) == 2)
    ensures SimplifiedSoFar(r, s, valid, next, candidates, i + 1, if did then removed + 1 else removed, dist)
  {
    SimplifyAllStep(s, candidates, i, dist);
    PrefixNext(candidates, i);
    StepKeeps(f, s, valid, next, candidates[..i], candidates[i], removed, dist, r, did);
  }

  lemma PrefixNext(xs: seq<int>, i: nat)
    requires i < |xs|
    ensures xs[..i + 1] == xs[..i] + [xs[i]]
  {
  }

  /** The part of SimplifiedOneMore that is about one step only. */
  lemma StepKeeps(f: Floor, s: Floor, valid: bool, next: int, done: seq<int>, v: int, removed: nat,
                  dist: (Point, Point) -> real, r: Floor, did: bool)
    requires valid ==> FloorValid(f, next) && |f.nodes| + removed == |s.nodes|
    requires KeptNodes(f.nodes, s.nodes, done)
    requires r == SimplifyStep(f, v, dist) && (did <==> Degree(f.edges, v) == 2)
    ensures valid ==> FloorValid(r, next) && |r.nodes| + (if did then removed + 1 else removed) == |s.nodes|
    ensures KeptNodes(r.nodes, s.nodes, done + [v])
  {
    SimplifyStepNodes(f, v, dist);
    if valid {
      SimplifyStepValid(f, v, dist, next);
      StepCount(f, v, dist, next, r);
    }
  }

  /** Step 3 of `simplify_paths` for the next candidate, with the running count. */
  method SimplifyNext(g: Graph, ghost s: Floor, ghost valid: bool, candidates: seq<int>, i: nat, count: nat, dist: (Point, Point) -> real)
    returns (next: nat)
    modifies g
    requires i < |candidates| && SimplifiedSoFar(Floor(g.nodes, g.order, g.edges), s, valid, g.nextNodeId, candidates, i, count, dist)
    ensures SimplifiedSoFar(Floor(g.nodes, g.order, g.edges), s, valid, g.nextNodeId, candidates, i + 1, next, dist)
    ensures g.name == old(g.name) && g.nextNodeId == old(g.nextNodeId)
  {
    ghost var prev := Floor(g.nodes, g.order, g.edges);
    var did := SimplifyOne(g, candidates[i], dist);
    next := if did then count + 1 else count;
    SimplifiedOneMore(prev, s, valid, g.nextNodeId, candidates, i, count, dist, Floor(g.nodes, g.order, g.edges), did);
  }

  /**
   * Step 3 of `simplify_paths`: a valid graph stays valid, the count is
   * the number of nodes deleted, only candidates are deleted and no kept
   * node changes.
   */
  method RemoveStraightNodes(g: Graph, candidates: seq<int>, dist: (Point, Point) -> real) returns (removed: nat)
    modifies g
    ensures Floor(g.nodes, g.order, g.edges) == SimplifyAll(old(Floor(g.nodes, g.order, g.edges)), candidates, |candidates|, dist)
    ensures removed == RemovedCount(old(Floor(g.nodes, g.order, g.edges)), candidates, |candidates|, dist)
    ensures old(g.Valid()) ==> g.Valid() && |g.nodes| + removed == old(|g.nodes|)
    ensures forall k :: k in g.nodes ==> k in old(g.nodes) && g.nodes[k] == old(g.nodes)[k]
    ensures forall k :: k in old(g.nodes) && k !in candidates ==> k in g.nodes
    ensures g.name == old(g.name) && g.nextNodeId == old(g.nextNodeId)
  {
    ghost var s := Floor(g.nodes, g.order, g.edges);
    ghost var valid := g.Valid();
    removed := 0;
    var i := 0;
    while i < |candidates|
      invariant 0 <= i <= |candidates|
      invariant SimplifiedSoFar(Floor(g.nodes, g.order, g.edges), s, valid, g.nextNodeId, candidates, i, removed, dist)
      invariant g.name == old(g.name) && g.nextNodeId == old(g.nextNodeId)
    {
      removed := SimplifyNext(g, s, valid, candidates, i, removed, dist);
      i := i + 1;
    }
    assert candidates[..i] == candidates;
  }

  /**
   * `simplify_paths`: marks the key nodes, lists the others that have two
   * edges, and deletes those, joining their neighbours. It reports how many
   * key nodes it found and how many nodes it deleted; a valid graph stays
   * valid, every deleted node had two edges and was not a key node, and no
   * node that is kept changes.
   */
  method SimplifyPaths(g: Graph, dist: (Point, Point) -> real) returns (keyCount: nat, removed: nat)
    modifies g
    requires g.WellFormed() && IsEuclidean(dist)
    ensures keyCount == |KeyNodes(old(g.nodes), old(g.edges), dist)|
    ensures Floor(g.nodes, g.order, g.edges)
      == SimplifyAll(old(Floor(g.nodes, g.order, g.edges)),
                     Removable(old(g.order), old(g.edges), KeyNodes(old(g.nodes), old(g.edges), dist), |old(g.order)|),
                     |Removable(old(g.order), old(g.edges), KeyNodes(old(g.nodes), old(g.edges), dist), |old(g.order)|)|, dist)
    ensures old(g.Valid()) ==> g.Valid() && removed == old(|g.nodes|) - |g.nodes|
    ensures forall k :: k in g.nodes ==> k in old(g.nodes) && g.nodes[k] == old(g.nodes)[k]
    ensures forall k :: k in old(g.nodes) && k !in g.nodes ==>
      !IsKeyNode(old(g.nodes), old(g.edges), k, dist) && Degree(old(g.edges), k) == 2
    ensures g.name == old(g.name) && g.nextNodeId == old(g.nextNodeId)
  {
    ghost var before := Floor(g.nodes, g.order, g.edges);
    var important := MarkKeyNodes(g, dist);
    keyCount := |important|;
    var candidates := ListRemovable(g, important);
    RemovableMembers(g.order, g.edges, important, |g.order|);
    assert g.order[..|g.order|] == g.order;
    removed := RemoveStraightNodes(g, candidates, dist);
    forall k | k in before.nodes && k !in g.nodes
      ensures !IsKeyNode(before.nodes, before.edges, k, dist) && Degree(before.edges, k) == 2
    {
      assert k in candidates;
    }
  }
}
