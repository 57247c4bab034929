/**
 * Two whole-floor edits of the editor: `auto_connect`, which connects every
 * pair of nodes lying within a distance of each other, and
 * `remove_path_nodes`, which deletes every node a simulated walk left
 * behind (those whose label starts with "P").
 */
module Batch {
  import opened Wrappers
  import opened Geometry
  import opened Text
  import opened LevelGraph
  import opened GraphDoc
  import opened Maintenance

  // ---------------------------------------------------------------------
  // auto_connect
  // ---------------------------------------------------------------------

  /** Python's truth test on the dialog's answer: a number other than zero, and not a cancelled dialog. */
  predicate Enabled(maxDistance: Option<real>)
  {
    maxDistance.Some? && maxDistance.value != 0.0
  }

  /** Nodes i < k of the list lie within maxD, measured by `distance_to` from the earlier one. */
  predicate ClosePair(ns: seq<Node>, i: int, k: int, maxD: real, dist: (Point, Point) -> real)
  {
    0 <= i < k < |ns| && dist(ns[i].pos, ns[k].pos) <= maxD
  }

  /** The `add_edge` requests of row i of the scan, for partners i + 1 up to j - 1. */
  function RowPairs(ns: seq<Node>, i: nat, j: nat, maxD: real, dist: (Point, Point) -> real): seq<Edge>
    requires i < |ns| && j <= |ns|
  {
    if j <= i + 1 then []
    else
      RowPairs(ns, i, j - 1, maxD, dist)
      + if ClosePair(ns, i, j - 1, maxD, dist) then [Edge(ns[i].id, ns[j - 1].id, None)] else []
  }

  /** The `add_edge` requests of the first n rows of the scan. */
  function ClosePairs(ns: seq<Node>, n: nat, maxD: real, dist: (Point, Point) -> real): seq<Edge>
    requires n <= |ns|
  {
    if n == 0 then [] else ClosePairs(ns, n - 1, maxD, dist) + RowPairs(ns, n - 1, |ns|, maxD, dist)
  }

  lemma {:induction false} RowPairsHas(ns: seq<Node>, i: nat, j: nat, k: int, maxD: real, dist: (Point, Point) -> real)
    requires i < |ns| && j <= |ns| && ClosePair(ns, i, k, maxD, dist) && k < j
    ensures Edge(ns[i].id, ns[k].id, None) in RowPairs(ns, i, j, maxD, dist)
  {
    if k < j - 1 {
      RowPairsHas(ns, i, j - 1, k, maxD, dist);
    }
  }

  /** Every pair within maxD is requested, from the earlier node to the later one. */
  lemma {:induction false} ClosePairsHas(ns: seq<Node>, n: nat, i: int, k: int, maxD: real, dist: (Point, Point) -> real)
    requires n <= |ns| && ClosePair(ns, i, k, maxD, dist) && i < n
    ensures Edge(ns[i].id, ns[k].id, None) in ClosePairs(ns, n, maxD, dist)
  {
    var prev, row := ClosePairs(ns, n - 1, maxD, dist), RowPairs(ns, n - 1, |ns|, maxD, dist);
    assert ClosePairs(ns, n, maxD, dist) == prev + row;
    if i < n - 1 {
      ClosePairsHas(ns, n - 1, i, k, maxD, dist);
      AppendKeeps(prev, row, Edge(ns[i].id, ns[k].id, None));
    } else {
      RowPairsHas(ns, i, |ns|, k, maxD, dist);
      AppendKeeps(prev, row, Edge(ns[i].id, ns[k].id, None));
    }
  }

  lemma AppendKeeps(xs: seq<Edge>, ys: seq<Edge>, q: Edge)
    ensures q in xs + ys <==> q in xs || q in ys
  {
  }

  lemma {:induction false} RowPairsOnly(ns: seq<Node>, i: nat, j: nat, maxD: real, dist: (Point, Point) -> real, q: Edge)
    requires i < |ns| && j <= |ns| && q in RowPairs(ns, i, j, maxD, dist)
    ensures exists k :: ClosePair(ns, i, k, maxD, dist) && q == Edge(ns[i].id, ns[k].id, None)
  {
    if j > i + 1 && q in RowPairs(ns, i, j - 1, maxD, dist) {
      RowPairsOnly(ns, i, j - 1, maxD, dist, q);
    }
  }

  /** Only pairs within maxD are requested. */
  lemma {:induction false} ClosePairsOnly(ns: seq<Node>, n: nat, maxD: real, dist: (Point, Point) -> real, q: Edge)
    requires n <= |ns| && q in ClosePairs(ns, n, maxD, dist)
    ensures exists i, k :: ClosePair(ns, i, k, maxD, dist) && q == Edge(ns[i].id, ns[k].id, None)
  {
    var prev, row := ClosePairs(ns, n - 1, maxD, dist), RowPairs(ns, n - 1, |ns|, maxD, dist);
    assert ClosePairs(ns, n, maxD, dist) == prev + row;
    AppendKeeps(prev, row, q);
    if q in prev {
      ClosePairsOnly(ns, n - 1, maxD, dist, q);
    } else {
      RowPairsOnly(ns, n - 1, |ns|, maxD, dist, q);
      var k :| ClosePair(ns, n - 1, k, maxD, dist) && q == Edge(ns[n - 1].id, ns[k].id, None);
      assert ClosePair(ns, n - 1, k, maxD, dist) && q == Edge(ns[n - 1].id, ns[k].id, None);
    }
  }

  /**
   * `auto_connect` over a list of the floor's nodes: the old edges stay in
   * front, every pair within maxD is linked afterwards, and every pair
   * linked afterwards was linked before or lies within maxD.
   */
  lemma AutoConnectLinks(edges: seq<Edge>, nodes: map<int, Node>, ns: seq<Node>, maxD: real, dist: (Point, Point) -> real)
    requires forall k :: 0 <= k < |ns| ==> ns[k].id in nodes
    ensures edges <= ConnectAll(edges, ClosePairs(ns, |ns|, maxD, dist), nodes, dist)
    ensures forall i, k :: ClosePair(ns, i, k, maxD, dist) ==>
      Linked(ConnectAll(edges, ClosePairs(ns, |ns|, maxD, dist), nodes, dist), ns[i].id, ns[k].id)
    ensures forall x, y :: Linked(ConnectAll(edges, ClosePairs(ns, |ns|, maxD, dist), nodes, dist), x, y) ==>
      Linked(edges, x, y) || exists i, k :: ClosePair(ns, i, k, maxD, dist) && Joins(Edge(ns[i].id, ns[k].id, None), x, y)
  {
    var reqs := ClosePairs(ns, |ns|, maxD, dist);
    var r := ConnectAll(edges, reqs, nodes, dist);
    forall q | q in reqs ensures q.n1 in nodes && q.n2 in nodes {
      ClosePairsOnly(ns, |ns|, maxD, dist, q);
    }
    ConnectAllSpec(edges, reqs, nodes, dist);
    forall i, k | ClosePair(ns, i, k, maxD, dist) ensures Linked(r, ns[i].id, ns[k].id) {
      ClosePairsHas(ns, |ns|, i, k, maxD, dist);
    }
    forall x, y | Linked(r, x, y) && !Linked(edges, x, y)
      ensures exists i, k :: ClosePair(ns, i, k, maxD, dist) && Joins(Edge(ns[i].id, ns[k].id, None), x, y)
    {
      var q :| q in reqs && Joins(q, x, y);
      ClosePairsOnly(ns, |ns|, maxD, dist, q);
    }
  }

  /** One more partner j of row i: the requests so far, then j's when it is close. */
  lemma RowStep(e0: seq<Edge>, before: seq<Edge>, after: seq<Edge>, ns: seq<Node>, i: nat, j: nat, maxD: real,
                nodes: map<int, Node>, dist: (Point, Point) -> real)
    requires i < j < |ns|
    requires before == ConnectAll(e0, RowPairs(ns, i, j, maxD, dist), nodes, dist)
    requires after == if dist(ns[i].pos, ns[j].pos) <= maxD
      then ConnectRequest(before, Edge(ns[i].id, ns[j].id, None), nodes, dist) else before
    ensures after == ConnectAll(e0, RowPairs(ns, i, j + 1, maxD, dist), nodes, dist)
  {
    if dist(ns[i].pos, ns[j].pos) <= maxD {
      var q := Edge(ns[i].id, ns[j].id, None);
      assert RowPairs(ns, i, j + 1, maxD, dist) == RowPairs(ns, i, j, maxD, dist) + [q];
      ConnectAllSnoc(e0, RowPairs(ns, i, j, maxD, dist), q, nodes, dist);
    } else {
      assert RowPairs(ns, i, j + 1, maxD, dist) == RowPairs(ns, i, j, maxD, dist);
    }
  }

  /** Row i of `auto_connect`'s scan: `add_edge` from node i to every later node within maxD. */
  method ConnectRow(g: Graph, ns: seq<Node>, i: nat, maxD: real, dist: (Point, Point) -> real)
    modifies g
    requires i < |ns|
    ensures g.nodes == old(g.nodes) && g.order == old(g.order) && g.name == old(g.name) && g.nextNodeId == old(g.nextNodeId)
    ensures g.edges == ConnectAll(old(g.edges), RowPairs(ns, i, |ns|, maxD, dist), g.nodes, dist)
  {
    var j := i + 1;
    while j < |ns|
      invariant i + 1 <= j <= |ns|
      invariant g.nodes == old(g.nodes) && g.order == old(g.order) && g.name == old(g.name) && g.nextNodeId == old(g.nextNodeId)
      invariant g.edges == ConnectAll(old(g.edges), RowPairs(ns, i, j, maxD, dist), g.nodes, dist)
    {
      ghost var before := g.edges;
      if dist(ns[i].pos, ns[j].pos) <= maxD {
        var _ := g.AddEdge(ns[i].id, ns[j].id, None, dist);
        assert g.edges == ConnectRequest(before, Edge(ns[i].id, ns[j].id, None), g.nodes, dist);
      }
      RowStep(old(g.edges), before, g.edges, ns, i, j, maxD, g.nodes, dist);
      j := j + 1;
    }
  }

  /**
   * `auto_connect`, given the distance the dialog returned (None when it
   * was cancelled): nothing happens for None or zero; otherwise, for every
   * pair of nodes in dict order, `add_edge` connects them when they lie
   * within that distance. Nodes never change and a valid graph stays valid.
   */
  method AutoConnect(g: Graph, maxDistance: Option<real>, dist: (Point, Point) -> real)
    modifies g
    requires g.WellFormed()
    ensures g.nodes == old(g.nodes) && g.order == old(g.order) && g.name == old(g.name) && g.nextNodeId == old(g.nextNodeId)
    ensures g.edges == if Enabled(maxDistance)
      then ConnectAll(old(g.edges), ClosePairs(Entries(g.nodes, g.order), |g.order|, maxDistance.value, dist), g.nodes, dist)
      else old(g.edges)
    ensures old(g.Valid()) ==> g.Valid()
  {
    if maxDistance.Some? && maxDistance.value != 0.0 {
      var maxD := maxDistance.value;
      var ns := Entries(g.nodes, g.order);
      if g.Valid() {
        ConnectAllKeepsInvariant(g.edges, ClosePairs(ns, |ns|, maxD, dist), g.nodes, dist);
      }
      var i := 0;
      while i < |ns|
        invariant 0 <= i <= |ns|
        invariant g.nodes == old(g.nodes) && g.order == old(g.order) && g.name == old(g.name) && g.nextNodeId == old(g.nextNodeId)
        invariant g.edges == ConnectAll(old(g.edges), ClosePairs(ns, i, maxD, dist), g.nodes, dist)
      {
        ConnectAllAppend(old(g.edges), ClosePairs(ns, i, maxD, dist), RowPairs(ns, i, |ns|, maxD, dist), g.nodes, dist);
        ConnectRow(g, ns, i, maxD, dist);
        i := i + 1;
      }
    }
  }

  /** The entries of a well-formed dict are its nodes, each under its own id. */
  lemma EntriesAreNodes(nodes: map<int, Node>, order: seq<int>)
    requires Keyed(nodes) && OrderOf(order, nodes)
    ensures |Entries(nodes, order)| == |order|
    ensures forall k :: 0 <= k < |order| ==> Entries(nodes, order)[k].id == order[k] && order[k] in nodes
  {
    forall k | 0 <= k < |order| ensures Entries(nodes, order)[k].id == order[k] && order[k] in nodes {
      var key := order[k];
      assert key in order;
    }
  }

  // ---------------------------------------------------------------------
  // remove_path_nodes
  // ---------------------------------------------------------------------

  /** Of the first n keys, in dict order, those whose node's label starts with c. */
  function PrefixedKeys(nodes: map<int, Node>, order: seq<int>, n: nat, c: char): seq<int>
    requires n <= |order|
  {
    if n == 0 then []
    else
      var k := order[n - 1];
      PrefixedKeys(nodes, order, n - 1, c) + if k in nodes && StartsWith(nodes[k].tag, c) then [k] else []
  }

  /** The listed keys are those of the first n whose label starts with c, each once. */
  lemma {:induction false} PrefixedKeysMembers(nodes: map<int, Node>, order: seq<int>, n: nat, c: char)
    requires n <= |order| && Distinct(order)
    ensures forall k :: k in PrefixedKeys(nodes, order, n, c) <==> k in order[..n] && k in nodes && StartsWith(nodes[k].tag, c)
    ensures Distinct(PrefixedKeys(nodes, order, n, c))
  {
    if n > 0 {
      PrefixedKeysMembers(nodes, order, n - 1, c);
      PrefixNext(order, n - 1);
      var prefix := PrefixedKeys(nodes, order, n - 1, c);
      var r := PrefixedKeys(nodes, order, n, c);
      var k := order[n - 1];
      assert k !in order[..n - 1];
      forall i, j | 0 <= i < j < |r| ensures r[i] != r[j] {
        if j >= |prefix| {
          assert r[i] == prefix[i] && prefix[i] in prefix;
        } else {
          assert r[i] == prefix[i] && r[j] == prefix[j];
        }
      }
    }
  }

  /** Step 1 of `remove_path_nodes`: the ids of the path nodes, in dict order. */
  method CollectPathNodes(g: Graph) returns (ids: seq<int>)
    ensures ids == PrefixedKeys(g.nodes, g.order, |g.order|, 'P')
  {
    ids := [];
    var i := 0;
    while i < |g.order|
      invariant 0 <= i <= |g.order|
      invariant ids == PrefixedKeys(g.nodes, g.order, i, 'P')
    {
      var k := g.order[i];
      if k in g.nodes && StartsWith(g.nodes[k].tag, 'P') {
        ids := ids + [k];
      }
      i := i + 1;
    }
  }

  /** `remove_node` for each of the first n ids in turn. */
  function DeleteAll(s: Floor, ids: seq<int>, n: nat): Floor
    requires n <= |ids|
  {
    if n == 0 then s else Deleted(DeleteAll(s, ids, n - 1), ids[n - 1])
  }

  /**
   * Deleting the first n ids leaves exactly the other nodes, unchanged, and
   * no edge touching a deleted id; every edge touching none of them stays.
   */
  lemma {:induction false} DeleteAllSpec(s: Floor, ids: seq<int>, n: nat)
    requires n <= |ids|
    ensures forall k :: k in DeleteAll(s, ids, n).nodes <==> k in s.nodes && k !in ids[..n]
    ensures forall k :: k in DeleteAll(s, ids, n).nodes ==> DeleteAll(s, ids, n).nodes[k] == s.nodes[k]
    ensures forall x, k :: x in DeleteAll(s, ids, n).edges && k in ids[..n] && k in s.nodes ==> !Touches(x, k)
    ensures forall x :: x in s.edges && (forall k :: k in ids[..n] ==> !Touches(x, k)) ==> x in DeleteAll(s, ids, n).edges
  {
    if n > 0 {
      DeleteAllSpec(s, ids, n - 1);
      PrefixNext(ids, n - 1);
    }
  }

  /** Deleting n distinct ids of nodes removes exactly n nodes. */
  lemma {:induction false} DeleteAllCount(s: Floor, ids: seq<int>, n: nat)
    requires n <= |ids| && Distinct(ids) && forall k :: k in ids ==> k in s.nodes
    ensures |DeleteAll(s, ids, n).nodes| == |s.nodes| - n
  {
    if n > 0 {
      DeleteAllCount(s, ids, n - 1);
      DeleteAllSpec(s, ids, n - 1);
      var prev := DeleteAll(s, ids, n - 1);
      var k := ids[n - 1];
      assert k in ids;
      assert k !in ids[..n - 1];
      assert (prev.nodes - {k}).Keys == prev.nodes.Keys - {k};
    }
  }

  /** Step 2 of `remove_path_nodes`: `remove_node` for each id in turn. */
  method RemoveNodes(g: Graph, ids: seq<int>)
    modifies g
    ensures Floor(g.nodes, g.order, g.edges) == DeleteAll(old(Floor(g.nodes, g.order, g.edges)), ids, |ids|)
    ensures g.name == old(g.name) && g.nextNodeId == old(g.nextNodeId)
    ensures old(g.Valid()) ==> g.Valid()
  {
    ghost var s := Floor(g.nodes, g.order, g.edges);
    ghost var valid := g.Valid();
    var i := 0;
    while i < |ids|
      invariant 0 <= i <= |ids|
      invariant Floor(g.nodes, g.order, g.edges) == DeleteAll(s, ids, i)
      invariant g.name == old(g.name) && g.nextNodeId == old(g.nextNodeId)
      invariant valid ==> g.Valid()
    {
      g.RemoveNode(ids[i]);
      i := i + 1;
    }
  }

  /**
   * `remove_path_nodes`: deletes every node whose label starts with "P",
   * with the edges touching it, and reports how many it deleted. No such
   * node is left, every other node is left as it was, and a valid graph
   * stays valid.
   */
  method RemovePathNodes(g: Graph) returns (count: nat)
    modifies g
    requires g.WellFormed()
    ensures count == |PrefixedKeys(old(g.nodes), old(g.order), |old(g.order)|, 'P')|
    ensures Floor(g.nodes, g.order, g.edges)
      == DeleteAll(old(Floor(g.nodes, g.order, g.edges)), PrefixedKeys(old(g.nodes), old(g.order), |old(g.order)|, 'P'), count)
    ensures count == old(|g.nodes|) - |g.nodes|
    ensures forall k :: k in g.nodes ==> !StartsWith(g.nodes[k].tag, 'P')
    ensures forall k :: k in old(g.nodes) && !StartsWith(old(g.nodes)[k].tag, 'P') ==> k in g.nodes && g.nodes[k] == old(g.nodes)[k]
    ensures g.name == old(g.name) && g.nextNodeId == old(g.nextNodeId)
    ensures old(g.Valid()) ==> g.Valid()
  {
    ghost var s := Floor(g.nodes, g.order, g.edges);
    var ids := CollectPathNodes(g);
    PrefixedKeysMembers(g.nodes, g.order, |g.order|, 'P');
    assert g.order[..|g.order|] == g.order;
    RemoveNodes(g, ids);
    count := |ids|;
    DeleteAllSpec(s, ids, |ids|);
    assert ids[..|ids|] == ids;
    DeleteAllCount(s, ids, |ids|);
  }
}
