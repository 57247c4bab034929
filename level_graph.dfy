/**
 * The per-floor graph store of the map editor: nodes keyed by id (a Python
 * dict, so iteration follows insertion order), an ordered edge list and a
 * monotonic id counter.
 *
 * Nodes and edges are values; the graph is an object whose fields the
 * operations update in place. The dictionary is modelled by the map `nodes`
 * together with `order`, the sequence of its keys in insertion order, which
 * is the order every loop over `nodes.values()` visits them in.
 */
module LevelGraph {
  import opened Wrappers
  import opened Geometry
  import opened Text

  /** A node; `tag` is the editor's label ("label" is a Dafny keyword). */
  datatype Node = Node(id: int, pos: Point, tag: string)

  /** An undirected edge; `weight` is None when a document stored null. */
  datatype Edge = Edge(n1: int, n2: int, weight: Option<real>)

  datatype GraphError = MissingNode

  /** The node constructor's label: the given one, or "N<id>" when it is empty. */
  function NodeLabel(id: int, tag: string): (r: string)
    ensures |r| > 0
    ensures tag != "" ==> r == tag
  {
    if tag != "" then tag else DefaultLabel(id)
  }

  /** The label "N<id>" a node gets when none is given. */
  function DefaultLabel(id: int): (r: string)
    ensures |r| > 1 && r[0] == 'N'
  {
    "N" + IntToString(id)
  }

  // ---------------------------------------------------------------------
  // Edges as unordered pairs
  // ---------------------------------------------------------------------

  /** e connects a and b, in either direction. */
  predicate Joins(e: Edge, a: int, b: int)
  {
    (e.n1 == a && e.n2 == b) || (e.n1 == b && e.n2 == a)
  }

  /** e has id as one of its endpoints. */
  predicate Touches(e: Edge, id: int)
  {
    e.n1 == id || e.n2 == id
  }

  /** The endpoint of e that is not id (id itself for a self-loop). */
  function Other(e: Edge, id: int): int
  {
    if e.n1 == id then e.n2 else e.n1
  }

  /** Some edge of the list connects a and b: the editor's `edge_exists`. */
  predicate Linked(edges: seq<Edge>, a: int, b: int)
  {
    exists i :: 0 <= i < |edges| && Joins(edges[i], a, b)
  }

  lemma JoinsSymmetric(e: Edge, a: int, b: int)
    ensures Joins(e, a, b) <==> Joins(e, b, a)
    ensures Joins(e, a, b) <==> Joins(Edge(a, b, None), e.n1, e.n2)
  {
  }

  /** Position of the first edge connecting a and b, if any. */
  function FirstJoining(edges: seq<Edge>, a: int, b: int): (r: Option<nat>)
    ensures r.Some? ==> r.value < |edges| && Joins(edges[r.value], a, b)
    ensures r.Some? ==> forall j :: 0 <= j < r.value ==> !Joins(edges[j], a, b)
    ensures r.None? <==> !Linked(edges, a, b)
  {
    if edges == [] then None
    else if Joins(edges[0], a, b) then Some(0)
    else
      match FirstJoining(edges[1..], a, b)
      case None =>
        assert forall j :: 1 <= j < |edges| ==> edges[j] == edges[1..][j - 1];
        None
      case Some(i) => Some(i + 1)
  }

  /** The edge list without the edges touching id, in their original order. */
  function WithoutNode(edges: seq<Edge>, id: int): (r: seq<Edge>)
    ensures |r| <= |edges|
    ensures forall e :: e in r <==> e in edges && !Touches(e, id)
  {
    if edges == [] then []
    else (if Touches(edges[0], id) then [] else [edges[0]]) + WithoutNode(edges[1..], id)
  }

  /** The edge list without the edges connecting a and b, in their original order. */
  function WithoutPair(edges: seq<Edge>, a: int, b: int): (r: seq<Edge>)
    ensures |r| <= |edges|
    ensures forall e :: e in r <==> e in edges && !Joins(e, a, b)
  {
    if edges == [] then []
    else (if Joins(edges[0], a, b) then [] else [edges[0]]) + WithoutPair(edges[1..], a, b)
  }

  /** Filtering distributes over concatenation: the kept edges stay in order. */
  lemma {:induction false} WithoutNodeAppend(xs: seq<Edge>, ys: seq<Edge>, id: int)
    ensures WithoutNode(xs + ys, id) == WithoutNode(xs, id) + WithoutNode(ys, id)
  {
    if xs == [] {
      assert xs + ys == ys;
    } else {
      assert (xs + ys)[0] == xs[0];
      assert (xs + ys)[1..] == xs[1..] + ys;
      WithoutNodeAppend(xs[1..], ys, id);
    }
  }

  /** An edge list no edge of which touches id is left as it is. */
  lemma {:induction false} WithoutNodeUntouched(edges: seq<Edge>, id: int)
    requires forall e :: e in edges ==> !Touches(e, id)
    ensures WithoutNode(edges, id) == edges
  {
    if edges != [] {
      WithoutNodeUntouched(edges[1..], id);
    }
  }

  /** The key sequence without k. */
  function Erase(order: seq<int>, k: int): (r: seq<int>)
    ensures forall x :: x in r <==> x in order && x != k
    ensures |r| <= |order|
  {
    if order == [] then []
    else (if order[0] == k then [] else [order[0]]) + Erase(order[1..], k)
  }

  /** No key occurs twice. */
  predicate Distinct(order: seq<int>)
  {
    forall i, j :: 0 <= i < j < |order| ==> order[i] != order[j]
  }

  lemma {:induction false} EraseDistinct(order: seq<int>, k: int)
    requires Distinct(order)
    ensures Distinct(Erase(order, k))
  {
    if order != [] {
      EraseDistinct(order[1..], k);
      var rest := Erase(order[1..], k);
      assert order[0] !in order[1..];
      assert order[0] !in rest;
    }
  }

  // ---------------------------------------------------------------------
  // The graph invariant, on values
  // ---------------------------------------------------------------------

  /** Each node is stored under its own id and has a non-empty label. */
  predicate Keyed(nodes: map<int, Node>)
  {
    forall k :: k in nodes ==> nodes[k].id == k && nodes[k].tag != ""
  }

  /** `order` lists the keys of `nodes`, each exactly once. */
  predicate OrderOf(order: seq<int>, nodes: map<int, Node>)
  {
    Distinct(order) && (forall k :: k in order ==> k in nodes) && (forall k :: k in nodes ==> k in order)
  }

  /** Every edge endpoint is a node of the graph. */
  predicate EndpointsExist(nodes: map<int, Node>, edges: seq<Edge>)
  {
    forall e :: e in edges ==> e.n1 in nodes && e.n2 in nodes
  }

  /** At most one edge per unordered pair of endpoints. */
  predicate NoDuplicatePairs(edges: seq<Edge>)
  {
    forall i, j :: 0 <= i < j < |edges| ==> !Joins(edges[j], edges[i].n1, edges[i].n2)
  }

  /** Number of edges touching id: the node's degree as the editor counts it. */
  function Degree(edges: seq<Edge>, id: int): (d: nat)
    ensures d <= |edges|
    ensures d == 0 <==> forall e :: e in edges ==> !Touches(e, id)
  {
    if edges == [] then 0
    else (if Touches(edges[0], id) then 1 else 0) + Degree(edges[1..], id)
  }

  /**
   * What a graph keeps between operations: the dict's shape, every id below
   * the counter, every edge endpoint a node, one edge per pair.
   */
  ghost predicate GraphInvariant(nodes: map<int, Node>, order: seq<int>, edges: seq<Edge>, next: int)
  {
    Keyed(nodes) && OrderOf(order, nodes)
    && (forall k :: k in nodes ==> k < next)
    && EndpointsExist(nodes, edges)
    && NoDuplicatePairs(edges)
  }

  /**
   * `add_node` on a graph that keeps the invariant: the counter is a fresh
   * id, so the node is appended to the order and the invariant holds again.
   */
  lemma AddNodeKeepsInvariant(nodes: map<int, Node>, order: seq<int>, edges: seq<Edge>, next: int, node: Node)
    requires GraphInvariant(nodes, order, edges, next)
    requires node.id == next && node.tag != ""
    ensures next !in nodes
    ensures GraphInvariant(nodes[next := node], order + [next], edges, next + 1)
  {
    var o := order + [next];
    forall i, j | 0 <= i < j < |o| ensures o[i] != o[j] {
      if j == |order| {
        assert o[i] in order;
      } else {
        assert o[i] == order[i] && o[j] == order[j];
      }
    }
  }

  /**
   * `add_edge` on a list whose endpoints exist: the list itself when the
   * pair is already connected, otherwise the list with one new edge of
   * weight w appended.
   */
  function Connect(edges: seq<Edge>, a: int, b: int, w: real): (r: seq<Edge>)
  {
    if Linked(edges, a, b) then edges else edges + [Edge(a, b, Some(w))]
  }

  /** Connect keeps the old edges as a prefix, links a and b, and grows by at most one. */
  lemma ConnectSpec(edges: seq<Edge>, a: int, b: int, w: real)
    ensures edges <= Connect(edges, a, b, w)
    ensures |Connect(edges, a, b, w)| <= |edges| + 1
    ensures Linked(Connect(edges, a, b, w), a, b)
    ensures forall x, y :: Linked(edges, x, y) ==> Linked(Connect(edges, a, b, w), x, y)
    ensures forall x, y :: Linked(Connect(edges, a, b, w), x, y) ==> Linked(edges, x, y) || Joins(Edge(a, b, None), x, y)
  {
    var r := Connect(edges, a, b, w);
    if !Linked(edges, a, b) {
      assert Joins(r[|edges|], a, b);
      forall x, y | Linked(edges, x, y) ensures Linked(r, x, y) {
        var i :| 0 <= i < |edges| && Joins(edges[i], x, y);
        assert r[i] == edges[i];
      }
      forall x, y | Linked(r, x, y) ensures Linked(edges, x, y) || Joins(Edge(a, b, None), x, y) {
        var i :| 0 <= i < |r| && Joins(r[i], x, y);
        if i < |edges| {
          assert r[i] == edges[i];
        }
      }
    }
  }

  /** Connect keeps every endpoint a node and never duplicates a pair. */
  lemma ConnectKeepsInvariant(nodes: map<int, Node>, edges: seq<Edge>, a: int, b: int, w: real)
    requires EndpointsExist(nodes, edges) && NoDuplicatePairs(edges)
    requires a in nodes && b in nodes
    ensures EndpointsExist(nodes, Connect(edges, a, b, w))
    ensures NoDuplicatePairs(Connect(edges, a, b, w))
  {
    var r := Connect(edges, a, b, w);
    if !Linked(edges, a, b) {
      forall i, j | 0 <= i < j < |r| ensures !Joins(r[j], r[i].n1, r[i].n2) {
        if j == |edges| {
          assert r[i] == edges[i];
          JoinsSymmetric(edges[i], a, b);
        } else {
          assert r[i] == edges[i] && r[j] == edges[j];
        }
      }
    }
  }

  /** Removing edges keeps both halves of the edge invariant. */
  lemma WithoutNodeKeepsInvariant(nodes: map<int, Node>, edges: seq<Edge>, id: int)
    requires EndpointsExist(nodes, edges) && NoDuplicatePairs(edges)
    ensures EndpointsExist(nodes - {id}, WithoutNode(edges, id))
    ensures NoDuplicatePairs(WithoutNode(edges, id))
  {
    SubsequenceNoDuplicates(edges, WithoutNode(edges, id), id);
  }

  lemma {:induction false} SubsequenceNoDuplicates(edges: seq<Edge>, r: seq<Edge>, id: int)
    requires NoDuplicatePairs(edges)
    requires r == WithoutNode(edges, id)
    ensures NoDuplicatePairs(r)
  {
    if edges != [] {
      var tail := WithoutNode(edges[1..], id);
      assert NoDuplicatePairs(edges[1..]) by {
        forall i, j | 0 <= i < j < |edges[1..]| ensures !Joins(edges[1..][j], edges[1..][i].n1, edges[1..][i].n2) {
          assert edges[1..][i] == edges[i + 1] && edges[1..][j] == edges[j + 1];
        }
      }
      SubsequenceNoDuplicates(edges[1..], tail, id);
      if !Touches(edges[0], id) {
        forall j | 0 <= j < |tail| ensures !Joins(tail[j], edges[0].n1, edges[0].n2) {
          assert tail[j] in edges[1..];
          var k :| 0 <= k < |edges[1..]| && edges[1..][k] == tail[j];
          assert edges[k + 1] == tail[j];
        }
        forall i, j | 0 <= i < j < |r| ensures !Joins(r[j], r[i].n1, r[i].n2) {
          if i == 0 {
            assert r[j] == tail[j - 1];
          } else {
            assert r[i] == tail[i - 1] && r[j] == tail[j - 1];
          }
        }
      }
    }
  }

  lemma WithoutPairKeepsInvariant(nodes: map<int, Node>, edges: seq<Edge>, a: int, b: int)
    requires EndpointsExist(nodes, edges) && NoDuplicatePairs(edges)
    ensures EndpointsExist(nodes, WithoutPair(edges, a, b))
    ensures NoDuplicatePairs(WithoutPair(edges, a, b))
  {
    PairSubsequenceNoDuplicates(edges, a, b);
  }

  lemma {:induction false} PairSubsequenceNoDuplicates(edges: seq<Edge>, a: int, b: int)
    requires NoDuplicatePairs(edges)
    ensures NoDuplicatePairs(WithoutPair(edges, a, b))
  {
    if edges != [] {
      var r := WithoutPair(edges, a, b);
      var tail := WithoutPair(edges[1..], a, b);
      assert NoDuplicatePairs(edges[1..]) by {
        forall i, j | 0 <= i < j < |edges[1..]| ensures !Joins(edges[1..][j], edges[1..][i].n1, edges[1..][i].n2) {
          assert edges[1..][i] == edges[i + 1] && edges[1..][j] == edges[j + 1];
        }
      }
      PairSubsequenceNoDuplicates(edges[1..], a, b);
      if !Joins(edges[0], a, b) {
        forall j | 0 <= j < |tail| ensures !Joins(tail[j], edges[0].n1, edges[0].n2) {
          assert tail[j] in edges[1..];
          var k :| 0 <= k < |edges[1..]| && edges[1..][k] == tail[j];
          assert edges[k + 1] == tail[j];
        }
        forall i, j | 0 <= i < j < |r| ensures !Joins(r[j], r[i].n1, r[i].n2) {
          if i == 0 {
            assert r[j] == tail[j - 1];
          } else {
            assert r[i] == tail[i - 1] && r[j] == tail[j - 1];
          }
        }
      }
    }
  }

  /** The weight `add_edge` stores for request q: its own weight, else the endpoint distance. */
  function RequestWeight(q: Edge, nodes: map<int, Node>, dist: (Point, Point) -> real): real
    requires q.n1 in nodes && q.n2 in nodes
  {
    q.weight.GetOr(dist(nodes[q.n1].pos, nodes[q.n2].pos))
  }

  /** Every endpoint of every request is a node. */
  predicate RequestsResolve(requests: seq<Edge>, nodes: map<int, Node>)
  {
    forall q :: q in requests ==> q.n1 in nodes && q.n2 in nodes
  }

  /** One `add_edge` call for request q: no change when an endpoint is missing. */
  function ConnectRequest(edges: seq<Edge>, q: Edge, nodes: map<int, Node>, dist: (Point, Point) -> real): seq<Edge>
  {
    if q.n1 in nodes && q.n2 in nodes then Connect(edges, q.n1, q.n2, RequestWeight(q, nodes, dist)) else edges
  }

  /**
   * How many requests, from the front, name two existing nodes: a run of
   * `add_edge` calls raises at the first request after them.
   */
  function Resolved(requests: seq<Edge>, nodes: map<int, Node>): (n: nat)
    ensures n <= |requests|
    ensures forall i :: 0 <= i < n ==> requests[i].n1 in nodes && requests[i].n2 in nodes
    ensures n < |requests| ==> requests[n].n1 !in nodes || requests[n].n2 !in nodes
  {
    if requests == [] then 0
    else if requests[0].n1 in nodes && requests[0].n2 in nodes then 1 + Resolved(requests[1..], nodes)
    else 0
  }

  /** All requests go through exactly when every endpoint is a node. */
  lemma ResolvedAll(requests: seq<Edge>, nodes: map<int, Node>)
    ensures Resolved(requests, nodes) == |requests| <==> RequestsResolve(requests, nodes)
  {
    var n := Resolved(requests, nodes);
    if n == |requests| {
      forall q | q in requests ensures q.n1 in nodes && q.n2 in nodes {
        var i :| 0 <= i < |requests| && requests[i] == q;
      }
    }
  }

  /** A sequence of `add_edge` calls, one per request, in order. */
  function ConnectAll(edges: seq<Edge>, requests: seq<Edge>, nodes: map<int, Node>, dist: (Point, Point) -> real): seq<Edge>
    decreases |requests|
  {
    if requests == [] then edges
    else ConnectAll(ConnectRequest(edges, requests[0], nodes, dist), requests[1..], nodes, dist)
  }

  /**
   * After a run of `add_edge` calls the old edges are still there, in front,
   * every requested pair is connected, and every connected pair was either
   * connected before or requested.
   */
  lemma {:induction false} ConnectAllSpec(edges: seq<Edge>, requests: seq<Edge>, nodes: map<int, Node>, dist: (Point, Point) -> real)
    requires RequestsResolve(requests, nodes)
    ensures edges <= ConnectAll(edges, requests, nodes, dist)
    ensures |ConnectAll(edges, requests, nodes, dist)| <= |edges| + |requests|
    ensures forall q :: q in requests ==> Linked(ConnectAll(edges, requests, nodes, dist), q.n1, q.n2)
    ensures forall x, y :: Linked(edges, x, y) ==> Linked(ConnectAll(edges, requests, nodes, dist), x, y)
    ensures forall x, y :: Linked(ConnectAll(edges, requests, nodes, dist), x, y) ==>
      Linked(edges, x, y) || exists q :: q in requests && Joins(q, x, y)
    decreases |requests|
  {
    if requests != [] {
      var q := requests[0];
      var mid := ConnectRequest(edges, q, nodes, dist);
      var r := ConnectAll(edges, requests, nodes, dist);
      ConnectSpec(edges, q.n1, q.n2, RequestWeight(q, nodes, dist));
      ConnectAllSpec(mid, requests[1..], nodes, dist);
      assert r == ConnectAll(mid, requests[1..], nodes, dist);
      forall q' | q' in requests ensures Linked(r, q'.n1, q'.n2) {
        if q' != q {
          assert q' in requests[1..];
        }
      }
      forall x, y | Linked(r, x, y) ensures Linked(edges, x, y) || exists q' :: q' in requests && Joins(q', x, y) {
        if !Linked(mid, x, y) {
          var q' :| q' in requests[1..] && Joins(q', x, y);
          assert q' in requests;
        } else if !Linked(edges, x, y) {
          assert Joins(Edge(q.n1, q.n2, None), x, y);
          assert Joins(q, x, y);
        }
      }
    }
  }

  /** One more request runs after all the earlier ones. */
  lemma {:induction false} ConnectAllSnoc(edges: seq<Edge>, requests: seq<Edge>, q: Edge, nodes: map<int, Node>, dist: (Point, Point) -> real)
    ensures ConnectAll(edges, requests + [q], nodes, dist) == ConnectRequest(ConnectAll(edges, requests, nodes, dist), q, nodes, dist)
    decreases |requests|
  {
    if requests == [] {
      assert requests + [q] == [q];
    } else {
      assert (requests + [q])[1..] == requests[1..] + [q];
      ConnectAllSnoc(ConnectRequest(edges, requests[0], nodes, dist), requests[1..], q, nodes, dist);
    }
  }

  /** Two runs of `add_edge` calls one after the other are one run over both request lists. */
  lemma {:induction false} ConnectAllAppend(edges: seq<Edge>, xs: seq<Edge>, ys: seq<Edge>, nodes: map<int, Node>, dist: (Point, Point) -> real)
    ensures ConnectAll(edges, xs + ys, nodes, dist) == ConnectAll(ConnectAll(edges, xs, nodes, dist), ys, nodes, dist)
    decreases |xs|
  {
    if xs == [] {
      assert xs + ys == ys;
    } else {
      assert (xs + ys)[0] == xs[0];
      assert (xs + ys)[1..] == xs[1..] + ys;
      ConnectAllAppend(ConnectRequest(edges, xs[0], nodes, dist), xs[1..], ys, nodes, dist);
    }
  }

  /** A run of `add_edge` calls keeps the edge invariant. */
  lemma {:induction false} ConnectAllKeepsInvariant(edges: seq<Edge>, requests: seq<Edge>, nodes: map<int, Node>, dist: (Point, Point) -> real)
    requires EndpointsExist(nodes, edges) && NoDuplicatePairs(edges)
    ensures EndpointsExist(nodes, ConnectAll(edges, requests, nodes, dist))
    ensures NoDuplicatePairs(ConnectAll(edges, requests, nodes, dist))
    decreases |requests|
  {
    if requests != [] {
      var q := requests[0];
      if q.n1 in nodes && q.n2 in nodes {
        ConnectKeepsInvariant(nodes, edges, q.n1, q.n2, RequestWeight(q, nodes, dist));
      }
      ConnectAllKeepsInvariant(ConnectRequest(edges, q, nodes, dist), requests[1..], nodes, dist);
    }
  }

  // ---------------------------------------------------------------------
  // Renumbering for `merge_with`
  // ---------------------------------------------------------------------

  /** The whole of ids renumbered to start, start + 1, ...: `merge_with`'s id_mapping. */
  function Renumbering(ids: seq<int>, start: int): (m: map<int, int>)
    ensures forall k :: k in m <==> k in ids
    ensures forall k :: k in m ==> start <= m[k] < start + |ids|
  {
    IdMappingRange(ids, |ids|, start);
    assert ids[..|ids|] == ids;
    IdMapping(ids, |ids|, start)
  }

  /** The first n ids of ids renumbered to start, start + 1, ... */
  function IdMapping(ids: seq<int>, n: nat, start: int): map<int, int>
    requires n <= |ids|
  {
    if n == 0 then map[] else IdMapping(ids, n - 1, start)[ids[n - 1] := start + n - 1]
  }

  /** The renumbering is defined exactly on the first n ids and yields ids in [start, start + n). */
  lemma {:induction false} IdMappingRange(ids: seq<int>, n: nat, start: int)
    requires n <= |ids|
    ensures forall k :: k in IdMapping(ids, n, start) <==> k in ids[..n]
    ensures forall k :: k in IdMapping(ids, n, start) ==> start <= IdMapping(ids, n, start)[k] < start + n
  {
    if n > 0 {
      IdMappingRange(ids, n - 1, start);
      assert ids[..n] == ids[..n - 1] + [ids[n - 1]];
    }
  }

  /** Node s copied under id, moved by (dx, dy): what `add_node` makes of it. */
  function CopyOf(s: Node, id: int, dx: real, dy: real): Node
  {
    Node(id, Point(s.pos.x + dx, s.pos.y + dy), NodeLabel(id, s.tag))
  }

  /** The nodes src[ids[j]], j < n, copied under the new ids start + j, moved by (dx, dy). */
  function Copies(src: map<int, Node>, ids: seq<int>, n: nat, start: int, dx: real, dy: real): map<int, Node>
    requires n <= |ids| && forall k :: k in ids ==> k in src
  {
    if n == 0 then map[]
    else
      assert ids[n - 1] in ids;
      Copies(src, ids, n - 1, start, dx, dy)[start + n - 1 := CopyOf(src[ids[n - 1]], start + n - 1, dx, dy)]
  }

  /** The copies are keyed exactly by start, ..., start + n - 1, each under its own id. */
  lemma {:induction false} CopiesKeys(src: map<int, Node>, ids: seq<int>, n: nat, start: int, dx: real, dy: real)
    requires n <= |ids| && forall k :: k in ids ==> k in src
    ensures forall k :: k in Copies(src, ids, n, start, dx, dy) <==> start <= k < start + n
    ensures Keyed(Copies(src, ids, n, start, dx, dy))
  {
    if n > 0 {
      CopiesKeys(src, ids, n - 1, start, dx, dy);
      assert ids[n - 1] in ids;
      var prev := Copies(src, ids, n - 1, start, dx, dy);
      var c := CopyOf(src[ids[n - 1]], start + n - 1, dx, dy);
      var m := prev[start + n - 1 := c];
      assert Copies(src, ids, n, start, dx, dy) == m;
      assert c.id == start + n - 1 && c.tag != "";
      forall k ensures k in m <==> start <= k < start + n {
        assert k in m <==> k in prev || k == start + n - 1;
      }
      forall k | k in m ensures m[k].id == k && m[k].tag != "" {
        if k == start + n - 1 {
          assert m[k] == c;
        } else {
          assert k in prev && m[k] == prev[k];
        }
      }
    }
  }

  /** The ids start, ..., start + count - 1 that are not yet keys of present, in order. */
  function NewKeys(start: int, count: nat, present: map<int, Node>): seq<int>
  {
    if count == 0 then []
    else
      var k := start + count - 1;
      NewKeys(start, count - 1, present) + (if k in present then [] else [k])
  }

  /** The new keys are exactly the ids of the range that were not present. */
  lemma {:induction false} NewKeysMembers(start: int, count: nat, present: map<int, Node>)
    ensures forall k :: k in NewKeys(start, count, present) <==> start <= k < start + count && k !in present
  {
    if count > 0 {
      NewKeysMembers(start, count - 1, present);
    }
  }

  lemma {:induction false} NewKeysDistinct(start: int, count: nat, present: map<int, Node>)
    ensures Distinct(NewKeys(start, count, present))
  {
    if count > 0 {
      NewKeysDistinct(start, count - 1, present);
      NewKeysMembers(start, count - 1, present);
      var prefix := NewKeys(start, count - 1, present);
      var r := NewKeys(start, count, present);
      forall i, j | 0 <= i < j < |r| ensures r[i] != r[j] {
        if j >= |prefix| {
          assert r[i] == prefix[i] && prefix[i] in prefix;
        } else {
          assert r[i] == prefix[i] && r[j] == prefix[j];
        }
      }
    }
  }

  /** The edges with both endpoints renamed through m. */
  function Renumbered(edges: seq<Edge>, m: map<int, int>): (r: seq<Edge>)
    requires forall e :: e in edges ==> e.n1 in m && e.n2 in m
    ensures |r| == |edges|
    ensures forall i :: 0 <= i < |r| ==> r[i] == Edge(m[edges[i].n1], m[edges[i].n2], edges[i].weight)
  {
    if edges == [] then []
    else [Edge(m[edges[0].n1], m[edges[0].n2], edges[0].weight)] + Renumbered(edges[1..], m)
  }

  // ---------------------------------------------------------------------
  // The graph object
  // ---------------------------------------------------------------------

  class Graph {
    var name: string
    var nodes: map<int, Node>
    /** The keys of `nodes` in insertion order. */
    var order: seq<int>
    var edges: seq<Edge>
    var nextNodeId: int

    /** What every operation keeps, whatever the edges: the dict's own shape. */
    ghost predicate WellFormed()
      reads this
    {
      Keyed(nodes) && OrderOf(order, nodes)
    }

    /** The graph invariant: ids below the counter, endpoints exist, one edge per pair. */
    ghost predicate Valid()
      reads this
    {
      GraphInvariant(nodes, order, edges, nextNodeId)
    }

    /** An empty graph whose first node will get id 1. */
    constructor (name: string)
      ensures this.name == name && nodes == map[] && order == [] && edges == [] && nextNodeId == 1
      ensures Valid()
    {
      this.name := name;
      nodes := map[];
      order := [];
      edges := [];
      nextNodeId := 1;
    }

    /**
     * `add_node`: stores a node under the current counter value and bumps
     * the counter. A valid graph gets a node with a fresh id.
     */
    method AddNode(x: real, y: real, tag: string) returns (node: Node)
      modifies this
      ensures node == Node(old(nextNodeId), Point(x, y), NodeLabel(old(nextNodeId), tag))
      ensures nodes == old(nodes)[node.id := node]
      ensures order == if node.id in old(nodes) then old(order) else old(order) + [node.id]
      ensures edges == old(edges) && name == old(name) && nextNodeId == old(nextNodeId) + 1
    {
      node := Node(nextNodeId, Point(x, y), NodeLabel(nextNodeId, tag));
      if node.id !in nodes {
        order := order + [node.id];
      }
      nodes := nodes[node.id := node];
      nextNodeId := nextNodeId + 1;
    }

    /**
     * `add_edge`: fails when an endpoint is missing; returns the first edge
     * already connecting the pair, leaving the list alone; otherwise appends
     * one edge whose weight defaults to the endpoint distance.
     */
    method AddEdge(a: int, b: int, weight: Option<real>, dist: (Point, Point) -> real)
      returns (r: Result<Edge, GraphError>)
      modifies this
      ensures r.Failure? <==> a !in nodes || b !in nodes
      ensures r.Failure? ==> edges == old(edges)
      ensures r.Success? ==>
        edges == Connect(old(edges), a, b, weight.GetOr(dist(nodes[a].pos, nodes[b].pos)))
      ensures r.Success? ==> FirstJoining(edges, a, b).Some? && r.value == edges[FirstJoining(edges, a, b).value]
      ensures nodes == old(nodes) && order == old(order) && name == old(name) && nextNodeId == old(nextNodeId)
    {
      if a !in nodes || b !in nodes {
        return Failure(MissingNode);
      }
      var i := 0;
      while i < |edges|
        invariant 0 <= i <= |edges|
        invariant forall j :: 0 <= j < i ==> !Joins(edges[j], a, b)
      {
        if Joins(edges[i], a, b) {
          return Success(edges[i]);
        }
        i := i + 1;
      }
      var e := Edge(a, b, Some(weight.GetOr(dist(nodes[a].pos, nodes[b].pos))));
      edges := edges + [e];
      assert Joins(edges[|edges| - 1], a, b);
      r := Success(e);
    }

    /** A valid graph stays valid under AddEdge. */
    lemma AddEdgeKeepsValid(a: int, b: int, w: real)
      requires Valid() && a in nodes && b in nodes
      ensures EndpointsExist(nodes, Connect(edges, a, b, w))
      ensures NoDuplicatePairs(Connect(edges, a, b, w))
    {
      ConnectKeepsInvariant(nodes, edges, a, b, w);
    }

    /**
     * `remove_node`: nothing happens for an absent id; otherwise the node
     * and exactly the edges touching it go, the others keeping their order.
     */
    method RemoveNode(id: int)
      modifies this
      ensures id !in old(nodes) ==> nodes == old(nodes) && order == old(order) && edges == old(edges)
      ensures id in old(nodes) ==>
        nodes == old(nodes) - {id} && order == Erase(old(order), id) && edges == WithoutNode(old(edges), id)
      ensures name == old(name) && nextNodeId == old(nextNodeId)
      ensures old(WellFormed()) ==> WellFormed()
      ensures old(Valid()) ==> Valid()
    {
      if id in nodes {
        if WellFormed() {
          EraseDistinct(order, id);
        }
        if Valid() {
          WithoutNodeKeepsInvariant(nodes, edges, id);
        }
        nodes := nodes - {id};
        order := Erase(order, id);
        edges := WithoutNode(edges, id);
      }
    }

    /** `remove_edge`: drops every edge connecting a and b, in either direction. */
    method RemoveEdge(a: int, b: int)
      modifies this
      ensures edges == WithoutPair(old(edges), a, b)
      ensures nodes == old(nodes) && order == old(order) && name == old(name) && nextNodeId == old(nextNodeId)
      ensures old(Valid()) ==> Valid()
    {
      if Valid() {
        WithoutPairKeepsInvariant(nodes, edges, a, b);
      }
      edges := WithoutPair(edges, a, b);
    }

    /**
     * `merge_with`: copies the other graph's nodes, moved by the offset and
     * numbered from this graph's counter in the other graph's order, then
     * re-adds its edges through the renumbering.
     */
    method MergeWith(other: Graph, offsetX: real, offsetY: real, dist: (Point, Point) -> real)
      requires other != this
      requires other.WellFormed() && EndpointsExist(other.nodes, other.edges)
      modifies this
      ensures nextNodeId == old(nextNodeId) + |other.order|
      ensures nodes == old(nodes) + Copies(other.nodes, other.order, |other.order|, old(nextNodeId), offsetX, offsetY)
      ensures order == old(order) + NewKeys(old(nextNodeId), |other.order|, old(nodes))
      ensures RequestsResolve(Renumbered(other.edges, Renumbering(other.order, old(nextNodeId))), nodes)
      ensures edges == ConnectAll(old(edges), Renumbered(other.edges, Renumbering(other.order, old(nextNodeId))), nodes, dist)
      ensures name == old(name)
      ensures old(Valid()) ==> Valid()
    {
      var start := nextNodeId;
      var idMap := CopyNodes(other.nodes, other.order, offsetX, offsetY);
      var requests := Renumbered(other.edges, idMap);
      assert RequestsResolve(requests, nodes) by {
        CopiesKeys(other.nodes, other.order, |other.order|, start, offsetX, offsetY);
        forall q | q in requests ensures q.n1 in nodes && q.n2 in nodes {
          var j :| 0 <= j < |requests| && requests[j] == q;
          assert other.edges[j] in other.edges;
        }
      }
      ResolvedAll(requests, nodes);
      assert requests[..|requests|] == requests;
      var _ := AddEdges(requests, dist);
      if old(Valid()) {
        MergeWithKeepsValid(old(nodes), old(order), old(edges), start, other.nodes, other.order, requests, offsetX, offsetY, dist);
      }
    }

    /** The node loop of `merge_with`: one `add_node` per node of the other graph, in its order. */
    method CopyNodes(src: map<int, Node>, ids: seq<int>, offsetX: real, offsetY: real) returns (idMap: map<int, int>)
      requires Keyed(src) && OrderOf(ids, src)
      modifies this
      ensures idMap == Renumbering(ids, old(nextNodeId))
      ensures nextNodeId == old(nextNodeId) + |ids|
      ensures nodes == old(nodes) + Copies(src, ids, |ids|, old(nextNodeId), offsetX, offsetY)
      ensures order == old(order) + NewKeys(old(nextNodeId), |ids|, old(nodes))
      ensures edges == old(edges) && name == old(name)
    {
      var start := nextNodeId;
      ghost var baseNodes, baseOrder := nodes, order;
      idMap := map[];
      var i := 0;
      assert baseNodes + map[] == baseNodes;
      while i < |ids|
        invariant 0 <= i <= |ids|
        invariant nextNodeId == start + i
        invariant nodes == baseNodes + Copies(src, ids, i, start, offsetX, offsetY)
        invariant order == baseOrder + NewKeys(start, i, baseNodes)
        invariant idMap == IdMapping(ids, i, start)
        invariant edges == old(edges) && name == old(name)
      {
        var oldId, newId := CopyOne(src, ids, i, start, offsetX, offsetY, baseNodes, baseOrder);
        idMap := idMap[oldId := newId];
        i := i + 1;
      }
    }

    /** One step of the node loop: `add_node` for the node ids[i], recording its old and new id. */
    method CopyOne(src: map<int, Node>, ids: seq<int>, i: nat, start: int, offsetX: real, offsetY: real,
                   ghost baseNodes: map<int, Node>, ghost baseOrder: seq<int>) returns (oldId: int, newId: int)
      requires Keyed(src) && i < |ids| && forall k :: k in ids ==> k in src
      requires nextNodeId == start + i
      requires nodes == baseNodes + Copies(src, ids, i, start, offsetX, offsetY)
      requires order == baseOrder + NewKeys(start, i, baseNodes)
      modifies this
      ensures oldId == ids[i] && newId == start + i
      ensures nextNodeId == start + i + 1
      ensures nodes == baseNodes + Copies(src, ids, i + 1, start, offsetX, offsetY)
      ensures order == baseOrder + NewKeys(start, i + 1, baseNodes)
      ensures edges == old(edges) && name == old(name)
    {
      CopyStep(baseNodes, baseOrder, src, ids, i, start, offsetX, offsetY);
      var n := src[ids[i]];
      var added := AddNode(n.pos.x + offsetX, n.pos.y + offsetY, n.tag);
      assert added == CopyOf(n, start + i, offsetX, offsetY);
      oldId, newId := n.id, added.id;
    }

    /**
     * A run of `add_edge` calls, one per request, in order. The first
     * request naming a missing node raises, after the requests before it
     * have been added.
     */
    method AddEdges(requests: seq<Edge>, dist: (Point, Point) -> real) returns (r: Result<(), GraphError>)
      modifies this
      ensures r.Success? <==> RequestsResolve(requests, nodes)
      ensures nodes == old(nodes) && order == old(order) && name == old(name) && nextNodeId == old(nextNodeId)
      ensures edges == ConnectAll(old(edges), requests[..Resolved(requests, nodes)], nodes, dist)
    {
      ResolvedAll(requests, nodes);
      var j := 0;
      while j < |requests|
        invariant 0 <= j <= |requests|
        invariant nodes == old(nodes) && order == old(order) && name == old(name) && nextNodeId == old(nextNodeId)
        invariant forall i :: 0 <= i < j ==> requests[i].n1 in nodes && requests[i].n2 in nodes
        invariant edges == ConnectAll(old(edges), requests[..j], nodes, dist)
      {
        var q := requests[j];
        ghost var before := edges;
        var added := AddEdge(q.n1, q.n2, q.weight, dist);
        if added.Failure? {
          assert Resolved(requests, nodes) == j;
          return Failure(added.error);
        }
        assert edges == ConnectRequest(before, q, nodes, dist);
        assert requests[..j + 1] == requests[..j] + [q];
        ConnectAllSnoc(old(edges), requests[..j], q, nodes, dist);
        j := j + 1;
      }
      assert requests[..j] == requests;
      return Success(());
    }

    /** The editor's `edge_exists`: a scan of the edge list for the pair. */
    method EdgeExists(a: int, b: int) returns (found: bool)
      ensures found <==> Linked(edges, a, b)
    {
      var i := 0;
      while i < |edges|
        invariant 0 <= i <= |edges|
        invariant forall j :: 0 <= j < i ==> !Joins(edges[j], a, b)
      {
        if Joins(edges[i], a, b) {
          return true;
        }
        i := i + 1;
      }
      return false;
    }
  }

  /** The node table and edge list MergeWith leaves behind satisfy the graph invariant. */
  lemma MergeWithKeepsValid(nodes: map<int, Node>, order: seq<int>, edges: seq<Edge>, start: int,
                            src: map<int, Node>, ids: seq<int>, requests: seq<Edge>,
                            dx: real, dy: real, dist: (Point, Point) -> real)
    requires Keyed(nodes) && OrderOf(order, nodes) && (forall k :: k in nodes ==> k < start)
    requires EndpointsExist(nodes, edges) && NoDuplicatePairs(edges)
    requires forall k :: k in ids ==> k in src
    requires RequestsResolve(requests, nodes + Copies(src, ids, |ids|, start, dx, dy))
    ensures var all := nodes + Copies(src, ids, |ids|, start, dx, dy);
      Keyed(all)
      && OrderOf(order + NewKeys(start, |ids|, nodes), all)
      && (forall k :: k in all ==> k < start + |ids|)
      && EndpointsExist(all, ConnectAll(edges, requests, all, dist))
      && NoDuplicatePairs(ConnectAll(edges, requests, all, dist))
  {
    var all := nodes + Copies(src, ids, |ids|, start, dx, dy);
    CopiesKeys(src, ids, |ids|, start, dx, dy);
    var added := NewKeys(start, |ids|, nodes);
    var o := order + added;
    NewKeysDistinct(start, |ids|, nodes);
    NewKeysMembers(start, |ids|, nodes);
    forall i, j | 0 <= i < j < |o| ensures o[i] != o[j] {
      if j >= |order| && i < |order| {
        assert o[j] in added && o[i] in order;
      } else if i >= |order| {
        assert o[i] == added[i - |order|] && o[j] == added[j - |order|];
      }
    }
    assert EndpointsExist(all, edges);
    ConnectAllKeepsInvariant(edges, requests, all, dist);
  }

  /** Copying one more node is one more store into the node table, under a key only the base could hold. */
  lemma CopyStep(base: map<int, Node>, baseOrder: seq<int>, src: map<int, Node>, ids: seq<int>, i: nat,
                 start: int, dx: real, dy: real)
    requires Keyed(src) && i < |ids| && forall k :: k in ids ==> k in src
    ensures ids[i] in src && src[ids[i]].id == ids[i]
    ensures var cur := base + Copies(src, ids, i, start, dx, dy);
      && (start + i in cur <==> start + i in base)
      && cur[start + i := CopyOf(src[ids[i]], start + i, dx, dy)] == base + Copies(src, ids, i + 1, start, dx, dy)
    ensures baseOrder + NewKeys(start, i + 1, base)
         == (baseOrder + NewKeys(start, i, base)) + (if start + i in base then [] else [start + i])
  {
    assert ids[i] in ids;
    CopiesKeys(src, ids, i, start, dx, dy);
    UnionUpdate(base, Copies(src, ids, i, start, dx, dy), start + i, CopyOf(src[ids[i]], start + i, dx, dy));
  }

  /** Updating the right operand of a union is updating the union. */
  lemma UnionUpdate(b: map<int, Node>, c: map<int, Node>, k: int, v: Node)
    ensures (b + c)[k := v] == b + c[k := v]
  {
  }
}
