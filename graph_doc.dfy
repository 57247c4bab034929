/**
 * The JSON documents `to_dict`/`from_dict` exchange for nodes, edges and a
 * whole floor graph, as already-parsed values. A key the document may omit
 * is an `Option`: None stands for a missing key (and, for "label" and
 * "weight", for a stored null, which the loader treats the same way).
 */
module GraphDoc {
  import opened Wrappers
  import opened Geometry
  import opened LevelGraph

  /** {"x", "y", "id", "label"}; "label" may be missing. */
  datatype NodeDoc = NodeDoc(x: real, y: real, id: int, tag: Option<string>)

  /** {"node1_id", "node2_id", "weight"}; "weight" may be missing or null. */
  datatype EdgeDoc = EdgeDoc(node1Id: int, node2Id: int, weight: Option<real>)

  /** {"name", "nodes", "edges", "next_node_id"}; every key may be missing. */
  datatype GraphDoc = GraphDoc(name: Option<string>, nodes: Option<seq<NodeDoc>>,
                               edges: Option<seq<EdgeDoc>>, nextNodeId: Option<int>)

  /** A node table with its keys in insertion order: the loader's dict. */
  datatype Table = Table(nodes: map<int, Node>, order: seq<int>)

  // ---------------------------------------------------------------------
  // Nodes and edges
  // ---------------------------------------------------------------------

  function NodeToDoc(n: Node): NodeDoc
  {
    NodeDoc(n.pos.x, n.pos.y, n.id, Some(n.tag))
  }

  /** `Node.from_dict`: a missing or empty label becomes "N<id>". */
  function NodeFromDoc(d: NodeDoc): (n: Node)
    ensures n.id == d.id && n.tag != ""
  {
    Node(d.id, Point(d.x, d.y), NodeLabel(d.id, d.tag.GetOr("")))
  }

  /**
   * A node document reads back into a node that writes out as the same
   * document exactly when its label is present and non-empty.
   */
  lemma NodeDocRoundTrip(d: NodeDoc)
    ensures NodeToDoc(NodeFromDoc(d)) == d <==> d.tag.Some? && d.tag.value != ""
  {
  }

  /** A node with a label survives being written and read back. */
  lemma NodeRoundTrip(n: Node)
    requires n.tag != ""
    ensures NodeFromDoc(NodeToDoc(n)) == n
  {
  }

  function EdgeToDoc(e: Edge): EdgeDoc
  {
    EdgeDoc(e.n1, e.n2, e.weight)
  }

  /** `Edge.from_dict`: the weight is whatever the document holds, None when missing. */
  function EdgeFromDoc(d: EdgeDoc): (e: Edge)
    ensures EdgeToDoc(e) == d
    ensures e.n1 == d.node1Id && e.n2 == d.node2Id && e.weight == d.weight
  {
    Edge(d.node1Id, d.node2Id, d.weight)
  }

  /** The "nodes" list of `Graph.to_dict`: one document per node, in the dict's order. */
  function NodeDocs(nodes: map<int, Node>, order: seq<int>): (r: seq<NodeDoc>)
    requires forall k :: k in order ==> k in nodes
  {
    EntriesPresent(order, nodes);
    seq(|order|, i requires 0 <= i < |order| => NodeToDoc(nodes[order[i]]))
  }

  lemma EntriesPresent(order: seq<int>, nodes: map<int, Node>)
    requires forall k :: k in order ==> k in nodes
    ensures forall i :: 0 <= i < |order| ==> order[i] in nodes
  {
    forall i | 0 <= i < |order| ensures order[i] in nodes {
      var k := order[i];
      assert k in order;
    }
  }

  /** The "edges" list of `Graph.to_dict`. */
  function EdgeDocs(edges: seq<Edge>): (r: seq<EdgeDoc>)
  {
    seq(|edges|, i requires 0 <= i < |edges| => EdgeToDoc(edges[i]))
  }

  /** The edge loop of `Graph.from_dict`. */
  function EdgesFromDocs(docs: seq<EdgeDoc>): (r: seq<Edge>)
  {
    seq(|docs|, i requires 0 <= i < |docs| => EdgeFromDoc(docs[i]))
  }

  /** Edge lists survive being written and read back, and so do edge documents. */
  lemma EdgesRoundTrip(edges: seq<Edge>, docs: seq<EdgeDoc>)
    ensures EdgesFromDocs(EdgeDocs(edges)) == edges
    ensures EdgeDocs(EdgesFromDocs(docs)) == docs
  {
    var r := EdgesFromDocs(EdgeDocs(edges));
    assert |r| == |edges| && forall i :: 0 <= i < |r| ==> r[i] == edges[i];
    var s := EdgeDocs(EdgesFromDocs(docs));
    assert |s| == |docs| && forall i :: 0 <= i < |s| ==> s[i] == docs[i];
  }

  // ---------------------------------------------------------------------
  // The node loop of `Graph.from_dict`
  // ---------------------------------------------------------------------

  /** `graph.nodes[node.id] = node`: a new key goes last, an existing one keeps its place. */
  function Store(t: Table, n: Node): Table
  {
    Table(t.nodes[n.id := n], if n.id in t.nodes then t.order else t.order + [n.id])
  }

  /** `Node.from_dict` applied to every document, in order. */
  function NodesOf(docs: seq<NodeDoc>): (r: seq<Node>)
  {
    seq(|docs|, i requires 0 <= i < |docs| => NodeFromDoc(docs[i]))
  }

  /** The nodes of a dict listed in its order: what its documents read back as. */
  function Entries(nodes: map<int, Node>, order: seq<int>): (r: seq<Node>)
    requires forall k :: k in order ==> k in nodes
  {
    EntriesPresent(order, nodes);
    seq(|order|, i requires 0 <= i < |order| => nodes[order[i]])
  }

  /** The table after storing the first n nodes, in sequence order. */
  function LoadNodes(ns: seq<Node>, n: nat): Table
    requires n <= |ns|
  {
    if n == 0 then Table(map[], [])
    else Store(LoadNodes(ns, n - 1), ns[n - 1])
  }

  /** Each node stored under its own id, with a label, and the order listing the keys once each. */
  predicate Shaped(t: Table)
  {
    Keyed(t.nodes) && OrderOf(t.order, t.nodes)
  }

  /** Every node has a label, as every node read from a document does. */
  predicate Labelled(ns: seq<Node>)
  {
    forall i :: 0 <= i < |ns| ==> ns[i].tag != ""
  }

  /** Storing a labelled node under its own id keeps a node dict well-formed. */
  lemma StoreKeepsShape(t: Table, n: Node)
    ensures Shaped(t) && n.tag != "" ==> Shaped(Store(t, n))
  {
    var o := Store(t, n).order;
    if Shaped(t) && n.id !in t.nodes {
      forall i, j | 0 <= i < j < |o| ensures o[i] != o[j] {
        if j == |t.order| {
          assert o[i] in t.order;
        } else {
          assert o[i] == t.order[i] && o[j] == t.order[j];
        }
      }
    }
  }

  /** Whatever the labelled nodes, the loaded table is a well-formed node dict. */
  lemma {:induction false} LoadNodesWellFormed(ns: seq<Node>, n: nat)
    requires n <= |ns| && Labelled(ns)
    ensures Shaped(LoadNodes(ns, n))
  {
    if n > 0 {
      LoadNodesWellFormed(ns, n - 1);
      StoreKeepsShape(LoadNodes(ns, n - 1), ns[n - 1]);
    }
  }

  /** The loaded keys are exactly the ids of the nodes read. */
  lemma {:induction false} LoadNodesKeys(ns: seq<Node>, n: nat)
    requires n <= |ns|
    ensures forall k :: k in LoadNodes(ns, n).nodes <==> exists j :: 0 <= j < n && ns[j].id == k
  {
    if n > 0 {
      LoadNodesKeys(ns, n - 1);
      var t := LoadNodes(ns, n);
      forall k | k in t.nodes ensures exists j :: 0 <= j < n && ns[j].id == k {
        if k != ns[n - 1].id {
          var j :| 0 <= j < n - 1 && ns[j].id == k;
          assert 0 <= j < n && ns[j].id == k;
        }
      }
      forall k | exists j :: 0 <= j < n && ns[j].id == k ensures k in t.nodes {
        var j :| 0 <= j < n && ns[j].id == k;
        if j < n - 1 {
          assert k in LoadNodes(ns, n - 1).nodes;
        }
      }
    }
  }

  /** A loaded node is the LAST one carrying its id. */
  lemma {:induction false} LoadNodesLastWins(ns: seq<Node>, n: nat)
    requires n <= |ns|
    ensures forall j :: 0 <= j < n && (forall l :: j < l < n ==> ns[l].id != ns[j].id) ==>
      ns[j].id in LoadNodes(ns, n).nodes && LoadNodes(ns, n).nodes[ns[j].id] == ns[j]
  {
    if n > 0 {
      LoadNodesLastWins(ns, n - 1);
      var t := LoadNodes(ns, n);
      forall j | 0 <= j < n && (forall l :: j < l < n ==> ns[l].id != ns[j].id)
        ensures ns[j].id in t.nodes && t.nodes[ns[j].id] == ns[j]
      {
        if j < n - 1 {
          assert ns[n - 1].id != ns[j].id;
          assert forall l :: j < l < n - 1 ==> ns[l].id != ns[j].id;
        }
      }
    }
  }

  /** Nodes with distinct ids load in their own order. */
  lemma {:induction false} LoadDistinctIds(ns: seq<Node>, n: nat)
    requires n <= |ns| && Labelled(ns)
    requires forall i, j :: 0 <= i < j < |ns| ==> ns[i].id != ns[j].id
    ensures |LoadNodes(ns, n).order| == n
    ensures forall j :: 0 <= j < n ==> LoadNodes(ns, n).order[j] == ns[j].id
  {
    if n > 0 {
      LoadDistinctIds(ns, n - 1);
      LoadNodesWellFormed(ns, n - 1);
      var t := LoadNodes(ns, n - 1);
      assert forall j :: 0 <= j < |t.order| ==> t.order[j] != ns[n - 1].id;
      assert ns[n - 1].id !in t.nodes;
    }
  }

  /** Loading the entries of a well-formed dict rebuilds its first n entries. */
  lemma {:induction false} LoadEntries(nodes: map<int, Node>, order: seq<int>, n: nat)
    requires Keyed(nodes) && OrderOf(order, nodes) && n <= |order|
    ensures var t := LoadNodes(Entries(nodes, order), n);
      && t.order == order[..n]
      && (forall k :: k in t.nodes <==> k in order[..n])
      && (forall k :: k in t.nodes ==> t.nodes[k] == nodes[k])
  {
    if n > 0 {
      LoadEntries(nodes, order, n - 1);
      var k := order[n - 1];
      var prev := LoadNodes(Entries(nodes, order), n - 1);
      var t := LoadNodes(Entries(nodes, order), n);
      assert Entries(nodes, order)[n - 1] == nodes[k];
      assert nodes[k].id == k;
      assert forall j :: 0 <= j < n - 1 ==> order[j] != k;
      assert k !in order[..n - 1];
      assert t == Table(prev.nodes[k := nodes[k]], prev.order + [k]);
      assert order[..n] == order[..n - 1] + [k];
      forall x | x in t.nodes ensures t.nodes[x] == nodes[x] {
        if x != k {
          assert x in prev.nodes;
        }
      }
    }
  }

  /** The documents of a dict's nodes read back as its entries. */
  lemma NodesOfDocs(nodes: map<int, Node>, order: seq<int>)
    requires Keyed(nodes) && OrderOf(order, nodes)
    ensures NodesOf(NodeDocs(nodes, order)) == Entries(nodes, order)
  {
    var r := NodesOf(NodeDocs(nodes, order));
    var e := Entries(nodes, order);
    forall i | 0 <= i < |order| ensures r[i] == e[i] {
      var k := order[i];
      assert k in order;
      NodeRoundTrip(nodes[k]);
    }
  }

  /** Node tables round-trip: writing a well-formed dict and loading it gives it back. */
  lemma NodesRoundTrip(nodes: map<int, Node>, order: seq<int>)
    requires Keyed(nodes) && OrderOf(order, nodes)
    ensures LoadNodes(NodesOf(NodeDocs(nodes, order)), |order|) == Table(nodes, order)
  {
    NodesOfDocs(nodes, order);
    LoadEntries(nodes, order, |order|);
    var t := LoadNodes(Entries(nodes, order), |order|);
    assert order[..|order|] == order;
    SameEntries(t.nodes, nodes);
  }

  /** Two maps with the same keys and the same value under each key are equal. */
  lemma SameEntries(a: map<int, Node>, b: map<int, Node>)
    requires forall k :: k in a <==> k in b
    requires forall k :: k in a ==> a[k] == b[k]
    ensures a == b
  {
    forall k ensures k in a <==> k in b {
    }
    forall k | k in a ensures a[k] == b[k] {
    }
  }

  /** Nodes read from documents carry labels. */
  lemma NodesOfLabelled(docs: seq<NodeDoc>)
    ensures |NodesOf(docs)| == |docs| && Labelled(NodesOf(docs))
    ensures forall i :: 0 <= i < |docs| ==> NodesOf(docs)[i].id == docs[i].id
  {
  }

  /**
   * Node documents round-trip too, when every id is distinct and every
   * label is present and non-empty (otherwise the loader normalises them).
   */
  lemma DocsRoundTrip(docs: seq<NodeDoc>)
    requires forall i, j :: 0 <= i < j < |docs| ==> docs[i].id != docs[j].id
    requires forall i :: 0 <= i < |docs| ==> docs[i].tag.Some? && docs[i].tag.value != ""
    ensures var t := LoadNodes(NodesOf(docs), |docs|);
      (forall k :: k in t.order ==> k in t.nodes) && NodeDocs(t.nodes, t.order) == docs
  {
    var ns := NodesOf(docs);
    NodesOfLabelled(docs);
    var t := LoadNodes(ns, |docs|);
    LoadDistinctIds(ns, |docs|);
    LoadNodesLastWins(ns, |docs|);
    LoadNodesWellFormed(ns, |docs|);
    var r := NodeDocs(t.nodes, t.order);
    forall i | 0 <= i < |docs| ensures r[i] == docs[i] {
      assert t.order[i] == docs[i].id;
      assert t.nodes[docs[i].id] == ns[i];
      NodeDocRoundTrip(docs[i]);
    }
  }

  // ---------------------------------------------------------------------
  // Whole graphs
  // ---------------------------------------------------------------------

  /** `Graph.to_dict`: every key present, the nodes listed in the dict's order. */
  function ToDoc(g: Graph): (d: GraphDoc)
    reads g
    requires g.WellFormed()
    ensures d.name == Some(g.name) && d.nextNodeId == Some(g.nextNodeId)
    ensures d.nodes.Some? && |d.nodes.value| == |g.nodes|
    ensures d.edges == Some(EdgeDocs(g.edges))
  {
    OneEntryPerKey(g.nodes, g.order);
    GraphDoc(Some(g.name), Some(NodeDocs(g.nodes, g.order)), Some(EdgeDocs(g.edges)), Some(g.nextNodeId))
  }

  /** An order lists as many entries as the dict has keys. */
  lemma OneEntryPerKey(nodes: map<int, Node>, order: seq<int>)
    requires OrderOf(order, nodes)
    ensures |nodes| == |order|
  {
    CardinalityOfOrder(order);
    forall k ensures k in nodes.Keys <==> k in (set k | k in order) {
    }
    assert nodes.Keys == set k | k in order;
  }

  /** The number of distinct keys in an order is its length. */
  lemma {:induction false} CardinalityOfOrder(order: seq<int>)
    requires Distinct(order)
    ensures |set k | k in order| == |order|
  {
    if order != [] {
      var rest := order[1..];
      assert Distinct(rest) by {
        forall i, j | 0 <= i < j < |rest| ensures rest[i] != rest[j] {
          assert rest[i] == order[i + 1] && rest[j] == order[j + 1];
        }
      }
      CardinalityOfOrder(rest);
      assert order[0] !in rest;
      assert (set k | k in order) == (set k | k in rest) + {order[0]};
    }
  }

  /**
   * `Graph.from_dict`: defaults "Graf", 1 and empty lists for missing keys;
   * nodes are stored under their own ids, a later document with the same id
   * overwriting an earlier one; edges are appended as they are, unchecked.
   */
  method FromDoc(d: GraphDoc) returns (g: Graph)
    ensures fresh(g)
    ensures g.name == d.name.GetOr("Graf") && g.nextNodeId == d.nextNodeId.GetOr(1)
    ensures Table(g.nodes, g.order) == LoadNodes(NodesOf(d.nodes.GetOr([])), |d.nodes.GetOr([])|)
    ensures g.edges == EdgesFromDocs(d.edges.GetOr([]))
    ensures g.WellFormed()
  {
    g := new Graph(d.name.GetOr("Graf"));
    g.nextNodeId := d.nextNodeId.GetOr(1);
    var table := StoreNodes(NodesOf(d.nodes.GetOr([])));
    g.nodes, g.order := table.nodes, table.order;
    g.edges := ReadEdges(d.edges.GetOr([]));
    NodesOfLabelled(d.nodes.GetOr([]));
    LoadNodesWellFormed(NodesOf(d.nodes.GetOr([])), |d.nodes.GetOr([])|);
  }

  /**
   * The node loop of `Graph.from_dict`: each node (already read from its
   * document) is stored under its id, starting from the new graph's empty dict.
   */
  method StoreNodes(ns: seq<Node>) returns (t: Table)
    ensures t == LoadNodes(ns, |ns|)
  {
    t := Table(map[], []);
    var i := 0;
    while i < |ns|
      invariant 0 <= i <= |ns|
      invariant t == LoadNodes(ns, i)
    {
      t := Store(t, ns[i]);
      i := i + 1;
    }
  }

  /** The edge loop of `Graph.from_dict`: one edge per document, in order, unchecked. */
  method ReadEdges(docs: seq<EdgeDoc>) returns (edges: seq<Edge>)
    ensures edges == EdgesFromDocs(docs)
  {
    edges := [];
    var j := 0;
    while j < |docs|
      invariant 0 <= j <= |docs|
      invariant |edges| == j && forall l :: 0 <= l < j ==> edges[l] == EdgeFromDoc(docs[l])
    {
      edges := edges + [EdgeFromDoc(docs[j])];
      j := j + 1;
    }
  }

  /**
   * A well-formed graph written by ToDoc and read back by FromDoc comes
   * back unchanged: same name, counter, node dict (keys, nodes and order)
   * and edge list.
   */
  lemma GraphRoundTrip(g: Graph)
    requires g.WellFormed()
    ensures var d := ToDoc(g);
      && d.name.GetOr("Graf") == g.name
      && d.nextNodeId.GetOr(1) == g.nextNodeId
      && LoadNodes(NodesOf(d.nodes.GetOr([])), |d.nodes.GetOr([])|) == Table(g.nodes, g.order)
      && EdgesFromDocs(d.edges.GetOr([])) == g.edges
  {
    NodesRoundTrip(g.nodes, g.order);
    EdgesRoundTrip(g.edges, []);
  }
}
