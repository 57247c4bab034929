# Indoor map editor and multi-floor router — a Dafny model

The editor keeps one planar graph per floor of a building. A graph is a
dict from node id to node, an ordered list of undirected edges, and an
id counter that only grows. The user draws corridors, lets the editor
merge, split and simplify them, and asks for a route between two points
of interest. Such a point is a room, a lift or a stairway, each with a
connection point. A route can change floors through lifts and stairs that
share a group id.

This project models the core of that editor in Dafny. Every module proves
its contracts.

| module | file | what it models |
|---|---|---|
| `Wrappers` | wrappers.dfy | `Option` and `Result` |
| `Text` | text.dfy | `f"{i}"` for the default node labels |
| `Geometry` | geometry.dfy | `distance_to`, `ccw`/`lines_intersect`, `get_intersection_point`, `point_to_line_distance`, `closest_point_on_line` |
| `LevelGraph` | level_graph.dfy | `Node`, `Edge` and the `Graph` class: `add_node`, `add_edge`, `remove_node`, `remove_edge`, `merge_with`, `edge_exists` |
| `GraphDoc` | graph_doc.dfy | `to_dict` / `from_dict` for nodes, edges and graphs |
| `Maintenance` | maintenance.dfy | `merge_two_nodes`, `auto_merge_nearby_nodes`, `simplify_paths` |
| `Crossing` | crossing.dfy | `find_edge_crossing` and the edge-split block of `canvas_drag` |
| `Batch` | batch.dfy | the graph part of `auto_connect` and `remove_path_nodes` |
| `Navigation` | navigation.dfy | `recalculate_all_edge_weights`, `get_nodes_near_point`, `build_elevator_connections` |
| `Router` | router.dfy | the Dijkstra loop of `find_shortest_path_multi_floor` |
| `Itinerary` | itinerary.dfy | `reconstruct_path`, `find_shortest_path_multi_floor` as a whole, `find_path` |

## How the model is built

- **Graph state.** A floor's graph is a class, `LevelGraph.Graph`. Its
  fields are `nodes: map<int, Node>`, `order: seq<int>`, `edges: seq<Edge>`
  and `nextNodeId`.
  - `order` is the dict's insertion order. The editor iterates
    `nodes.values()` in that order, and several results depend on it.
  - `WellFormed()` says the dict has its shape: every node is stored
    under its own id, and `order` lists each key once.
  - `Valid()` adds the graph invariant: every id is below the counter,
    every edge endpoint is a node, and there is at most one edge per
    unordered pair.
- **Methods and functions.** Every operation that changes a graph is a
  method with a `modifies` clause. Its `ensures` ties the new state to a
  function of the old state, and lemmas prove what the source promises
  about that function.
- **Distance.** Coordinates are reals. `math.sqrt` of the squared
  distance is a parameter `dist` constrained by `Geometry.IsEuclidean`:
  it is non-negative and squares to the squared distance. Comparisons of
  distances are decided on squared distances (`Geometry.DistBelowIff`).
- **The router.**
  - It works on value snapshots of the floors (`Navigation.Level`): each
    floor's nodes, order, edges and devices. The floor is always an
    explicit argument; the editor's current-floor cursor plays no part.
  - `came_from` tuples become the datatype `Router.Pred`: `Origin`,
    `ViaEdge`, `ViaTransfer` or `Reached`.
  - The goal `("END", -1)` is the state `Router.Goal`.
  - Where the source shows an error box and returns `None`, the model
    returns a `Failure` carrying an `Itinerary.RouteError`.
  - A journey (`Itinerary.Journey`) is a walk from a start candidate to
    an end candidate. It costs the start distance, each step's cost as
    the search prices it (`Router.StepCost`), and the end distance. With
    no negative weight, the search finds the goal exactly when a journey
    exists, at the cheapest journey's cost (`Itinerary.SearchOptimal`).
  - The loop invariant carries what that proof needs: every best cost is
    its predecessor's plus the step (`Router.Priced`), and no step from a
    visited node leads anywhere cheaper than recorded (`Router.Closed`).
- **Behaviours of the code worth knowing.**
  - The orientation test `lines_intersect` reports touching
    configurations as intersecting: a T-junction counts, not only a strict
    crossing (`Geometry.TouchingIsReported`).
  - The search does not stop when it pops the goal. It keeps popping
    until the queue is empty. The goal is recorded only when its cost
    beats the best so far, so the result is the same.
- **Quirks of the code the model keeps.**
  - `if next_node_id:` skips a neighbour whose id is 0
    (`Router.EdgeStep`).
  - An edge weight of 0 counts as missing: the search then uses the
    endpoint distance (`Router.EdgeCost`).
  - The candidates near a point cannot be empty when its floor has
    nodes, because of the fallback to the nearest node. So "no nodes near
    the end" is reported exactly when the start floor has nodes and the
    end floor has none.

## Model

| member | source | states |
|---|---|---|
| Text.NatToString | app.py:15 | the rendering of a natural number is a non-empty string of decimal digits |
| Text.DigitsRoundTrip | app.py:15 | reading the rendered digits back gives the number, so `f"N{id}"` names the id |
| Text.NatToStringInjective | app.py:15 | different numbers render differently |
| Text.IntToString | app.py:15 | `f"{i}"` starts with a minus sign exactly for a negative number, and is otherwise made of decimal digits |
| Text.IntRoundTrip | app.py:15 | reading the rendering of an integer back, sign included, gives the integer |
| Text.IntToStringInjective | app.py:15 | different integers render differently, so default labels of different ids differ |
| LevelGraph.NodeLabel | app.py:11-15 | a node's label is never empty, and a non-empty label given to the constructor is kept |
| LevelGraph.DefaultLabel | app.py:15 | the default label is "N" followed by at least one character |
| LevelGraph.JoinsSymmetric | app.py:64-67 | an edge joins a pair in either direction, and joins it exactly when the unweighted edge between the pair joins its own ends |
| LevelGraph.FirstJoining | app.py:63-67 | the position found is the first edge joining the pair in either direction; there is none exactly when no edge links the pair |
| LevelGraph.WithoutNode | app.py:81 | the filtered list keeps exactly the edges not touching the id, and is no longer |
| LevelGraph.WithoutPair | app.py:85-88 | the filtered list keeps exactly the edges not joining the pair |
| LevelGraph.WithoutNodeAppend | app.py:81 | the filter distributes over concatenation, so kept edges keep their order |
| LevelGraph.WithoutNodeUntouched | app.py:81 | a list that no edge of touches the id is left as it is |
| LevelGraph.Erase | app.py:80 | `del` leaves exactly the other keys in the dict order |
| LevelGraph.EraseDistinct | app.py:80 | deleting a key keeps the keys distinct |
| LevelGraph.Degree | app.py:3464-3465 | the number of edges touching a node is at most the number of edges, and zero exactly when none touches it |
| LevelGraph.AddNodeKeepsInvariant | app.py:52-57 | on a valid graph the counter is a fresh id; the node is appended to the order and the graph invariant holds with the counter bumped |
| LevelGraph.ConnectSpec | app.py:59-75 | `add_edge` keeps the old list as a prefix, adds at most one edge and links the pair; no other pair becomes linked |
| LevelGraph.ConnectKeepsInvariant | app.py:59-75 | `add_edge` between existing nodes keeps every endpoint a node and one edge per pair |
| LevelGraph.WithoutNodeKeepsInvariant | app.py:77-81 | after `remove_node` every remaining endpoint is a remaining node, and no pair is duplicated |
| LevelGraph.SubsequenceNoDuplicates | app.py:81 | filtering edges out of a list never duplicates a pair |
| LevelGraph.WithoutPairKeepsInvariant | app.py:83-88 | `remove_edge` keeps every endpoint a node and one edge per pair |
| LevelGraph.PairSubsequenceNoDuplicates | app.py:85-88 | dropping the edges of one pair never duplicates a pair |
| LevelGraph.ConnectAllSpec | app.py:119-123 | a run of `add_edge` calls keeps the old edges in front, grows by at most one edge per request and links every requested pair; every linked pair was linked before or requested |
| LevelGraph.ConnectAllSnoc | app.py:119-123 | one more request is one more `add_edge` after the others |
| LevelGraph.ConnectAllAppend | app.py:3174-3178 | two runs of `add_edge` calls in a row are one run over both request lists |
| LevelGraph.ConnectAllKeepsInvariant | app.py:119-123 | a run of `add_edge` calls keeps every endpoint a node and one edge per pair |
| LevelGraph.Renumbering | app.py:111-117 | `id_mapping` is defined exactly on the other graph's ids, and maps them into the range of new ids |
| LevelGraph.IdMappingRange | app.py:114-117 | after n nodes the mapping covers exactly the first n ids, with values in [counter, counter + n) |
| LevelGraph.CopiesKeys | app.py:114-116 | the copied nodes are keyed exactly by the new ids, each node under its own id |
| LevelGraph.NewKeysMembers | app.py:54 | the keys added to the dict order are exactly the new ids not already keys |
| LevelGraph.NewKeysDistinct | app.py:54 | the added keys are distinct |
| LevelGraph.Renumbered | app.py:120-123 | every edge re-added by `merge_with` has both ends renamed through the mapping and keeps its weight, in order |
| LevelGraph.Graph.constructor | app.py:46-50 | a new graph is empty, its counter is 1 and it is valid |
| LevelGraph.Graph.AddNode | app.py:52-57 | the node gets the counter as id, is stored under it (appended to the order when new), and the counter is bumped; nothing else changes |
| LevelGraph.Graph.AddEdge | app.py:59-75 | fails exactly when an endpoint is missing; returns the first edge already joining the pair and leaves the list alone; otherwise appends one edge whose weight defaults to the endpoint distance |
| LevelGraph.Graph.AddEdgeKeepsValid | app.py:59-75 | `add_edge` on a valid graph keeps every endpoint a node and one edge per pair |
| LevelGraph.Graph.RemoveNode | app.py:77-81 | an absent id changes nothing; otherwise the node and exactly the edges touching it go, other edges keep their order, and validity is kept |
| LevelGraph.Graph.RemoveEdge | app.py:83-88 | drops exactly the edges joining the pair, in either direction, and keeps validity |
| LevelGraph.Graph.MergeWith | app.py:109-123 | copies the other graph's nodes, moved by the offset, under new ids in its order, then re-adds its edges through the renumbering; the counter grows by the number of nodes and validity is kept |
| LevelGraph.Graph.CopyNodes | app.py:113-117 | the node loop of `merge_with` returns the renumbering and adds exactly the moved copies |
| LevelGraph.Graph.CopyOne | app.py:115-117 | one `add_node` of the node loop records the old and new id and adds one copy |
| LevelGraph.Graph.AddEdges | app.py:59-62 | a loop of `add_edge` calls, one per request, in order: it fails exactly when some request names a missing node, and the edges are then those of the requests before the first such one |
| LevelGraph.Resolved | app.py:59-62 | the number of requests before the first one naming a missing node, where `add_edge` raises |
| LevelGraph.ResolvedAll | app.py:59-62 | every request goes through exactly when every endpoint is a node |
| LevelGraph.Graph.EdgeExists | app.py:1961-1967 | `edge_exists` is true exactly when some edge joins the pair |
| LevelGraph.MergeWithKeepsValid | app.py:109-123 | the nodes, order and edges `merge_with` leaves satisfy the graph invariant with the new counter |
| LevelGraph.CopyStep | app.py:115-117 | copying one more node stores one more key, which only the original graph could already hold |
| GraphDoc.NodeFromDoc | app.py:24-26 | a node read from a document keeps its id and has a non-empty label |
| GraphDoc.NodeDocRoundTrip | app.py:21-26 | a node document reads back and writes out unchanged exactly when its label is present and non-empty |
| GraphDoc.NodeRoundTrip | app.py:21-26 | a labelled node survives being written and read back |
| GraphDoc.EdgeFromDoc | app.py:36-41 | an edge read from a document has its ends and weight, and writes back to the same document |
| GraphDoc.EdgesRoundTrip | app.py:94-106 | edge lists survive being written and read back, and edge documents survive being read and written back |
| GraphDoc.StoreKeepsShape | app.py:103-104 | storing a labelled node under its id keeps the dict well-formed |
| GraphDoc.LoadNodesWellFormed | app.py:102-104 | whatever the documents, the loaded node dict is well-formed |
| GraphDoc.LoadNodesKeys | app.py:102-104 | the loaded keys are exactly the ids of the documents read |
| GraphDoc.LoadNodesLastWins | app.py:102-104 | a node is loaded from the last document carrying its id |
| GraphDoc.LoadDistinctIds | app.py:102-104 | documents with distinct ids load in their own order |
| GraphDoc.LoadEntries | app.py:90-104 | loading a dict's entries rebuilds its first n entries, keys, nodes and order |
| GraphDoc.NodesOfDocs | app.py:93-103 | a dict's node documents read back as its entries in order |
| GraphDoc.NodesRoundTrip | app.py:90-104 | writing a well-formed node dict and loading it gives it back, order included |
| GraphDoc.NodesOfLabelled | app.py:103 | nodes read from documents keep their ids and carry labels |
| GraphDoc.DocsRoundTrip | app.py:90-104 | node documents with distinct ids and present labels survive being loaded and written back |
| GraphDoc.ToDoc | app.py:90-96 | `to_dict` writes the name, the counter, one document per node and the edge documents |
| GraphDoc.FromDoc | app.py:98-107 | `from_dict` defaults the name to "Graf", the counter to 1 and lists to empty; it stores nodes under their ids, a later duplicate id overwriting an earlier one; it appends edges unchecked; the result is well-formed |
| GraphDoc.StoreNodes | app.py:102-104 | the node loop of `from_dict` loads the nodes in order |
| GraphDoc.ReadEdges | app.py:105-106 | the edge loop of `from_dict` reads one edge per document, in order |
| GraphDoc.GraphRoundTrip | app.py:90-107 | a well-formed graph written by `to_dict` and read by `from_dict` comes back with the same name, counter, node dict and edge list |
| Geometry.DistBelowIff | app.py:17-19 | `dist(p, q) < r` holds exactly when r is positive and the squared distance is below r squared |
| Geometry.DistSymmetric | app.py:17-19 | the distance is symmetric and zero from a point to itself |
| Geometry.DistMonotone | app.py:17-19 | distances are ordered as squared distances are |
| Geometry.Ccw | app.py:1984-1985 | `ccw(a, b, c)` holds exactly when c lies strictly to the left of a→b |
| Geometry.ProperCrossingDetected | app.py:1981-1991 | every proper crossing of two segments is reported by `lines_intersect` |
| Geometry.TouchingIsReported | app.py:1981-1991 | a segment that ends on the interior of the other is also reported |
| Geometry.IntersectionPoint | app.py:1993-2009 | a point is returned only when the determinant clears 1e-10 in absolute value, and it lies on both segments |
| Geometry.IntersectionOnBoth | app.py:2001-2006 | the parameters t and u name the same point on the two lines |
| Geometry.CrossingHasPoint | app.py:1981-2009 | when `lines_intersect` reports a crossing and the determinant clears the threshold, `get_intersection_point` returns a point |
| Geometry.ProjectionParameter | app.py:2072 | the clamped projection parameter lies in [0, 1] |
| Geometry.ProjectionIsNearest | app.py:2072-2076 | the clamped projection is no farther from p than any point of the segment |
| Geometry.ClosestPointOnSegment | app.py:2081-2095 | the point found lies on the segment and no point of the segment is closer to p |
| Geometry.ClosestPointOnLine | app.py:2078-2098 | `closest_point_on_line` returns a point of the segment that no point of the segment is nearer to p than, and its distance from p, at most the distance to either end |
| Geometry.PointToLineDistance | app.py:2065-2076 | `point_to_line_distance` is the distance from p to some point of the segment, and at most the distance to any point of the segment or either end: the distance to the segment |
| Geometry.NearestBeatsEndpoints | app.py:2065-2098 | the nearest point of a segment is no farther than either end |
| Maintenance.CountPrefixed | app.py:3469 | the number of labels starting with a letter is at most the number of nodes |
| Maintenance.Numbered | app.py:3470 | `f"X{n}"` starts with its letter and has a digit after it |
| Maintenance.ReroutesShape | app.py:3437-3451 | every collected request goes from `keep` to a neighbour of `remove` other than the two; every such neighbour not yet linked to `keep` is requested |
| Maintenance.MergedEdgesSpec | app.py:3433-3460 | after the merge no edge touches `remove`; every other neighbour of `remove` is linked to `keep`; old edges away from `remove` stay in front; no other link appears |
| Maintenance.MergeFloorNodes | app.py:3420-3474 | `remove` is gone; `keep` sits at the midpoint of the two old positions; it gets an "X" label exactly when it had one or now has more than two edges, otherwise its label is kept; other nodes are unchanged |
| Maintenance.MergeFloorKeys | app.py:3472-3474 | the merge leaves exactly the keys other than `remove` and changes no node but `keep` |
| Maintenance.MergeFloorWellFormed | app.py:3420-3474 | a merge keeps the node dict well-formed |
| Maintenance.MergeFloorShrinks | app.py:3472-3474 | merging two different present nodes removes exactly one node |
| Maintenance.MergeFloorValid | app.py:3420-3474 | a merge keeps the graph invariant: no dangling endpoint, no duplicate pair |
| Maintenance.MergedEdgesValid | app.py:3433-3460 | the merged edges keep one edge per pair and join only remaining nodes |
| Maintenance.ReroutesAsWrittenShape | app.py:3437-3451 | as written, a self-loop at `remove` yields a request from `keep` to `remove` itself |
| Maintenance.SelfLoopLeavesDanglingEdge | app.py:3437-3474 | as written, merging a node with a self-loop leaves an edge to the deleted node, which the corrected merge does not |
| Maintenance.SelfLoopFloorExists | app.py:3437-3474 | a valid two-node floor with a self-loop meets the conditions of the lemma above |
| Maintenance.CollectReroutes | app.py:3434-3451 | the scanning loop collects exactly the reroute requests of the corrected merge |
| Maintenance.MergeTwoNodes | app.py:3420-3474 | `merge_two_nodes`, corrected for a self-loop at `remove`: fails exactly when two different present nodes are merged and a rerouted edge names a missing node, leaving the aborted floor (`keep` moved, `remove` still present); otherwise leaves the floor that the merge function describes; name and counter are kept |
| Maintenance.RerouteEdges | app.py:3429-3460 | moves `keep`, drops the edges at `remove` and adds the rerouted ones of the corrected merge up to the first that names a missing node; fails exactly when there is one |
| Maintenance.EndpointsResolveMerge | app.py:3437-3460 | on a floor whose edges join existing nodes, no rerouted `add_edge` raises |
| Maintenance.ReroutedComplete | app.py:3458-3460 | when no rerouted request names a missing node, all of them are added, giving the merged edges |
| Maintenance.AbortedMergeNodes | app.py:3429-3431 | a merge stopped by `add_edge` keeps the keys, order and dict shape, and moves only `keep` to the midpoint |
| Maintenance.AbortedMergeEdges | app.py:3433-3460 | a merge stopped by `add_edge` keeps the edges away from `remove` in front and leaves no edge at `remove` |
| Maintenance.MarkJunction | app.py:3462-3470 | relabels `keep` as the next "X" when it is not one and has more than two edges |
| Maintenance.FindClosePair | app.py:3390-3413 | a scan returns the first pair i < j in dict order closer than the radius, and none only when no such pair exists |
| Maintenance.NoCloseNodes | app.py:3415-3416 | when no pair in dict order is close, no two distinct nodes are closer than the radius |
| Maintenance.AutoMergeNearbyNodes | app.py:3384-3418 | terminates; the dict stays well-formed and only old ids remain; when no merge raises, the merge count equals the drop in node count and no two nodes are strictly closer than the radius; on a valid graph no merge raises and validity is kept |
| Maintenance.MergeStep | app.py:3405-3409 | one merge of a close pair removes one node, or raises and removes none; it keeps the dict well-formed, and on a valid graph it does not raise and keeps validity |
| Maintenance.Incident | app.py:3485-3486 | `connected_edges` has as many edges as the node's degree |
| Maintenance.IncidentMembers | app.py:3485-3486 | `connected_edges` holds exactly the edges touching the node |
| Maintenance.MarkKeyNodes | app.py:3479-3511 | step 1 marks exactly the nodes that do not have two edges, or lie more than 15 from their neighbours' segment |
| Maintenance.MarkNode | app.py:3483-3511 | one pass of step 1 adds the node to the marked set exactly when it is a key node |
| Maintenance.KeyNodesMembers | app.py:3479-3511 | the marked set is the set of key nodes |
| Maintenance.ListRemovable | app.py:3513-3522 | step 2 lists, in dict order, the unmarked nodes with two edges |
| Maintenance.RemovableMembers | app.py:3513-3522 | the listed nodes are keys, unmarked, with two edges, each once |
| Maintenance.DeletedValid | app.py:3537 | `remove_node` keeps the graph invariant and removes exactly one node when the id is present |
| Maintenance.SimplifyStepValid | app.py:3526-3544 | one step of step 3 keeps the graph invariant |
| Maintenance.SimplifyStepEffect | app.py:3526-3544 | a node without two edges is left alone; one with two is deleted with its edges, other edges keep their order, and at most one edge is added |
| Maintenance.SimplifyStepRelinks | app.py:3531-3542 | the only edge a step adds joins the deleted node's two neighbours, and they are linked afterwards when both remain |
| Maintenance.SimplifyAllStep | app.py:3526-3544 | one more candidate is one more step, counted when it has two edges at its turn |
| Maintenance.SimplifyStepNodes | app.py:3531-3537 | a step deletes at most the candidate and changes no other node |
| Maintenance.StepCount | app.py:3531-3544 | a step deletes one node exactly when the candidate has two edges |
| Maintenance.SimplifyOne | app.py:3527-3544 | step 3 for one candidate; reports a removal exactly when it had two edges |
| Maintenance.SimplifiedOneMore | app.py:3526-3544 | one more step keeps the running facts of step 3: validity, count and kept nodes |
| Maintenance.SimplifyNext | app.py:3526-3544 | step 3 for the next candidate keeps the running facts |
| Maintenance.RemoveStraightNodes | app.py:3524-3544 | step 3 keeps validity; the count is the number of nodes deleted; only candidates are deleted; kept nodes are unchanged |
| Maintenance.SimplifyPaths | app.py:3476-3553 | reports the number of key nodes; deletes only nodes that were unmarked with two edges at step 1; keeps validity; the count is the drop in node count |
| Crossing.CrossingPoint | app.py:2029-2061 | a reported point lies on the drawn segment and on the edge, whose ends are nodes |
| Crossing.CrossingPointSpec | app.py:2029-2061 | a reported crossing has an edge at least `min_edge_length` long, not at the last path node, reported by `lines_intersect`, with the point at least 20 from both ends |
| Crossing.ProperCrossingReported | app.py:2043-2061 | an eligible edge crossed properly, whose determinant clears the threshold, has a point, and is reported exactly when that point is 20 or more from both ends |
| Crossing.FindEdgeCrossing | app.py:2023-2063 | returns the first edge in list order with a crossing and its point, and none only when no edge has one |
| Crossing.SplitKeepsInvariant | app.py:1584-1593 | the split keeps every endpoint a node and one edge per pair |
| Crossing.SplitReplacesEdge | app.py:1584-1593 | the crossed edge's ends are no longer linked to each other but each is linked to the junction, as is the last path node; other edges stay and new ones touch the junction |
| Crossing.HalvesShape | app.py:1587-1590 | the two halves replace the crossed edge and touch the junction |
| Crossing.SplitKeepsGraphInvariant | app.py:1581-1593 | adding the junction under the fresh id and splitting keep the graph invariant |
| Crossing.SplitEdge | app.py:1584-1593 | the edge part of the crossing block leaves the split edge list; its last `add_edge` fails exactly when the path's last node is missing |
| Crossing.SplitAtCrossing | app.py:1576-1605 | adds the junction "X<count + 1>" at the point, splits the crossed edge, links the path to it, and keeps validity; the link fails exactly when the path's last node is missing |
| Batch.RowPairsHas | app.py:3175-3178 | row i requests every later node within the distance |
| Batch.RowPairsOnly | app.py:3175-3178 | row i requests only later nodes within the distance |
| Batch.ClosePairsHas | app.py:3173-3178 | every pair within the distance is requested, from the earlier node to the later one |
| Batch.ClosePairsOnly | app.py:3173-3178 | only pairs within the distance are requested |
| Batch.AutoConnectLinks | app.py:3172-3178 | old edges stay in front, every pair within the distance is linked, and every other link was there before |
| Batch.ConnectRow | app.py:3175-3178 | one row of the scan is one `add_edge` per close later node |
| Batch.AutoConnect | app.py:3166-3178 | nothing changes for a cancelled or zero distance; otherwise every close pair in dict order is connected; validity is kept |
| Batch.EntriesAreNodes | app.py:3173 | `list(nodes.values())` lists the nodes in dict order, each under its own id |
| Batch.PrefixedKeysMembers | app.py:3248-3249 | the collected ids are exactly the nodes whose label starts with "P", each once |
| Batch.CollectPathNodes | app.py:3248-3249 | the comprehension collects the "P" nodes in dict order |
| Batch.DeleteAllSpec | app.py:3250-3251 | deleting the ids leaves exactly the other nodes unchanged, no edge touching a deleted node, and every other edge |
| Batch.DeleteAllCount | app.py:3250-3251 | deleting n distinct present ids removes n nodes |
| Batch.RemoveNodes | app.py:3250-3251 | `remove_node` for each id in turn, keeping validity |
| Batch.RemovePathNodes | app.py:3244-3256 | deletes exactly the "P" nodes and their edges, reports how many, and keeps the other nodes and validity |
| Navigation.Reweighed | app.py:968-979 | recalculation keeps the number of edges |
| Navigation.ReweighedSettles | app.py:965-979 | every edge between existing nodes then weighs their distance; endpoints are kept; a second pass changes nothing |
| Navigation.ReweighedKeepsInvariant | app.py:968-979 | recalculation keeps the graph invariant |
| Navigation.RecalculateEdgeWeights | app.py:966-979 | one floor's edges are recalculated in place, and nothing else changes |
| Navigation.RecalculateAllEdgeWeights | app.py:961-983 | every floor's edges are recalculated, and nothing else changes |
| Navigation.InsertByDistanceMultiset | app.py:1150 | one insertion step adds exactly the inserted entry |
| Navigation.InsertByDistanceMembers | app.py:1150 | an insertion step adds nothing but the entry |
| Navigation.InsertByDistanceSorted | app.py:1150 | an insertion step keeps a list ascending by distance |
| Navigation.SortByDistancePermutes | app.py:1150 | the stable sort by distance is a permutation |
| Navigation.SortByDistanceSorted | app.py:1150 | the sort is ascending by distance |
| Navigation.SortedMembers | app.py:1150 | the sorted list holds exactly the entries sorted |
| Navigation.SortedNonEmpty | app.py:1150 | sorting a non-empty list gives a non-empty list |
| Navigation.WithinRadiusMembers | app.py:1141-1147 | each candidate is a node of the list strictly within 500, paired with its distance |
| Navigation.WithinRadiusMeaning | app.py:1141-1147 | the candidates are exactly the floor's nodes strictly within 500, with their distances |
| Navigation.NearbyMeaning | app.py:1128-1150 | the sorted candidates are ascending and are exactly the floor's nodes strictly within 500, with their distances |
| Navigation.NodesNearPoint | app.py:1128-1164 | `NearCandidates`: the sorted candidates within 500 when there are any; otherwise exactly one, the nearest node; empty exactly when the floor has no nodes |
| Navigation.NearestNode | app.py:1153-1162 | the fallback returns one entry, a node at minimal distance |
| Navigation.NearestFound | app.py:1154-1160 | the minimum over the node list is a nearest node of the floor |
| Navigation.InGroupMembers | app.py:1290-1303 | the devices filed under a group have that group id, which is truthy |
| Navigation.RegisterFloorEffect | app.py:1290-1303 | a floor without a device of the group leaves its entry alone; otherwise the floor is added with exactly its devices of the group |
| Navigation.FloorsWithSeen | app.py:1289-1303 | the floors listed for a group are floors already scanned |
| Navigation.ConnectionsMeaning | app.py:1285-1305 | after n floors a group has an entry exactly when one of them holds one of its devices, listing those floors in order, each with exactly its devices of the group |
| Navigation.IndexedNextFloor | app.py:1289-1303 | one more floor extends a group's entry exactly when it holds a device of the group |
| Navigation.BuildElevatorConnections | app.py:1285-1305 | builds the group → floor → devices index, as ConnectionsMeaning describes |
| Router.EntryOrderTotal | app.py:1027 | the queue order, by cost then state, is a strict total order |
| Router.PyOrderAgreesOnNodes | app.py:1085 | between node entries the source's tuple comparison is the queue order |
| Router.GoalTieRaises | app.py:1060 | a goal entry and a node entry of equal cost do not compare in Python |
| Router.PopMin | app.py:1027 | `heappop` removes and returns an entry that no other entry precedes |
| Router.Relax | app.py:1077-1085 | an offer to a visited state, or one not beating the best cost, changes nothing; otherwise it records the cost and predecessor and pushes the entry |
| Router.RelaxKeeps | app.py:1077-1085 | offering an existing state from the expanded node, at the cost its step makes, keeps the frontier sound, ranked, queued and priced; it only lowers best costs and pushes nothing below the current cost; afterwards the state is visited or costs at most the offer |
| Router.RelaxSound | app.py:1081-1085 | an accepted offer keeps every predecessor's promise |
| Router.RelaxRanked | app.py:1081-1085 | an accepted offer from an expanded node keeps predecessor chains descending |
| Router.RelaxExtends | app.py:1081-1085 | an accepted offer lowers a best cost and pushes no entry cheaper than the current cost |
| Router.RelaxQueued | app.py:1081-1085 | after an accepted offer every unvisited state with a cost has its entry at that cost queued, and no queued entry of an unvisited state is cheaper than its best cost |
| Router.RelaxPriced | app.py:1079-1084 | after an accepted offer every best cost is still its predecessor's best cost plus the step's cost |
| Router.StepCostNonNegative | app.py:1078-1115 | with no negative edge weight, no step costs anything negative: an edge costs its weight or a distance, a transfer two distances and 50 or 80 |
| Router.SeededQueue | app.py:1014-1016 | seeding queues each start candidate with its distance, in order, and visits nothing |
| Router.SeededBest | app.py:1014-1017 | seeding records each start candidate at its distance |
| Router.SeededCame | app.py:1014-1018 | seeding records only start candidates, each as a start and with a cost |
| Router.SeededSound | app.py:1008-1018 | the seeded frontier is sound, queued and priced, visits nothing, and every start costs at most its distance |
| Router.SeedKeeps | app.py:1014-1018 | a frontier with the facts of seeding every start candidate is sound, ranked, queued and priced, and every start costs at most its distance |
| Router.SeededStarts | app.py:1014-1018 | the seeded entries and records are existing start nodes, each recorded as a start |
| Router.SeededQueued | app.py:1016-1017 | every seeded start is queued at its recorded cost, and no queued entry is cheaper than its state's cost |
| Router.SeededPriced | app.py:1017-1018 | every seeded start costs its candidate's distance |
| Router.Seed | app.py:1014-1018 | the seeding loop builds exactly that frontier |
| Router.OfferGoal | app.py:1051-1060 | on the end floor, for every end candidate that is the expanded node, the goal is afterwards visited or costs at most the node's cost plus that candidate's end distance; the frontier stays ready and only extends |
| Router.OfferEnd | app.py:1052-1060 | one pass of the goal loop: when candidate i is the node, the goal is covered at the node's cost plus its end distance |
| Router.RelaxEdges | app.py:1066-1085 | after the edge loop every existing, non-zero neighbour along an edge of the floor is visited or costs at most the node's cost plus the edge's cost (its weight, or the distance when the weight is missing or zero) |
| Router.RelaxEdge | app.py:1067-1085 | one pass of the edge loop: the neighbour along that edge is covered at that cost |
| Router.RelaxGroup | app.py:1098-1120 | for a device within 500 with a truthy group id, every transfer through it to a node near a device of its group on another floor is covered at the node's cost plus the entry distance, 50 or 80, and the exit distance |
| Router.RelaxExits | app.py:1102-1120 | the same, for every exit device of the group on one other floor |
| Router.RelaxExitNodes | app.py:1105-1120 | every node of the other floor strictly within 500 of the exit device is covered at the node's cost plus the entry distance, 50 for a lift or 80 for stairs, and the exit distance |
| Router.RelaxExitNode | app.py:1108-1120 | one pass of the innermost loop: that node, when within 500 of the exit device, is covered at that cost |
| Router.RelaxTransfers | app.py:1088-1120 | after the device loop every transfer from the node is covered at its cost: entry device within 500 with a truthy group id, exit device of the group on another floor, target node within 500 of it |
| Router.Expand | app.py:1050-1120 | expanding a node covers the goal from it for every end candidate it is, and every edge step and transfer from it, each at the node's cost plus the step's cost; the frontier stays ready and only extends |
| Router.ExpandedClosed | app.py:1026-1120 | with no negative cost, after an expansion every step from every visited node leads to a state whose best cost is at most the node's plus the step's |
| Router.ExtendsInOrder | app.py:1026-1120 | with non-negative costs, an expansion pushes nothing cheaper than the last settled cost |
| Router.PopInOrder | app.py:1027 | popping the cheapest entry keeps the queue at or above the settled costs |
| Router.PopCost | app.py:1027-1033 | the popped entry of an unvisited state carries that state's best cost |
| Router.SkipKeeps | app.py:1031-1032 | popping an entry of a visited state keeps the loop invariant |
| Router.PopVisitKeeps | app.py:1027-1033 | popping and visiting an unvisited state keeps the frontier sound, queued and priced, and, with no negative cost, in order and closed |
| Router.VisitKeeps | app.py:1033 | visiting a node state ranks it next and readies its expansion |
| Router.GoalVisitKeeps | app.py:1036-1040 | visiting the goal records it as found at its best cost and keeps the loop invariant |
| Router.ExpandKeeps | app.py:1042-1120 | expanding the visited node keeps the loop invariant, with the node ranked next |
| Router.Settle | app.py:1029-1120 | visiting a popped entry keeps the loop invariant and settles its cost; the goal is recorded as found at its cost; a node's expansion covers every step from it and the goal from it |
| Router.SettledChains | app.py:1026-1120 | predecessor chains descend in visit rank, and a visited goal was reached from an expanded end candidate |
| Router.SearchDone | app.py:1026-1120 | with the queue empty every state with a cost is visited; the goal is found exactly when visited, from an end candidate, at the recorded best cost; every cost is its predecessor's plus the step; with no negative cost, visited nodes are closed under steps and settled costs ascend |
| Router.Search | app.py:1008-1120 | the search ends with an empty queue and every state with a cost visited, costing its predecessor's cost plus the step; the goal is found exactly when visited, at the best cost, from an expanded end candidate; every start costs at most its distance; with no negative cost, settled costs ascend and no step from a visited node leads anywhere cheaper than recorded |
| Itinerary.Backward | app.py:1179-1215 | the backward walk takes at most 100 items and starts at the state it walks back from |
| Itinerary.Reversed | app.py:1218 | `reverse()` puts item i at position len − 1 − i |
| Itinerary.BackwardWalks | app.py:1177-1215 | walking back from an expanded node gives existing nodes, each reached from the next by an edge or transfer; stopping early means it reached a start candidate |
| Itinerary.SearchChains | app.py:1026-1120 | a finished search's predecessor map steps back soundly from every expanded node |
| Itinerary.ReversedWalk | app.py:1218 | reversing a backward walk gives a forward walk |
| Itinerary.TraceWalks | app.py:1166-1218 | the found route is a non-empty walk ending at an end candidate, which starts at a start candidate unless the cap cut it |
| Itinerary.Emit | app.py:1221-1274 | the emitted steps begin with the start step |
| Itinerary.EmitShape | app.py:1223-1274 | no step after the first is a start step, none is an end step, and every enter step is followed by an exit step |
| Itinerary.RouteShape | app.py:1221-1283 | a route begins with start and ends with end; every enter step is on the floor of the step before it and is followed by an exit step |
| Itinerary.EmitLastFloor | app.py:1240-1274 | the last emitted step is on the floor of the last item |
| Itinerary.TransfersChangeFloor | app.py:1251-1274 | along a walk, every enter step and the exit step after it are on different floors |
| Itinerary.ReconstructPath | app.py:1166-1283 | `reconstruct_path` returns the route of the reversed trace |
| Itinerary.CollectBackward | app.py:1169-1215 | the backward loop collects exactly the trace, capped at 100 |
| Itinerary.BackwardUnfold | app.py:1179-1215 | one step of the backward loop is the item for the state, then the walk from its predecessor |
| Itinerary.EmitSteps | app.py:1221-1283 | the forward loop emits the route |
| Itinerary.FollowsStep | app.py:1066-1120 | every step of a walk is a step the search takes, with the predecessor it would record |
| Itinerary.PrefixBound | app.py:1026-1120 | with no negative cost, after the search every node along a walk from a start candidate costs at most the start's distance plus the walk so far |
| Itinerary.JourneyBound | app.py:1050-1060 | every journey from a start candidate to an end candidate bounds the goal's best cost by the journey's cost |
| Itinerary.BackwardShort | app.py:1177-1215 | walking back from an expanded node takes at most its visit rank plus one states |
| Itinerary.BackwardCost | app.py:1177-1215 | when the walk back reaches a start candidate, the node's best cost is the start's distance plus the cost of the walk forwards |
| Itinerary.ChainJourney | app.py:1166-1218 | the walk back from the goal's end node, when it reaches a start candidate, is a journey that costs the goal's best cost |
| Itinerary.BackwardJourney | app.py:1218 | a backward walk from an end candidate's node to a start candidate's node, reversed, is a journey between them |
| Itinerary.JourneysBound | app.py:1026-1120 | with no negative cost, every journey bounds the goal's best cost by its cost |
| Itinerary.FoundJourney | app.py:1166-1218 | a found goal's predecessor chain is a journey costing the goal's best cost, and so is the traced route when the cap did not cut it |
| Itinerary.SearchOptimal | app.py:1008-1124 | with no negative cost, the goal is found exactly when some journey exists; the best cost is the cheapest journey's cost; the traced route, when under 100 states, is a journey of that cost |
| Itinerary.FindShortestPathMultiFloor | app.py:985-1126 | no nodes near the start exactly when the start floor is empty; no nodes near the end exactly when only the end floor is empty; otherwise a route on a valid walk ending at an end candidate, or NoRoute; the start and end candidates are `get_nodes_near_point`'s lists (`NearCandidates`); with no negative edge weight, a route is returned exactly when some journey between these candidates exists, the search's cost is the cheapest journey's, the walk under the cap is a journey of that cost, and popped costs ascend |
| Itinerary.NetReady | app.py:993-1005 | the candidates near both points, which agree on each node's distance, and the group index make an input the search accepts |
| Itinerary.Found | app.py:1122-1124 | a found walk's route keeps the promises of a route search |
| Itinerary.FindPath | app.py:936-959 | a missing start or end point is refused before anything changes; otherwise every floor's weights are recalculated, the search settles states in order of cost, the candidates are `get_nodes_near_point`'s lists for both points, a route is returned exactly when some journey between them exists, and it is a cheapest one |
| Itinerary.SettledWeightsNonNegative | app.py:961-979 | after recalculation no edge weight is negative |

## Left out

- User interface: tkinter drawing, menus, previews, `redraw`,
  `update_status`, `update_info`, `show_path_details` and the
  `messagebox` calls. Where a core method shows an error box and returns
  `None`, the model returns a `Failure` value.
- Dialogs become parameters. The `askfloat` answer of `auto_connect` is an
  `Option<real>`, where `None` is a cancelled dialog. The yes/no
  confirmation of `remove_path_nodes` is not modelled: the model is the
  "yes" branch.
- `math.sqrt` is the abstract `dist` constrained by `IsEuclidean`.
  Floating-point rounding is not modelled: coordinates and costs are
  exact reals.
- File I/O: `save_graph`, `load_graph`, `merge_graphs` and the document
  migration defaults are not part of this model. `to_dict` and
  `from_dict` are modelled on already-parsed documents.
- `merge_parallel_edges` and `are_edges_parallel` are not part of this
  model. They are never called, and they depend on `acos`.
- The rest of `canvas_drag`, hit-testing and room or device placement are
  not modelled. Only the crossing block is: a device enters the router
  only through its connection point, group id and type.
- `uuid` group ids are opaque strings.
- `recalculate_all_edge_weights` counts updated edges in `updated_count`.
  Nothing reads the count, so the model does not keep it.
- LevelGraph.Graph.MergeWith: requires every edge of the other graph to
  join two of its nodes. `from_dict` can build a graph with a dangling
  edge; `merge_with` then copies every node and raises `KeyError` at the
  first such edge (app.py:120-123), leaving the graph partly merged. That
  error path and the partial state are not modelled.
- Maintenance.Reroutes: follows the corrected merge of the second
  "Findings" row. It skips a self-loop at `remove`, where the code as
  written (app.py:3437-3451, modelled by `Maintenance.ReroutesAsWritten`)
  queues an edge from `keep` to `remove`.
- Maintenance.CollectReroutes: collects the corrected requests of
  `Maintenance.Reroutes`, so on a floor with a self-loop at `remove` it
  does not queue the edge to `remove` that app.py:3437-3451 queues.
- Maintenance.RerouteEdges: adds the corrected requests, so a self-loop at
  `remove` is dropped. The code as written adds an edge from `keep` to
  `remove` (`Maintenance.SelfLoopLeavesDanglingEdge`).
- Maintenance.MergeTwoNodes: is the corrected merge. On a floor with a
  self-loop at `remove` it leaves no edge at `remove`, while app.py:3420-3474
  leaves one pointing at the deleted node
  (`Maintenance.SelfLoopLeavesDanglingEdge`). The `ValueError` that
  `add_edge` raises for an edge from `remove` to a missing node
  (app.py:61-62, 3459-3460) is modelled as a failure. The partial floor
  it leaves is `Maintenance.AbortedMerge`.
- Maintenance.AutoMergeNearbyNodes: a merge that raises ends the
  operation with the error, as the exception does. After such a failure
  the contract states only that the dict is well-formed and holds only
  old ids. Earlier merges and the aborted one are not described further.
- Router.PopMin: the heap layout is not modelled. The queue is a sequence
  scanned for its first entry in queue order. Equal-cost entries are
  ordered by state, with the goal after every node.
- Router.Search: the `if not current_node: continue` skips (app.py:1047,
  1062) are not modelled. Every queued state is an existing node, so
  they never fire.
- Router.Search: that `cost_so_far` only decreases is part of the loop
  invariant (`Router.Extends`), not of the contract. The contract states
  what that invariant leads to.
- Router.Search: popped costs are proved to ascend, and the route to be a
  cheapest one, only when no cost is negative, which is the condition
  Dijkstra's algorithm needs. `Itinerary.FindPath` discharges that
  condition, because it recalculates weights first.
- Itinerary.ReconstructPath: the branches for a 4-tuple or a bare
  predecessor (app.py:1193-1198, 1211-1215) are not modelled, because
  the predecessor datatype rules them out. So are the `("END", -1)`
  checks (app.py:1237, 1255): no item is ever the goal.
- Itinerary.ReconstructPath: indexing a floor that is missing (a
  `KeyError` in the source) is excluded by a precondition that every
  search result meets.
- Itinerary.FindShortestPathMultiFloor: the 100-state cap of the backward
  walk is modelled. The route is promised to begin at a start candidate,
  and to be a journey of the cheapest cost, only when the walk has fewer
  than 100 items. A cheapest journey exists whenever a route is returned.

## Findings

| source | as written | input that shows it | evidently intended | confidence | as-written member | corrected member |
|---|---|---|---|---|---|---|
| app.py:1060 | the goal is pushed as `(cost, "END", -1)` next to node entries `(cost, floor, node)` whose floor is an int | the goal pushed with the same cost as a queued node entry: `heapq` compares `"END"` with an int and raises TypeError | equal-cost entries ordered consistently, e.g. the goal after node states | medium, not executed | Router.GoalTieRaises | Router.EntryOrderTotal |
| app.py:3437-3474 | a self-loop at `remove_node` makes `other_id` equal `remove_node.id`, so `(keep, remove)` is queued and added before `del nodes[remove]` | floor {1, 2} with the edge (2, 2), merging 2 into 1: the edge (1, 2) is left pointing at the deleted node 2 | a self-loop at the removed node is dropped, like the edge to `keep` | medium, not executed | Maintenance.SelfLoopLeavesDanglingEdge | Maintenance.MergeFloorValid |
