/**
 * Turning a finished search into a route, and the two entry points of
 * navigation: `reconstruct_path`, `find_shortest_path_multi_floor` and
 * `find_path`.
 *
 * The predecessor map is walked back from the goal, at most 100 states,
 * into a list of items (a node reached along an edge, or a node reached
 * through a lift or stairs); the list is reversed and expanded into steps:
 * the start point, one step per node, an enter and an exit step per
 * transfer, and the end point.
 */
module Itinerary {
  import opened Wrappers
  import opened Geometry
  import opened LevelGraph
  import opened Navigation
  import opened Router

  /** The cap on the backward walk: at most this many states are collected. */
  const TraceLimit: nat := 100

  /** One collected state: a node and the edge it was reached by, or a node reached by a transfer. */
  datatype Item =
    | NodeItem(place: Place, edge: Option<Edge>)
    | TransferItem(place: Place, enter: Device, exit: Device)

  /** One entry of the displayed route; every entry carries the floor it is shown on. */
  datatype Step =
    | StartStep(floor: int, point: NavPoint)
    | NodeStep(floor: int, node: Node, edge: Option<Edge>)
    | EnterStep(floor: int, device: Device)
    | ExitStep(floor: int, device: Device)
    | EndStep(floor: int, point: NavPoint)

  // ---------------------------------------------------------------------
  // The backward walk
  // ---------------------------------------------------------------------

  /**
   * The items collected walking back from q with fuel states left: q with
   * the edge or transfer that reached it, then its predecessor's items. A
   * start, or a state without a predecessor, ends the walk. A goal
   * predecessor recorded for a node cannot arise (Router.Descending) and
   * also ends it.
   */
  function Backward(came: map<State, Pred>, q: Place, fuel: nat): (r: seq<Item>)
    ensures |r| <= fuel
    ensures fuel > 0 ==> r != [] && r[0].place == q
    decreases fuel
  {
    if fuel == 0 then []
    else if At(q) !in came then [NodeItem(q, None)]
    else
      var pr := came[At(q)];
      [Collected(q, pr)] + (if pr.ViaEdge? || pr.ViaTransfer? then Backward(came, pr.prev, fuel - 1) else [])
  }

  /** The item for node q reached as pr says: along the edge, through the devices, or from nowhere. */
  function Collected(q: Place, pr: Pred): Item
  {
    match pr
    case ViaEdge(_, e) => NodeItem(q, Some(e))
    case ViaTransfer(_, en, ex) => TransferItem(q, en, ex)
    case _ => NodeItem(q, None)
  }

  /**
   * The walk from the state the search found: for the goal, from the node
   * it was reached from (nothing when it has none); for a node, from it.
   */
  function Trace(came: map<State, Pred>, goal: State): seq<Item>
  {
    if goal.Goal? then
      if Goal in came && came[Goal].Reached? then Backward(came, came[Goal].prev, TraceLimit) else []
    else Backward(came, goal.place, TraceLimit)
  }

  /** `list.reverse()`. */
  function Reversed(s: seq<Item>): (r: seq<Item>)
    ensures |r| == |s| && forall i :: 0 <= i < |s| ==> r[i] == s[|s| - 1 - i]
  {
    if s == [] then [] else Reversed(s[1..]) + [s[0]]
  }

  // ---------------------------------------------------------------------
  // Walks
  // ---------------------------------------------------------------------

  /** Item it is reached from node a: along an edge it names, or through the transfer it names. */
  ghost predicate Follows(levels: map<int, Level>, a: Place, it: Item, dist: (Point, Point) -> real)
  {
    match it
    case NodeItem(q, e) => e.Some? && EdgeStep(levels, a, e.value, q)
    case TransferItem(q, en, ex) => TransferStep(levels, a, en, ex, q, dist)
  }

  /** Every item is an existing node, each reached from the one before. */
  ghost predicate Walk(levels: map<int, Level>, items: seq<Item>, dist: (Point, Point) -> real)
  {
    (forall i :: 0 <= i < |items| ==>
       items[i].place.floor in levels && items[i].place.node in levels[items[i].place.floor].nodes)
    && forall i :: 1 <= i < |items| ==> Follows(levels, items[i - 1].place, items[i], dist)
  }

  /** Every visited node of a sound frontier exists and has a predecessor. */
  lemma VisitedExists(net: Net, fr: Frontier, rank: map<Place, nat>, q: Place, dist: (Point, Point) -> real)
    requires Sound(net, fr, dist) && (forall p :: p in rank ==> At(p) in fr.visited) && q in rank
    ensures Exists(net, q) && At(q) in fr.came
  {
    assert At(q) in Universe(net);
    var f, k :| f in net.levels && k in net.levels[f].nodes && At(q) == At(Place(f, k));
  }

  /**
   * Walking back from an expanded node q of a finished search: the items
   * are existing nodes, each reached from the next one along an edge or a
   * transfer; and when the walk stops before its fuel runs out it stops
   * at a start candidate.
   */
  lemma {:induction false} BackwardWalks(net: Net, came: map<State, Pred>, rank: map<Place, nat>, q: Place, fuel: nat,
                                         dist: (Point, Point) -> real)
    requires ChainOk(net, came, rank, dist) && q in rank
    ensures var b := Backward(came, q, fuel);
      (forall i :: 0 <= i < |b| ==> Exists(net, b[i].place))
      && (forall i :: 0 <= i < |b| - 1 ==> Follows(net.levels, b[i + 1].place, b[i], dist))
      && (0 < |b| < fuel ==> b[|b| - 1] == NodeItem(b[|b| - 1].place, None) && IsStart(net, b[|b| - 1].place))
    decreases fuel
  {
    if fuel > 0 {
      var pr := came[At(q)];
      if pr.ViaEdge? || pr.ViaTransfer? {
        BackwardWalks(net, came, rank, pr.prev, fuel - 1, dist);
        var b := Backward(came, q, fuel);
        var rest := Backward(came, pr.prev, fuel - 1);
        assert b == [Collected(q, pr)] + rest;
        forall i | 0 <= i < |b| - 1
          ensures Follows(net.levels, b[i + 1].place, b[i], dist)
        {
          if i > 0 {
            assert b[i + 1] == rest[i] && b[i] == rest[i - 1];
          }
        }
      }
    }
  }

  /**
   * One step back from every expanded node q: it exists and has a
   * predecessor; a start is a start candidate; an edge or a transfer comes
   * from an expanded node and is a step of a walk; it is never the goal's.
   */
  ghost predicate ChainOk(net: Net, came: map<State, Pred>, rank: map<Place, nat>, dist: (Point, Point) -> real)
  {
    forall q {:trigger came[At(q)]} {:trigger At(q) in came} :: q in rank ==>
      Exists(net, q) && At(q) in came && !came[At(q)].Reached?
      && (came[At(q)] == Origin ==> IsStart(net, q))
      && (came[At(q)].ViaEdge? || came[At(q)].ViaTransfer? ==>
            came[At(q)].prev in rank && Follows(net.levels, came[At(q)].prev, Collected(q, came[At(q)]), dist))
  }

  /** A finished search's predecessor map steps back soundly from every expanded node. */
  lemma SearchChains(net: Net, fr: Frontier, rank: map<Place, nat>, dist: (Point, Point) -> real)
    requires Sound(net, fr, dist) && Descending(fr.came, rank) && (forall p :: p in rank ==> At(p) in fr.visited)
    ensures ChainOk(net, fr.came, rank, dist)
  {
    forall q | q in rank
      ensures Exists(net, q) && At(q) in fr.came && !fr.came[At(q)].Reached?
      ensures fr.came[At(q)] == Origin ==> IsStart(net, q)
      ensures fr.came[At(q)].ViaEdge? || fr.came[At(q)].ViaTransfer? ==>
        fr.came[At(q)].prev in rank && Follows(net.levels, fr.came[At(q)].prev, Collected(q, fr.came[At(q)]), dist)
    {
      VisitedExists(net, fr, rank, q, dist);
      assert PredOk(net, At(q), fr.came[At(q)], dist);
    }
  }

  /** Reversing a walk collected backwards gives a walk forwards. */
  lemma ReversedWalk(levels: map<int, Level>, b: seq<Item>, dist: (Point, Point) -> real)
    requires forall i :: 0 <= i < |b| ==> b[i].place.floor in levels && b[i].place.node in levels[b[i].place.floor].nodes
    requires forall i :: 0 <= i < |b| - 1 ==> Follows(levels, b[i + 1].place, b[i], dist)
    ensures Walk(levels, Reversed(b), dist)
  {
    ReversedNodes(levels, b);
    ReversedSteps(levels, b, dist);
  }

  /** The items of a reversed sequence are the items of the sequence. */
  lemma ReversedNodes(levels: map<int, Level>, b: seq<Item>)
    requires forall i :: 0 <= i < |b| ==> b[i].place.floor in levels && b[i].place.node in levels[b[i].place.floor].nodes
    ensures var f := Reversed(b);
      forall i :: 0 <= i < |f| ==> f[i].place.floor in levels && f[i].place.node in levels[f[i].place.floor].nodes
  {
    var f := Reversed(b);
    forall i | 0 <= i < |f|
      ensures f[i].place.floor in levels && f[i].place.node in levels[f[i].place.floor].nodes
    {
      ReversedAt(b, i);
    }
  }

  /** Read backwards, each item of a backward walk is reached from the one before it. */
  lemma ReversedSteps(levels: map<int, Level>, b: seq<Item>, dist: (Point, Point) -> real)
    requires forall i :: 0 <= i < |b| - 1 ==> Follows(levels, b[i + 1].place, b[i], dist)
    ensures var f := Reversed(b);
      forall i :: 1 <= i < |f| ==> Follows(levels, f[i - 1].place, f[i], dist)
  {
    var f := Reversed(b);
    forall i | 1 <= i < |f|
      ensures Follows(levels, f[i - 1].place, f[i], dist)
    {
      var k := |b| - 1 - i;
      ReversedAt(b, i);
      ReversedAt(b, i - 1);
      assert Follows(levels, b[k + 1].place, b[k], dist);
    }
  }

  /** Item i of a reversed sequence is item |s| - 1 - i of s. */
  lemma ReversedAt(s: seq<Item>, i: nat)
    requires i < |s|
    ensures Reversed(s)[i] == s[|s| - 1 - i]
  {
  }

  /**
   * The route of a search that found the goal: a non-empty walk of
   * existing nodes ending at an end candidate; when it is shorter than the
   * cap it begins at a start candidate, with no edge or transfer before it.
   */
  lemma TraceWalks(net: Net, came: map<State, Pred>, rank: map<Place, nat>, dist: (Point, Point) -> real)
    requires ChainOk(net, came, rank, dist)
    requires Goal in came && came[Goal].Reached? && IsEnd(net, came[Goal].prev) && came[Goal].prev in rank
    ensures OnFloors(net.levels, Trace(came, Goal))
    ensures var w := Reversed(Trace(came, Goal));
      w != [] && Walk(net.levels, w, dist) && IsEnd(net, w[|w| - 1].place)
      && (|w| < TraceLimit ==> w[0] == NodeItem(w[0].place, None) && IsStart(net, w[0].place))
  {
    var q := came[Goal].prev;
    var b := Backward(came, q, TraceLimit);
    BackwardWalks(net, came, rank, q, TraceLimit, dist);
    ReversedWalk(net.levels, b, dist);
  }

  // ---------------------------------------------------------------------
  // Journeys and their costs
  // ---------------------------------------------------------------------

  /** The predecessor the search records when item it is reached from node a. */
  function ItemPred(a: Place, it: Item): Pred
  {
    match it
    case NodeItem(_, e) => if e.Some? then ViaEdge(a, e.value) else Origin
    case TransferItem(_, en, ex) => ViaTransfer(a, en, ex)
  }

  /** What walking the items costs: the sum of the steps' costs, as the search prices each step. */
  function WalkCost(net: Net, w: seq<Item>, dist: (Point, Point) -> real): real
    decreases |w|
  {
    if |w| <= 1 then 0.0
    else WalkCost(net, w[..|w| - 1], dist) + StepCost(net, w[|w| - 1].place, ItemPred(w[|w| - 2].place, w[|w| - 1]), dist)
  }

  /** A walk from start candidate i to end candidate j. */
  ghost predicate Journey(net: Net, w: seq<Item>, i: int, j: int, dist: (Point, Point) -> real)
  {
    0 <= i < |net.starts| && 0 <= j < |net.ends| && w != [] && Walk(net.levels, w, dist)
    && w[0].place == StartPlace(net, i) && EndAt(net, w[|w| - 1].place, j)
  }

  /** A journey's cost: the distance to its start node, its walk, and the distance from its end node. */
  function JourneyCost(net: Net, w: seq<Item>, i: int, j: int, dist: (Point, Point) -> real): real
    requires 0 <= i < |net.starts| && 0 <= j < |net.ends|
  {
    net.starts[i].dist + WalkCost(net, w, dist) + net.ends[j].dist
  }

  /** Some journey leads from a start candidate to an end candidate. */
  ghost predicate Reachable(net: Net, dist: (Point, Point) -> real)
  {
    exists w, i, j :: Journey(net, w, i, j, dist)
  }

  /** cost is what some journey costs, and no journey costs less. */
  ghost predicate Cheapest(net: Net, cost: real, dist: (Point, Point) -> real)
  {
    (exists w, i, j :: Journey(net, w, i, j, dist) && JourneyCost(net, w, i, j, dist) == cost)
    && forall w, i, j :: Journey(net, w, i, j, dist) ==> cost <= JourneyCost(net, w, i, j, dist)
  }

  /** The walk is a journey that costs exactly cost. */
  ghost predicate JourneyAt(net: Net, w: seq<Item>, cost: real, dist: (Point, Point) -> real)
  {
    exists i, j :: Journey(net, w, i, j, dist) && JourneyCost(net, w, i, j, dist) == cost
  }

  /** A step of a walk is a step the search takes, recorded by its item's predecessor. */
  lemma FollowsStep(net: Net, a: Place, it: Item, dist: (Point, Point) -> real)
    requires Follows(net.levels, a, it, dist)
    ensures Router.Step(net, a, it.place, ItemPred(a, it), dist)
  {
  }

  /**
   * Along a walk from start candidate i, once the search is finished with
   * no negative cost, the k-th node's best cost is at most the start's
   * distance plus the cost of walking to it.
   */
  lemma {:induction false} PrefixBound(net: Net, fr: Frontier, w: seq<Item>, i: nat, k: nat,
                                       dist: (Point, Point) -> real)
    requires i < |net.starts| && 1 <= k <= |w| && Walk(net.levels, w, dist) && w[0].place == StartPlace(net, i)
    requires StartsBound(net, fr) && Closed(net, fr, dist) && forall st :: st in fr.best ==> st in fr.visited
    ensures Bound(fr, At(w[k - 1].place), net.starts[i].dist + WalkCost(net, w[..k], dist))
    decreases k
  {
    if k == 1 {
      assert Bound(fr, At(StartPlace(net, i)), net.starts[i].dist);
    } else {
      PrefixBound(net, fr, w, i, k - 1, dist);
      var a := w[k - 2].place;
      var it := w[k - 1];
      assert Follows(net.levels, a, it, dist);
      FollowsStep(net, a, it, dist);
      assert At(a) in fr.visited;
      assert Bound(fr, At(it.place), fr.best[At(a)] + StepCost(net, it.place, ItemPred(a, it), dist));
      assert w[..k][..k - 1] == w[..k - 1];
    }
  }

  /** Every journey bounds the goal's best cost: the search finds the goal at most that cheaply. */
  lemma JourneyBound(net: Net, fr: Frontier, w: seq<Item>, i: int, j: int, dist: (Point, Point) -> real)
    requires Journey(net, w, i, j, dist)
    requires StartsBound(net, fr) && Closed(net, fr, dist) && forall st :: st in fr.best ==> st in fr.visited
    ensures Bound(fr, Goal, JourneyCost(net, w, i, j, dist))
  {
    PrefixBound(net, fr, w, i, |w|, dist);
    assert w[..|w|] == w;
    var q := w[|w| - 1].place;
    assert At(q) in fr.visited;
    assert EndAt(net, q, j);
  }

  /** Predecessor chains descending in rank are at most one longer than the rank they start from. */
  lemma {:induction false} BackwardShort(came: map<State, Pred>, rank: map<Place, nat>, q: Place, fuel: nat)
    requires Descending(came, rank) && q in rank
    ensures |Backward(came, q, fuel)| <= rank[q] + 1
    decreases fuel
  {
    if fuel > 0 && At(q) in came {
      var pr := came[At(q)];
      if pr.ViaEdge? || pr.ViaTransfer? {
        assert PrevOf(pr) in rank && rank[PrevOf(pr)] < rank[q];
        BackwardShort(came, rank, pr.prev, fuel - 1);
      }
    }
  }

  /**
   * Walking back from an expanded node to a start candidate i: the node's
   * best cost is the start's distance plus the cost of the walk forwards.
   */
  lemma {:induction false} BackwardCost(net: Net, fr: Frontier, rank: map<Place, nat>, q: Place, fuel: nat,
                                        dist: (Point, Point) -> real)
    returns (i: nat)
    requires ChainOk(net, fr.came, rank, dist) && Priced(net, fr, dist) && q in rank
    ensures var b := Backward(fr.came, q, fuel);
      |b| < fuel ==> i < |net.starts| && Reversed(b)[0].place == StartPlace(net, i) && At(q) in fr.best
                     && fr.best[At(q)] == net.starts[i].dist + WalkCost(net, Reversed(b), dist)
    decreases fuel
  {
    i := 0;
    if fuel == 0 {
      return;
    }
    var pr := fr.came[At(q)];
    assert PricedAt(net, fr, At(q), dist);
    var b := Backward(fr.came, q, fuel);
    if pr == Origin {
      i :| 0 <= i < |net.starts| && q == StartPlace(net, i) && fr.best[At(q)] == net.starts[i].dist;
      assert b == [NodeItem(q, None)];
      assert Reversed(b) == b;
    } else if pr.ViaEdge? || pr.ViaTransfer? {
      var rest := Backward(fr.came, pr.prev, fuel - 1);
      i := BackwardCost(net, fr, rank, pr.prev, fuel - 1, dist);
      assert b == [Collected(q, pr)] + rest;
      if |b| < fuel {
        assert b[1..] == rest;
        var rb := Reversed(b);
        var rr := Reversed(rest);
        assert rb == rr + [Collected(q, pr)];
        assert rb[..|rb| - 1] == rr;
        assert rb[|rb| - 2] == rest[0];
        assert ItemPred(pr.prev, Collected(q, pr)) == pr;
        assert rb[0] == rr[0];
      }
    }
  }

  /**
   * The walk back from the end node the goal was reached from, when it
   * reaches a start candidate within fuel, is a journey that costs the
   * goal's best cost.
   */
  lemma ChainJourney(net: Net, fr: Frontier, rank: map<Place, nat>, fuel: nat, dist: (Point, Point) -> real)
    requires ChainOk(net, fr.came, rank, dist) && Priced(net, fr, dist)
    requires Goal in fr.came && fr.came[Goal].Reached? && fr.came[Goal].prev in rank
    ensures Goal in fr.best
    ensures var b := Backward(fr.came, fr.came[Goal].prev, fuel);
      |b| < fuel ==> JourneyAt(net, Reversed(b), fr.best[Goal], dist)
  {
    var q := fr.came[Goal].prev;
    assert PricedAt(net, fr, Goal, dist);
    var j :| EndAt(net, q, j) && fr.best[Goal] == fr.best[At(q)] + net.ends[j].dist;
    var b := Backward(fr.came, q, fuel);
    var i := BackwardCost(net, fr, rank, q, fuel, dist);
    if |b| < fuel {
      BackwardWalks(net, fr.came, rank, q, fuel, dist);
      BackwardJourney(net, b, q, i, j, dist);
      assert JourneyCost(net, Reversed(b), i, j, dist) == fr.best[Goal];
    }
  }

  /** A backward walk from an end candidate's node to a start candidate's node, reversed, is a journey. */
  lemma BackwardJourney(net: Net, b: seq<Item>, q: Place, i: int, j: int, dist: (Point, Point) -> real)
    requires b != [] && b[0].place == q && EndAt(net, q, j) && 0 <= i < |net.starts|
    requires forall k :: 0 <= k < |b| ==> Exists(net, b[k].place)
    requires forall k :: 0 <= k < |b| - 1 ==> Follows(net.levels, b[k + 1].place, b[k], dist)
    requires Reversed(b)[0].place == StartPlace(net, i)
    ensures Journey(net, Reversed(b), i, j, dist)
  {
    ReversedWalk(net.levels, b, dist);
    var w := Reversed(b);
    assert w[|w| - 1] == b[0];
  }

  /** With no negative cost, a finished search bounds the goal's best cost by every journey's cost. */
  lemma JourneysBound(net: Net, fr: Frontier, dist: (Point, Point) -> real)
    requires StartsBound(net, fr) && Closed(net, fr, dist) && forall st :: st in fr.best ==> st in fr.visited
    ensures forall w, i, j {:trigger Journey(net, w, i, j, dist)} ::
      Journey(net, w, i, j, dist) ==> Bound(fr, Goal, JourneyCost(net, w, i, j, dist))
  {
    forall w, i, j | Journey(net, w, i, j, dist)
      ensures Bound(fr, Goal, JourneyCost(net, w, i, j, dist))
    {
      JourneyBound(net, fr, w, i, j, dist);
    }
  }

  /**
   * A found goal's predecessor chain is a journey that costs the goal's
   * best cost; so is the traced route when the cap did not cut it.
   */
  lemma FoundJourney(net: Net, fr: Frontier, rank: map<Place, nat>, dist: (Point, Point) -> real)
    returns (w: seq<Item>, i: int, j: int)
    requires Sound(net, fr, dist) && Descending(fr.came, rank) && forall p :: p in rank ==> At(p) in fr.visited
    requires Goal in fr.came && fr.came[Goal].Reached? && fr.came[Goal].prev in rank && Priced(net, fr, dist)
    ensures Goal in fr.best && Journey(net, w, i, j, dist) && JourneyCost(net, w, i, j, dist) == fr.best[Goal]
    ensures |Reversed(Trace(fr.came, Goal))| < TraceLimit ==> JourneyAt(net, Reversed(Trace(fr.came, Goal)), fr.best[Goal], dist)
  {
    SearchChains(net, fr, rank, dist);
    var q := fr.came[Goal].prev;
    BackwardShort(fr.came, rank, q, rank[q] + 2);
    ChainJourney(net, fr, rank, rank[q] + 2, dist);
    ChainJourney(net, fr, rank, TraceLimit, dist);
    w := Reversed(Backward(fr.came, q, rank[q] + 2));
    i, j :| Journey(net, w, i, j, dist) && JourneyCost(net, w, i, j, dist) == fr.best[Goal];
  }

  /**
   * With no negative cost, a finished search finds the goal exactly when
   * some journey exists; its best cost is the cheapest journey's; and the
   * traced route, unless the cap cut it, is a journey of that cost.
   */
  lemma SearchOptimal(net: Net, fr: Frontier, found: bool, bestCost: Option<real>, rank: map<Place, nat>,
                      dist: (Point, Point) -> real)
    requires Sound(net, fr, dist) && Descending(fr.came, rank) && forall p :: p in rank ==> At(p) in fr.visited
    requires found <==> Goal in fr.visited
    requires found ==> fr.came[Goal].Reached? && IsEnd(net, fr.came[Goal].prev) && fr.came[Goal].prev in rank
    requires bestCost.Some? <==> found
    requires found ==> Goal in fr.best && bestCost.value == fr.best[Goal]
    requires forall st :: st in fr.best ==> st in fr.visited
    requires Priced(net, fr, dist) && StartsBound(net, fr) && Closed(net, fr, dist)
    ensures found <==> Reachable(net, dist)
    ensures found ==> Cheapest(net, bestCost.value, dist)
    ensures found && |Reversed(Trace(fr.came, Goal))| < TraceLimit ==>
      JourneyAt(net, Reversed(Trace(fr.came, Goal)), bestCost.value, dist)
  {
    JourneysBound(net, fr, dist);
    if Reachable(net, dist) {
      var w, i, j :| Journey(net, w, i, j, dist);
      assert Goal in fr.best;
    }
    if found {
      var w, i, j := FoundJourney(net, fr, rank, dist);
      assert Journey(net, w, i, j, dist) && JourneyCost(net, w, i, j, dist) == bestCost.value;
    }
  }

  // ---------------------------------------------------------------------
  // Steps
  // ---------------------------------------------------------------------

  /** Every item lies on a known floor: the source indexes the floors by it. */
  predicate OnFloors(levels: map<int, Level>, items: seq<Item>)
  {
    forall i :: 0 <= i < |items| ==> items[i].place.floor in levels
  }

  /**
   * The steps for the first n items after the start step: a node step per
   * node item whose node exists; per transfer an enter step on the floor
   * of the step before it and an exit step on the item's floor.
   */
  function Emit(levels: map<int, Level>, items: seq<Item>, start: NavPoint, n: nat): (r: seq<Step>)
    requires n <= |items| && OnFloors(levels, items)
    ensures r != [] && r[0] == StartStep(start.floor, start)
  {
    if n == 0 then [StartStep(start.floor, start)]
    else
      var p := Emit(levels, items, start, n - 1);
      match items[n - 1]
      case NodeItem(q, e) =>
        if q.node in levels[q.floor].nodes then p + [NodeStep(q.floor, levels[q.floor].nodes[q.node], e)] else p
      case TransferItem(q, en, ex) => p + [EnterStep(p[|p| - 1].floor, en), ExitStep(q.floor, ex)]
  }

  /** The whole route: the emitted steps and the end step. */
  function Route(levels: map<int, Level>, items: seq<Item>, start: NavPoint, end: NavPoint): seq<Step>
    requires OnFloors(levels, items)
  {
    Emit(levels, items, start, |items|) + [EndStep(end.floor, end)]
  }

  /** Enter steps come right before exit steps and on the floor of the step before them. */
  ghost predicate Paired(r: seq<Step>)
  {
    (forall i :: 0 <= i < |r| && r[i].EnterStep? ==> 0 < i && i + 1 < |r| && r[i + 1].ExitStep? && r[i].floor == r[i - 1].floor)
    && (forall i :: 0 <= i < |r| && r[i].ExitStep? ==> 0 < i && r[i - 1].EnterStep?)
  }

  /** The emitted steps: one start step, first; no end step; transfers paired. */
  lemma {:induction false} EmitShape(levels: map<int, Level>, items: seq<Item>, start: NavPoint, n: nat)
    requires n <= |items| && OnFloors(levels, items)
    ensures var r := Emit(levels, items, start, n);
      (forall i :: 0 < i < |r| ==> !r[i].StartStep?) && (forall i :: 0 <= i < |r| ==> !r[i].EndStep?)
      && Paired(r)
  {
    if n > 0 {
      EmitShape(levels, items, start, n - 1);
    }
  }

  /**
   * A route begins with the start step and ends with the end step, has
   * neither in between, and every lift or stairs transfer is an enter step
   * on the floor of the step before it followed by an exit step.
   */
  lemma RouteShape(levels: map<int, Level>, items: seq<Item>, start: NavPoint, end: NavPoint)
    requires OnFloors(levels, items)
    ensures var r := Route(levels, items, start, end);
      |r| >= 2 && r[0] == StartStep(start.floor, start) && r[|r| - 1] == EndStep(end.floor, end)
      && (forall i :: 0 < i < |r| - 1 ==> !r[i].StartStep? && !r[i].EndStep?)
      && Paired(r)
  {
    EmitShape(levels, items, start, |items|);
  }

  /**
   * Along a walk of existing nodes, the last emitted step is on the floor
   * of the last item: a node step or an exit step there.
   */
  lemma EmitLastFloor(levels: map<int, Level>, items: seq<Item>, start: NavPoint, n: nat, dist: (Point, Point) -> real)
    requires 0 < n <= |items| && OnFloors(levels, items) && Walk(levels, items, dist)
    ensures var r := Emit(levels, items, start, n); r[|r| - 1].floor == items[n - 1].place.floor
  {
  }

  /**
   * Along a walk that begins at a node, every transfer changes floor: an
   * enter step and the exit step after it are on different floors.
   */
  lemma {:induction false} TransfersChangeFloor(levels: map<int, Level>, items: seq<Item>, start: NavPoint, n: nat,
                                                dist: (Point, Point) -> real)
    requires n <= |items| && OnFloors(levels, items) && Walk(levels, items, dist)
    requires items != [] ==> items[0].NodeItem?
    ensures var r := Emit(levels, items, start, n);
      forall i :: 0 <= i < |r| - 1 && r[i].EnterStep? ==> r[i].floor != r[i + 1].floor
  {
    if n > 0 {
      TransfersChangeFloor(levels, items, start, n - 1, dist);
      EmitShape(levels, items, start, n - 1);
      var p := Emit(levels, items, start, n - 1);
      var r := Emit(levels, items, start, n);
      if items[n - 1].TransferItem? {
        EmitLastFloor(levels, items, start, n - 1, dist);
        assert Follows(levels, items[n - 2].place, items[n - 1], dist);
      }
      forall i | 0 <= i < |r| - 1 && r[i].EnterStep?
        ensures r[i].floor != r[i + 1].floor
      {
        if i < |p| - 1 {
          assert r[i] == p[i] && r[i + 1] == p[i + 1];
        }
      }
    }
  }

  // ---------------------------------------------------------------------
  // reconstruct_path
  // ---------------------------------------------------------------------

  /**
   * `reconstruct_path`: walks the predecessor map back from the found
   * state, at most 100 states, reverses the items and expands them into
   * the route from the start point to the end point.
   */
  method ReconstructPath(levels: map<int, Level>, came: map<State, Pred>, goal: State, start: NavPoint, end: NavPoint)
    returns (path: seq<Step>)
    requires OnFloors(levels, Trace(came, goal))
    ensures OnFloors(levels, Reversed(Trace(came, goal)))
    ensures path == Route(levels, Reversed(Trace(came, goal)), start, end)
  {
    var items := CollectBackward(came, goal);
    items := Reversed(items);
    path := EmitSteps(levels, items, start, end);
  }

  /** The backward loop of `reconstruct_path`: the items from the found state back, at most 100. */
  method CollectBackward(came: map<State, Pred>, goal: State) returns (items: seq<Item>)
    ensures items == Trace(came, goal)
  {
    items := [];
    var current: Option<Place> := None;
    if goal.Goal? {
      if Goal in came && came[Goal].Reached? {
        current := Some(came[Goal].prev);
      }
    } else {
      current := Some(goal.place);
    }
    var iteration := 0;
    while current.Some? && iteration < TraceLimit
      invariant 0 <= iteration <= TraceLimit
      invariant current.Some? ==> items + Backward(came, current.value, TraceLimit - iteration) == Trace(came, goal)
      invariant current.None? ==> items == Trace(came, goal)
      decreases TraceLimit - iteration
    {
      iteration := iteration + 1;
      var q := current.value;
      ghost var before := items;
      BackwardUnfold(came, q, TraceLimit - (iteration - 1));
      items := items + [NodeItem(q, None)];
      assert items[..|items| - 1] == before;
      var value := if At(q) in came then came[At(q)] else Origin;
      match value {
        case Origin =>
          current := None;
          assert items == Trace(came, goal);
        case ViaTransfer(prev, en, ex) =>
          items := items[..|items| - 1] + [TransferItem(q, en, ex)];
          current := Some(prev);
          AppendAssoc(before, TransferItem(q, en, ex), Backward(came, prev, TraceLimit - iteration));
          assert items + Backward(came, prev, TraceLimit - iteration) == Trace(came, goal);
        case ViaEdge(prev, e) =>
          items := items[..|items| - 1] + [NodeItem(q, Some(e))];
          current := Some(prev);
          AppendAssoc(before, NodeItem(q, Some(e)), Backward(came, prev, TraceLimit - iteration));
          assert items + Backward(came, prev, TraceLimit - iteration) == Trace(came, goal);
        case Reached(_) =>
          current := None;
          assert items == Trace(came, goal);
      }
    }
    if current.Some? {
      assert Backward(came, current.value, 0) == [];
      assert items + [] == items;
    }
  }

  lemma AppendAssoc(a: seq<Item>, x: Item, b: seq<Item>)
    ensures (a + [x]) + b == a + ([x] + b)
  {
  }

  /** One step of the backward walk: the item for q, then the walk from its predecessor. */
  lemma BackwardUnfold(came: map<State, Pred>, q: Place, fuel: nat)
    requires fuel > 0
    ensures var pr := if At(q) in came then came[At(q)] else Origin;
      Backward(came, q, fuel)
      == [Collected(q, pr)] + (if pr.ViaEdge? || pr.ViaTransfer? then Backward(came, pr.prev, fuel - 1) else [])
  {
  }

  /** The forward loop of `reconstruct_path`: the start step, the steps of each item, the end step. */
  method EmitSteps(levels: map<int, Level>, items: seq<Item>, start: NavPoint, end: NavPoint) returns (path: seq<Step>)
    requires OnFloors(levels, items)
    ensures path == Route(levels, items, start, end)
  {
    path := [StartStep(start.floor, start)];
    var i := 0;
    while i < |items|
      invariant 0 <= i <= |items|
      invariant path == Emit(levels, items, start, i)
    {
      match items[i] {
        case NodeItem(q, e) =>
          var v := levels[q.floor];
          if q.node in v.nodes {
            path := path + [NodeStep(q.floor, v.nodes[q.node], e)];
          }
        case TransferItem(q, en, ex) =>
          if |path| > 0 {
            path := path + [EnterStep(path[|path| - 1].floor, en)];
          }
          path := path + [ExitStep(q.floor, ex)];
      }
      i := i + 1;
    }
    path := path + [EndStep(end.floor, end)];
  }

  // ---------------------------------------------------------------------
  // find_shortest_path_multi_floor and find_path
  // ---------------------------------------------------------------------

  /** Why no route is returned. */
  datatype RouteError = NoStartPoint | NoEndPoint | NoNodesNearStart | NoNodesNearEnd | NoRoute

  /**
   * What a route search promises: no nodes near the start exactly when
   * the start floor has none, no nodes near the end exactly when the start
   * floor has some and the end floor none; a route is the steps of a walk
   * of existing nodes, each reached along an edge or a lift or stairs of
   * one group, ending on the end floor and, when shorter than the cap,
   * beginning at a node on the start floor.
   */
  ghost predicate RouteOk(levels: map<int, Level>, start: NavPoint, end: NavPoint, r: Result<seq<Step>, RouteError>,
                          walk: seq<Item>, dist: (Point, Point) -> real)
    requires start.floor in levels && end.floor in levels
  {
    (r == Failure(NoNodesNearStart) <==> levels[start.floor].order == [])
    && (r == Failure(NoNodesNearEnd) <==> levels[start.floor].order != [] && levels[end.floor].order == [])
    && (r.Failure? ==> r.error == NoNodesNearStart || r.error == NoNodesNearEnd || r.error == NoRoute)
    && (r.Success? ==>
          walk != [] && Walk(levels, walk, dist) && OnFloors(levels, walk)
          && r.value == Route(levels, walk, start, end)
          && walk[|walk| - 1].place.floor == end.floor
          && (|walk| < TraceLimit ==> walk[0] == NodeItem(walk[0].place, None) && walk[0].place.floor == start.floor))
  }

  /** A walk of existing nodes lies on known floors. */
  lemma WalkOnFloors(levels: map<int, Level>, walk: seq<Item>, dist: (Point, Point) -> real)
    requires Walk(levels, walk, dist)
    ensures OnFloors(levels, walk)
  {
  }

  /**
   * What a shortest route promises: a route exactly when some journey
   * exists; cost is then the cheapest journey's, and the walk, unless the
   * cap cut it, is a journey of that cost.
   */
  ghost predicate Shortest(net: Net, r: Result<seq<Step>, RouteError>, walk: seq<Item>, cost: real,
                           dist: (Point, Point) -> real)
  {
    (r.Success? <==> Reachable(net, dist))
    && (r.Success? ==> Cheapest(net, cost, dist) && (|walk| < TraceLimit ==> JourneyAt(net, walk, cost, dist)))
  }

  /**
   * `find_shortest_path_multi_floor`: the candidates near both points, the
   * group index, the search, and the route when the goal was found. When
   * no edge weight is negative, the search settled states in order of
   * cost, and the route is a cheapest journey between the candidates.
   */
  method FindShortestPathMultiFloor(levels: map<int, Level>, floorOrder: seq<int>, start: NavPoint, end: NavPoint,
                                    dist: (Point, Point) -> real)
    returns (r: Result<seq<Step>, RouteError>, ghost walk: seq<Item>, ghost settled: seq<real>, ghost net: Net,
             ghost cost: real)
    requires LevelsShaped(levels) && Storeys(levels, floorOrder) && IsEuclidean(dist)
    requires start.floor in levels && end.floor in levels
    ensures RouteOk(levels, start, end, r, walk, dist)
    ensures net == Net(levels, floorOrder, Connections(levels, floorOrder, |floorOrder|),
                       start.floor, net.starts, end.floor, net.ends)
    ensures NearCandidates(levels[start.floor], Anchor(start), net.starts, dist)
    ensures NearCandidates(levels[end.floor], Anchor(end), net.ends, dist)
    ensures EdgeWeightsNonNegative(levels) ==> Ascending(settled) && Shortest(net, r, walk, cost, dist)
  {
    walk, settled, cost := [], [], 0.0;
    var starts := NodesNearPoint(levels[start.floor], Anchor(start), dist);
    var ends := NodesNearPoint(levels[end.floor], Anchor(end), dist);
    net := Net(levels, floorOrder, Connections(levels, floorOrder, |floorOrder|), start.floor, starts, end.floor, ends);
    if starts == [] {
      r := Failure(NoNodesNearStart);
      return;
    }
    if ends == [] {
      r := Failure(NoNodesNearEnd);
      return;
    }
    var conn := BuildElevatorConnections(levels, floorOrder);
    var n := Net(levels, floorOrder, conn, start.floor, starts, end.floor, ends);
    NetReady(n, Anchor(start), Anchor(end), dist);
    var fr, found, bestCost;
    ghost var rank;
    fr, found, bestCost, rank, settled := Search(n, dist);
    if CostsNonNegative(n) {
      SearchOptimal(n, fr, found, bestCost, rank, dist);
    }
    if !found {
      r := Failure(NoRoute);
      return;
    }
    cost := bestCost.value;
    SearchChains(n, fr, rank, dist);
    TraceWalks(n, fr.came, rank, dist);
    walk := Reversed(Trace(fr.came, Goal));
    WalkOnFloors(levels, walk, dist);
    var path := ReconstructPath(levels, fr.came, Goal, start, end);
    r := Success(path);
    Found(n, walk, start, end, path, dist);
  }

  /** The candidates found near both points and the group index make a net the search accepts. */
  lemma NetReady(net: Net, a: Point, b: Point, dist: (Point, Point) -> real)
    requires LevelsShaped(net.levels) && Storeys(net.levels, net.floorOrder) && IsEuclidean(dist)
    requires Indexed(net.conn, net.levels, net.floorOrder) && net.startFloor in net.levels && net.endFloor in net.levels
    requires NearCandidates(net.levels[net.startFloor], a, net.starts, dist)
    requires NearCandidates(net.levels[net.endFloor], b, net.ends, dist)
    ensures NetOk(net)
    ensures EdgeWeightsNonNegative(net.levels) ==> CostsNonNegative(net)
  {
    assert forall i :: 0 <= i < |net.starts| ==> net.starts[i] in net.starts;
    assert forall i :: 0 <= i < |net.ends| ==> net.ends[i] in net.ends;
  }

  /** A found walk's route keeps the promises of a route search. */
  lemma Found(net: Net, walk: seq<Item>, start: NavPoint, end: NavPoint, path: seq<Step>, dist: (Point, Point) -> real)
    requires net.startFloor == start.floor && net.endFloor == end.floor
    requires start.floor in net.levels && end.floor in net.levels
    requires net.levels[start.floor].order != [] && net.levels[end.floor].order != []
    requires walk != [] && Walk(net.levels, walk, dist) && IsEnd(net, walk[|walk| - 1].place)
    requires |walk| < TraceLimit ==> walk[0] == NodeItem(walk[0].place, None) && IsStart(net, walk[0].place)
    requires OnFloors(net.levels, walk) && path == Route(net.levels, walk, start, end)
    ensures RouteOk(net.levels, start, end, Success(path), walk, dist)
  {
  }

  /** The floors as the search sees them: each graph's nodes, order and edges with the floor's devices. */
  function Snapshot(graphs: map<int, Graph>, devices: map<int, seq<Device>>): map<int, Level>
    reads set f | f in graphs :: graphs[f]
  {
    map f | f in graphs :: Level(graphs[f].nodes, graphs[f].order, graphs[f].edges, if f in devices then devices[f] else [])
  }

  /**
   * `find_path`: refuses a missing start or end point; otherwise
   * recalculates every floor's edge weights and searches the recalculated
   * floors. The search then settles states in order of cost, and the
   * route is a cheapest journey between the candidates near both points.
   */
  method FindPath(graphs: map<int, Graph>, devices: map<int, seq<Device>>, floorOrder: seq<int>,
                  start: Option<NavPoint>, end: Option<NavPoint>, dist: (Point, Point) -> real)
    returns (r: Result<seq<Step>, RouteError>, ghost walk: seq<Item>, ghost settled: seq<real>, ghost net: Net,
             ghost cost: real)
    requires Distinct(floorOrder) && (forall f :: f in graphs <==> f in floorOrder)
    requires forall f, h :: f in graphs && h in graphs && f != h ==> graphs[f] != graphs[h]
    requires forall f :: f in graphs ==> graphs[f].WellFormed()
    requires IsEuclidean(dist)
    requires start.Some? ==> start.value.floor in graphs
    requires end.Some? ==> end.value.floor in graphs
    modifies set f | f in graphs :: graphs[f]
    ensures start.None? ==> r == Failure(NoStartPoint)
    ensures start.Some? && end.None? ==> r == Failure(NoEndPoint)
    ensures start.None? || end.None? ==> forall f :: f in graphs ==> graphs[f].edges == old(graphs[f].edges)
    ensures forall f :: f in graphs ==> graphs[f].nodes == old(graphs[f].nodes) && graphs[f].order == old(graphs[f].order)
    ensures start.Some? && end.Some? ==>
      (forall f :: f in graphs ==> graphs[f].edges == Reweighed(old(graphs[f].edges), old(graphs[f].nodes), dist))
      && RouteOk(Snapshot(graphs, devices), start.value, end.value, r, walk, dist) && Ascending(settled)
      && net.levels == Snapshot(graphs, devices) && net.floorOrder == floorOrder
      && net.startFloor == start.value.floor && net.endFloor == end.value.floor
      && LevelShaped(net.levels[start.value.floor]) && LevelShaped(net.levels[end.value.floor])
      && NearCandidates(net.levels[start.value.floor], Anchor(start.value), net.starts, dist)
      && NearCandidates(net.levels[end.value.floor], Anchor(end.value), net.ends, dist)
      && Shortest(net, r, walk, cost, dist)
  {
    walk, settled, cost := [], [], 0.0;
    net := Net(map[], [], map[], 0, [], 0, []);
    if start.None? {
      return Failure(NoStartPoint), walk, settled, net, cost;
    }
    if end.None? {
      return Failure(NoEndPoint), walk, settled, net, cost;
    }
    RecalculateAllEdgeWeights(graphs, floorOrder, dist);
    var levels := Snapshot(graphs, devices);
    forall f | f in levels
      ensures LevelShaped(levels[f]) && WeightsSettled(levels[f].nodes, levels[f].edges, dist)
    {
      ReweighedSettles(old(graphs[f].edges), old(graphs[f].nodes), dist);
    }
    SettledWeightsNonNegative(levels, dist);
    r, walk, settled, net, cost := FindShortestPathMultiFloor(levels, floorOrder, start.value, end.value, dist);
  }

  /** After recalculation no edge weight is negative: each is a distance. */
  lemma SettledWeightsNonNegative(levels: map<int, Level>, dist: (Point, Point) -> real)
    requires IsEuclidean(dist)
    requires forall f :: f in levels ==> WeightsSettled(levels[f].nodes, levels[f].edges, dist)
    ensures EdgeWeightsNonNegative(levels)
  {
    forall f, e | f in levels && e in levels[f].edges && e.n1 in levels[f].nodes && e.n2 in levels[f].nodes
                  && e.weight.Some?
      ensures e.weight.value >= 0.0
    {
      assert WeightsSettled(levels[f].nodes, levels[f].edges, dist);
    }
  }
}
