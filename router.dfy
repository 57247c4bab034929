// The multi-floor shortest-path search of the navigation workspace:
// Dijkstra over (floor, node) states seeded from several start candidates,
// with elevator and stair transfers between floors and a synthetic goal
// state entered from the end candidates.

module Router {
  import opened Wrappers
  import opened Geometry
  import opened LevelGraph
  import opened GraphDoc
  import opened Navigation

  /** A node on a floor. */
  datatype Place = Place(floor: int, node: int)

  /** A search state: a node on a floor, or the goal beyond the end candidates. */
  datatype State = At(place: Place) | Goal

  /** A queue entry: the cost it was pushed with and its state. */
  datatype Entry = Entry(cost: real, state: State)

  /**
   * How a state was last reached: as a start candidate, along an edge, by
   * a transfer between floors (entry and exit devices), or, for the goal,
   * from an end candidate.
   */
  datatype Pred = Origin | ViaEdge(prev: Place, edge: Edge) | ViaTransfer(prev: Place, enter: Device, exit: Device)
                | Reached(prev: Place)

  /** The search's working data: queue, visited states, best known costs, predecessors. */
  datatype Frontier = Frontier(queue: seq<Entry>, visited: set<State>, best: map<State, real>, came: map<State, Pred>)

  /** What the search reads: the floors, the group index and both candidate lists. */
  datatype Net = Net(levels: map<int, Level>, floorOrder: seq<int>, conn: map<string, GroupIndex>,
                     startFloor: int, starts: seq<Near>, endFloor: int, ends: seq<Near>)

  /** Surcharge for a transfer by lift. */
  const LiftCost: real := 50.0
  /** Surcharge for a transfer by stairs. */
  const StairsCost: real := 80.0

  function TransferCost(d: Device): real
  {
    if d.kind == Lift then LiftCost else StairsCost
  }

  // ---------------------------------------------------------------------
  // Queue order
  // ---------------------------------------------------------------------

  /**
   * Equal-cost entries ordered by floor, then node; the goal after every
   * node state. Entries of equal cost and state are equal.
   */
  predicate StateBefore(a: State, b: State)
  {
    match a
    case Goal => false
    case At(p) =>
      match b
      case Goal => true
      case At(q) => p.floor < q.floor || (p.floor == q.floor && p.node < q.node)
  }

  /** The order in which the queue hands out entries: by cost, ties by state. */
  predicate EntryBefore(a: Entry, b: Entry)
  {
    a.cost < b.cost || (a.cost == b.cost && StateBefore(a.state, b.state))
  }

  /** The queue order is a strict total order: any two distinct entries compare, one way only. */
  lemma EntryOrderTotal(a: Entry, b: Entry, c: Entry)
    ensures a != b ==> EntryBefore(a, b) || EntryBefore(b, a)
    ensures !(EntryBefore(a, b) && EntryBefore(b, a))
    ensures EntryBefore(a, b) && EntryBefore(b, c) ==> EntryBefore(a, c)
  {
  }

  /** A value as Python compares it inside a heap entry tuple. */
  datatype PyValue = PyNum(r: real) | PyStr(s: string)

  /** Python's `<` on two strings: lexicographic by character. */
  predicate StrLess(a: string, b: string)
  {
    if a == [] then b != []
    else if b == [] then false
    else if a[0] != b[0] then a[0] < b[0]
    else StrLess(a[1..], b[1..])
  }

  /** Python's `<` on two tuple items; None where Python raises TypeError. */
  function PyItemLess(a: PyValue, b: PyValue): Option<bool>
  {
    match (a, b)
    case (PyNum(x), PyNum(y)) => Some(x < y)
    case (PyStr(x), PyStr(y)) => Some(StrLess(x, y))
    case _ => None
  }

  /** Python's `<` on two tuples: decided by the first differing items, else by length. */
  function PyTupleLess(a: seq<PyValue>, b: seq<PyValue>): Option<bool>
  {
    if a == [] || b == [] then Some(|a| < |b|)
    else if a[0] != b[0] then PyItemLess(a[0], b[0])
    else PyTupleLess(a[1..], b[1..])
  }

  /** The tuple the source pushes: (cost, floor, node), or (cost, "END", -1) for the goal. */
  function PyEntry(e: Entry): seq<PyValue>
  {
    match e.state
    case Goal => [PyNum(e.cost), PyStr("END"), PyNum(-1 as real)]
    case At(p) => [PyNum(e.cost), PyNum(p.floor as real), PyNum(p.node as real)]
  }

  /** Between node states, the source's tuple comparison is the queue order. */
  lemma PyOrderAgreesOnNodes(a: Entry, b: Entry)
    requires a.state.At? && b.state.At?
    ensures PyTupleLess(PyEntry(a), PyEntry(b)) == Some(EntryBefore(a, b))
  {
    var x, y := PyEntry(a), PyEntry(b);
    if x[0] == y[0] {
      assert x[1..][0] == x[1] && y[1..][0] == y[1];
      if x[1] == y[1] {
        assert x[1..][1..][0] == x[2] && y[1..][1..][0] == y[2];
        if x[2] == y[2] {
          assert x[1..][1..][1..] == [] && y[1..][1..][1..] == [];
          assert PyTupleLess(x[1..][1..], y[1..][1..]) == PyTupleLess(x[1..][1..][1..], y[1..][1..][1..]);
        }
        assert PyTupleLess(x[1..], y[1..]) == PyTupleLess(x[1..][1..], y[1..][1..]);
      }
    }
  }

  /**
   * The goal entry and a node entry of the same cost do not compare in the
   * source: the second items are a string and a number, and Python raises
   * TypeError. `heappush` of the goal onto a queue whose only entry is a
   * node state of equal cost makes exactly this comparison.
   */
  lemma GoalTieRaises(c: real, p: Place)
    ensures PyTupleLess(PyEntry(Entry(c, Goal)), PyEntry(Entry(c, At(p)))) == None
    ensures PyTupleLess(PyEntry(Entry(c, At(p))), PyEntry(Entry(c, Goal))) == None
  {
    var x, y := PyEntry(Entry(c, Goal)), PyEntry(Entry(c, At(p)));
    assert x[1..][0] == PyStr("END") && y[1..][0] == PyNum(p.floor as real);
    assert PyTupleLess(x, y) == PyTupleLess(x[1..], y[1..]);
    assert PyTupleLess(y, x) == PyTupleLess(y[1..], x[1..]);
  }

  /**
   * `heappop`: removes and returns the first entry in queue order. The
   * queue is a sequence scanned for its minimum; the heap layout is not
   * modelled.
   */
  method PopMin(q: seq<Entry>) returns (e: Entry, rest: seq<Entry>, m: nat)
    requires q != []
    ensures m < |q| && e == q[m] && rest == q[..m] + q[m + 1..]
    ensures forall x :: x in q ==> !EntryBefore(x, e)
  {
    m := 0;
    var i := 1;
    while i < |q|
      invariant 0 <= m < i <= |q|
      invariant forall k :: 0 <= k < i ==> !EntryBefore(q[k], q[m])
    {
      if EntryBefore(q[i], q[m]) {
        forall k | 0 <= k < i ensures !EntryBefore(q[k], q[i]) {
          EntryOrderTotal(q[k], q[m], q[i]);
          EntryOrderTotal(q[k], q[i], q[m]);
        }
        m := i;
      }
      i := i + 1;
    }
    e := q[m];
    rest := q[..m] + q[m + 1..];
  }

  // ---------------------------------------------------------------------
  // Relaxation
  // ---------------------------------------------------------------------

  /** The other end of an edge seen from id, as the search reads it: n2, else n1, else nothing. */
  function NextNode(e: Edge, id: int): Option<int>
  {
    if e.n1 == id then Some(e.n2) else if e.n2 == id then Some(e.n1) else None
  }

  /** The cost of walking an edge: its weight when truthy, else the endpoint distance. */
  function EdgeCost(e: Edge, a: Node, b: Node, dist: (Point, Point) -> real): real
  {
    if e.weight.Some? && e.weight.value != 0.0 then e.weight.value else dist(a.pos, b.pos)
  }

  /**
   * Offers state st at cost c with predecessor p: taken only when st is not
   * visited and c beats its best known cost; then the cost and predecessor
   * are recorded and the entry is pushed.
   */
  function Relax(fr: Frontier, st: State, c: real, p: Pred): (r: Frontier)
    ensures r.visited == fr.visited
    ensures st in fr.visited ==> r == fr
    ensures st !in fr.visited && st in fr.best && fr.best[st] <= c ==> r == fr
    ensures st !in fr.visited && (st !in fr.best || c < fr.best[st]) ==>
      r.queue == fr.queue + [Entry(c, st)] && r.best == fr.best[st := c] && r.came == fr.came[st := p]
  {
    if st !in fr.visited && (st !in fr.best || c < fr.best[st]) then
      Frontier(fr.queue + [Entry(c, st)], fr.visited, fr.best[st := c], fr.came[st := p])
    else fr
  }

  // ---------------------------------------------------------------------
  // Steps and their costs
  // ---------------------------------------------------------------------

  /** The nodes of the floors, plus the goal: every state the search can push. */
  function Universe(net: Net): set<State>
  {
    {Goal} + set f, k | f in net.levels && k in net.levels[f].nodes :: At(Place(f, k))
  }

  /** A node state of an existing node. */
  predicate Exists(net: Net, p: Place)
  {
    p.floor in net.levels && p.node in net.levels[p.floor].nodes
  }

  /** The node of start candidate i on the start floor. */
  function StartPlace(net: Net, i: nat): Place
    requires i < |net.starts|
  {
    Place(net.startFloor, net.starts[i].id)
  }

  /** p is the node of a start candidate on the start floor. */
  predicate IsStart(net: Net, p: Place)
  {
    p.floor == net.startFloor && exists i :: 0 <= i < |net.starts| && net.starts[i].id == p.node
  }

  /** p is the node of end candidate j on the end floor. */
  predicate EndAt(net: Net, p: Place, j: int)
  {
    0 <= j < |net.ends| && p == Place(net.endFloor, net.ends[j].id)
  }

  /** p is the node of an end candidate on the end floor. */
  predicate IsEnd(net: Net, p: Place)
  {
    p.floor == net.endFloor && exists i :: 0 <= i < |net.ends| && net.ends[i].id == p.node
  }

  /**
   * What a recorded predecessor of st promises: a start is a start
   * candidate; an edge step stays on the floor along an edge of it to a
   * non-zero node id; a transfer leaves from a grouped device within reach
   * of the previous node, to a device of the same group on another floor
   * within reach of the new node; the goal is entered only from an end
   * candidate.
   */
  ghost predicate PredOk(net: Net, st: State, p: Pred, dist: (Point, Point) -> real)
  {
    match p
    case Origin => st.At? && IsStart(net, st.place)
    case ViaEdge(q, e) => st.At? && EdgeStep(net.levels, q, e, st.place)
    case ViaTransfer(q, en, ex) => st.At? && TransferStep(net.levels, q, en, ex, st.place, dist)
    case Reached(q) => st.Goal? && IsEnd(net, q)
  }

  /**
   * From node q to node t along edge e: both exist on the same floor, e is
   * an edge of it, t is its other end and has a non-zero id.
   */
  predicate EdgeStep(levels: map<int, Level>, q: Place, e: Edge, t: Place)
  {
    q.floor == t.floor && q.floor in levels && q.node in levels[q.floor].nodes && t.node in levels[q.floor].nodes
    && e in levels[q.floor].edges && NextNode(e, q.node) == Some(t.node) && t.node != 0
  }

  /**
   * From node q to node t through devices en and ex: both nodes exist on
   * different floors, en is a grouped device of q's floor within reach of
   * q, ex a device of the same group on t's floor within reach of t.
   */
  predicate TransferStep(levels: map<int, Level>, q: Place, en: Device, ex: Device, t: Place,
                         dist: (Point, Point) -> real)
  {
    q.floor in levels && q.node in levels[q.floor].nodes && t.floor in levels && t.node in levels[t.floor].nodes
    && q.floor != t.floor
    && en in levels[q.floor].devices && Grouped(en)
    && ex in levels[t.floor].devices && ex.group == en.group
    && dist(levels[q.floor].nodes[q.node].pos, en.anchor) < NearRadius
    && dist(levels[t.floor].nodes[t.node].pos, ex.anchor) < NearRadius
  }

  function PrevOf(p: Pred): Place
    requires p != Origin
  {
    p.prev
  }

  /** pr records a step from node q to node t: along an edge or by a transfer, keeping its promise. */
  ghost predicate Step(net: Net, q: Place, t: Place, pr: Pred, dist: (Point, Point) -> real)
  {
    (pr.ViaEdge? || pr.ViaTransfer?) && pr.prev == q && PredOk(net, At(t), pr, dist)
  }

  /**
   * What the step into node t recorded by pr costs: the edge's cost, or the
   * distance to the entry device, the lift or stairs surcharge and the
   * distance from the exit device.
   */
  function StepCost(net: Net, t: Place, pr: Pred, dist: (Point, Point) -> real): real
  {
    if !((pr.ViaEdge? || pr.ViaTransfer?) && Exists(net, pr.prev) && Exists(net, t)) then 0.0
    else
      var a := net.levels[pr.prev.floor].nodes[pr.prev.node];
      var b := net.levels[t.floor].nodes[t.node];
      match pr
      case ViaEdge(_, e) => EdgeCost(e, a, b, dist)
      case ViaTransfer(_, en, ex) => dist(a.pos, en.anchor) + TransferCost(en) + dist(b.pos, ex.anchor)
      case _ => 0.0
  }

  /** Edge weights between existing nodes and end-candidate distances are not negative. */
  ghost predicate CostsNonNegative(net: Net)
  {
    EdgeWeightsNonNegative(net.levels) && forall i :: 0 <= i < |net.ends| ==> net.ends[i].dist >= 0.0
  }

  /** No edge between existing nodes has a negative weight. */
  ghost predicate EdgeWeightsNonNegative(levels: map<int, Level>)
  {
    forall f, e {:trigger e in levels[f].edges} ::
      (f in levels && e in levels[f].edges && e.n1 in levels[f].nodes && e.n2 in levels[f].nodes
       && e.weight.Some?) ==> e.weight.value >= 0.0
  }

  /** With no negative weight, no step costs anything negative. */
  lemma StepCostNonNegative(net: Net, q: Place, t: Place, pr: Pred, dist: (Point, Point) -> real)
    requires CostsNonNegative(net) && IsEuclidean(dist) && Step(net, q, t, pr, dist)
    ensures StepCost(net, t, pr, dist) >= 0.0
  {
    if pr.ViaEdge? {
      var e := pr.edge;
      assert EdgeStep(net.levels, q, e, t);
      assert e.n1 in net.levels[q.floor].nodes && e.n2 in net.levels[q.floor].nodes;
    }
  }

  // ---------------------------------------------------------------------
  // Search invariants
  // ---------------------------------------------------------------------

  /** Every queued state exists, has a cost and a predecessor. */
  ghost predicate QueueOk(net: Net, fr: Frontier)
  {
    forall e {:trigger e in fr.queue} :: e in fr.queue ==> e.state in Universe(net) && e.state in fr.best && e.state in fr.came
  }

  /** Every visited state exists and has a predecessor. */
  ghost predicate VisitedOk(net: Net, fr: Frontier)
  {
    fr.visited <= Universe(net) && forall st {:trigger st in fr.visited} :: st in fr.visited ==> st in fr.came
  }

  /** Every recorded predecessor keeps its promise. */
  ghost predicate CameOk(net: Net, fr: Frontier, dist: (Point, Point) -> real)
  {
    forall st :: st in fr.came ==> PredOk(net, st, fr.came[st], dist)
  }

  ghost predicate Sound(net: Net, fr: Frontier, dist: (Point, Point) -> real)
  {
    QueueOk(net, fr) && VisitedOk(net, fr) && CameOk(net, fr, dist)
  }

  /**
   * The queue holds what the best costs say: every visited state has a
   * cost, every state reached but not visited is queued at its best cost,
   * and no queued entry of an unvisited state is below its best cost.
   */
  ghost predicate Queued(fr: Frontier)
  {
    (forall st {:trigger QueuedAt(fr, st)} :: QueuedAt(fr, st))
    && (forall x {:trigger EntryOk(fr, x)} :: EntryOk(fr, x))
  }

  /** A visited st has a cost; one with a cost but not visited is queued at it. */
  ghost predicate QueuedAt(fr: Frontier, st: State)
  {
    (st in fr.visited ==> st in fr.best)
    && (st in fr.best && st !in fr.visited ==> Entry(fr.best[st], st) in fr.queue)
  }

  /** A queued entry x of an unvisited state costs no less than the state's best cost. */
  ghost predicate EntryOk(fr: Frontier, x: Entry)
  {
    x in fr.queue && x.state !in fr.visited ==> x.state in fr.best && fr.best[x.state] <= x.cost
  }

  /**
   * Cost c of st recorded with predecessor p, whose own cost is prev: a
   * start costs the distance of one of its start candidates; a step adds
   * its cost to the predecessor's; the goal adds the distance of one of
   * the end candidates at its predecessor.
   */
  ghost predicate PricedBy(net: Net, st: State, p: Pred, c: real, prev: real, dist: (Point, Point) -> real)
  {
    match p
    case Origin => st.At? && exists i :: 0 <= i < |net.starts| && st.place == StartPlace(net, i) && c == net.starts[i].dist
    case Reached(q) => exists j :: EndAt(net, q, j) && c == prev + net.ends[j].dist
    case _ => st.At? && c == prev + StepCost(net, st.place, p, dist)
  }

  /** Every best cost is what its recorded predecessor's best cost and the step make. */
  ghost predicate Priced(net: Net, fr: Frontier, dist: (Point, Point) -> real)
  {
    forall st {:trigger PricedAt(net, fr, st, dist)} :: PricedAt(net, fr, st, dist)
  }

  /** The best cost of a recorded st is what its predecessor's best cost and the step make. */
  ghost predicate PricedAt(net: Net, fr: Frontier, st: State, dist: (Point, Point) -> real)
  {
    st in fr.came ==>
      st in fr.best && (fr.came[st] != Origin ==> At(PrevOf(fr.came[st])) in fr.best)
      && PricedBy(net, st, fr.came[st], fr.best[st],
                  if fr.came[st] == Origin then 0.0 else fr.best[At(PrevOf(fr.came[st]))], dist)
  }

  /** st has a best cost of at most x. */
  ghost predicate Bound(fr: Frontier, st: State, x: real)
  {
    st in fr.best && fr.best[st] <= x
  }

  /** st is visited already, or has a best cost of at most x. */
  ghost predicate Covered(fr: Frontier, st: State, x: real)
  {
    st in fr.visited || Bound(fr, st, x)
  }

  /** Every start candidate has a best cost of at most its distance. */
  ghost predicate StartsBound(net: Net, fr: Frontier)
  {
    forall i :: 0 <= i < |net.starts| ==> Bound(fr, At(StartPlace(net, i)), net.starts[i].dist)
  }

  /**
   * The nodes in vis are closed under steps: every step from one of them,
   * and the goal from one that is an end candidate, has a best cost of at
   * most the node's best cost plus the step's cost.
   */
  ghost predicate ClosedOn(net: Net, fr: Frontier, vis: set<State>, dist: (Point, Point) -> real)
  {
    (forall q, t, pr {:trigger Step(net, q, t, pr, dist)} :: At(q) in vis && Step(net, q, t, pr, dist) ==>
       At(q) in fr.best && Bound(fr, At(t), fr.best[At(q)] + StepCost(net, t, pr, dist)))
    && (forall q, j {:trigger EndAt(net, q, j)} :: At(q) in vis && EndAt(net, q, j) ==>
          At(q) in fr.best && Bound(fr, Goal, fr.best[At(q)] + net.ends[j].dist))
  }

  /** The visited nodes are closed under steps. */
  ghost predicate Closed(net: Net, fr: Frontier, dist: (Point, Point) -> real)
  {
    ClosedOn(net, fr, fr.visited, dist)
  }

  /**
   * The visit ranks: the visited node states, numbered in the order they
   * were expanded, all below tick; every predecessor was expanded, and
   * before the state itself when that was expanded too.
   */
  ghost predicate Ranked(fr: Frontier, rank: map<Place, nat>, tick: nat)
  {
    (forall p {:trigger p in rank} {:trigger At(p) in fr.visited} :: p in rank <==> At(p) in fr.visited)
    && (forall p {:trigger p in rank} :: p in rank ==> rank[p] < tick)
    && (forall st :: st in fr.came && fr.came[st] != Origin ==> PrevOf(fr.came[st]) in rank)
    && (forall p {:trigger p in rank} :: At(p) in fr.came && fr.came[At(p)] != Origin && p in rank ==> rank[PrevOf(fr.came[At(p)])] < rank[p])
  }

  /** Predecessor chains descend in rank and never reach the goal: following them ends. */
  ghost predicate Descending(came: map<State, Pred>, rank: map<Place, nat>)
  {
    forall p :: At(p) in came && p in rank ==>
      !came[At(p)].Reached?
      && (came[At(p)] != Origin ==> PrevOf(came[At(p)]) in rank && rank[PrevOf(came[At(p)])] < rank[p])
  }

  /**
   * From a to b: the visited set is the same, queued entries stay and new
   * ones cost at least c when costs are non-negative, known costs only
   * decrease and those of visited states stay, and recorded states stay
   * recorded.
   */
  ghost predicate Extends(net: Net, a: Frontier, b: Frontier, c: real)
  {
    b.visited == a.visited && |a.queue| <= |b.queue| && b.queue[..|a.queue|] == a.queue
    && (CostsNonNegative(net) ==> forall i :: |a.queue| <= i < |b.queue| ==> b.queue[i].cost >= c)
    && (forall st {:trigger st in a.best} :: st in a.best ==> st in b.best && b.best[st] <= a.best[st])
    && (forall st {:trigger st in a.visited} :: st in a.best && st in a.visited ==> b.best[st] == a.best[st])
    && (forall st {:trigger st in a.came} :: st in a.came ==> st in b.came)
  }

  lemma ExtendsTrans(net: Net, a: Frontier, b: Frontier, d: Frontier, c: real)
    requires Extends(net, a, b, c) && Extends(net, b, d, c)
    ensures Extends(net, a, d, c)
  {
    assert d.queue[..|a.queue|] == d.queue[..|b.queue|][..|a.queue|];
  }

  lemma ExtendsRefl(net: Net, a: Frontier, c: real)
    ensures Extends(net, a, a, c)
  {
    assert a.queue[..|a.queue|] == a.queue;
  }

  /** What is covered or bounded stays so as the frontier extends. */
  lemma CoveredMono(net: Net, a: Frontier, b: Frontier, c: real)
    requires Extends(net, a, b, c)
    ensures forall st, x {:trigger Covered(b, st, x)} :: Covered(a, st, x) ==> Covered(b, st, x)
    ensures forall st, x {:trigger Bound(b, st, x)} :: Bound(a, st, x) ==> Bound(b, st, x)
  {
  }

  /** The step into t recorded by pr, from p at cost, is covered at cost plus the step's cost. */
  ghost predicate Offered(net: Net, fr: Frontier, p: Place, cost: real, t: Place, pr: Pred, dist: (Point, Point) -> real)
  {
    Covered(fr, At(t), cost + StepCost(net, t, pr, dist))
  }

  /** A covered step stays covered as the frontier extends. */
  lemma OfferedMono(net: Net, a: Frontier, b: Frontier, c: real)
    requires Extends(net, a, b, c)
    ensures forall p, cost, t, pr, dist {:trigger Offered(net, b, p, cost, t, pr, dist)} ::
      Offered(net, a, p, cost, t, pr, dist) ==> Offered(net, b, p, cost, t, pr, dist)
    ensures forall cost, j {:trigger GoalOffered(net, b, cost, j)} ::
      0 <= j < |net.ends| && GoalOffered(net, a, cost, j) ==> GoalOffered(net, b, cost, j)
  {
  }

  /** Closure of visited nodes survives an extension. */
  lemma ClosedMono(net: Net, a: Frontier, b: Frontier, c: real, vis: set<State>, dist: (Point, Point) -> real)
    requires Extends(net, a, b, c) && vis <= a.visited && ClosedOn(net, a, vis, dist)
    ensures ClosedOn(net, b, vis, dist)
  {
    CoveredMono(net, a, b, c);
  }

  /**
   * Where an expansion starts from: a sound frontier and the visited,
   * existing node p, whose best cost is cost.
   */
  ghost predicate Ready(net: Net, fr: Frontier, rank: map<Place, nat>, tick: nat, p: Place, cost: real,
                        dist: (Point, Point) -> real)
  {
    Sound(net, fr, dist) && Ranked(fr, rank, tick) && Queued(fr) && Priced(net, fr, dist)
    && p in rank && Exists(net, p) && At(p) in fr.best && fr.best[At(p)] == cost
  }

  /**
   * Offering an existing state with a promise-keeping predecessor from the
   * expanded node p, at the cost the step makes, keeps the frontier ready,
   * extends it, and leaves the state covered at that cost.
   */
  lemma RelaxKeeps(net: Net, fr: Frontier, rank: map<Place, nat>, tick: nat, p: Place, cost: real, st: State, c: real,
                   pr: Pred, dist: (Point, Point) -> real)
    requires Ready(net, fr, rank, tick, p, cost, dist)
    requires st in Universe(net) && pr != Origin && PrevOf(pr) == p && PredOk(net, st, pr, dist)
    requires PricedBy(net, st, pr, c, cost, dist)
    requires CostsNonNegative(net) ==> c >= cost
    ensures Ready(net, Relax(fr, st, c, pr), rank, tick, p, cost, dist)
    ensures Extends(net, fr, Relax(fr, st, c, pr), cost)
    ensures Covered(Relax(fr, st, c, pr), st, c)
  {
    if st !in fr.visited && (st !in fr.best || c < fr.best[st]) {
      RelaxSound(net, fr, st, c, pr, dist);
      RelaxRanked(fr, rank, tick, p, st, c, pr);
      RelaxExtends(net, fr, st, c, pr, cost);
      RelaxQueued(fr, st, c, pr);
      RelaxPriced(net, fr, rank, tick, p, cost, st, c, pr, dist);
    } else {
      ExtendsRefl(net, fr, cost);
    }
  }

  lemma RelaxSound(net: Net, fr: Frontier, st: State, c: real, pr: Pred, dist: (Point, Point) -> real)
    requires Sound(net, fr, dist) && st in Universe(net) && PredOk(net, st, pr, dist)
    requires st !in fr.visited && (st !in fr.best || c < fr.best[st])
    ensures Sound(net, Relax(fr, st, c, pr), dist)
  {
  }

  lemma RelaxRanked(fr: Frontier, rank: map<Place, nat>, tick: nat, p: Place, st: State, c: real, pr: Pred)
    requires Ranked(fr, rank, tick) && p in rank && pr != Origin && PrevOf(pr) == p
    requires st !in fr.visited && (st !in fr.best || c < fr.best[st])
    ensures Ranked(Relax(fr, st, c, pr), rank, tick)
  {
    var r := Relax(fr, st, c, pr);
    forall q | At(q) in r.came && r.came[At(q)] != Origin && q in rank
      ensures rank[PrevOf(r.came[At(q)])] < rank[q]
    {
      assert At(q) != st;
    }
  }

  lemma RelaxExtends(net: Net, fr: Frontier, st: State, c: real, pr: Pred, floor: real)
    requires st !in fr.visited && (st !in fr.best || c < fr.best[st])
    requires CostsNonNegative(net) ==> c >= floor
    ensures Extends(net, fr, Relax(fr, st, c, pr), floor)
  {
    var r := Relax(fr, st, c, pr);
    assert r.queue[..|fr.queue|] == fr.queue;
  }

  lemma RelaxQueued(fr: Frontier, st: State, c: real, pr: Pred)
    requires Queued(fr) && st !in fr.visited && (st !in fr.best || c < fr.best[st])
    ensures Queued(Relax(fr, st, c, pr))
  {
    var r := Relax(fr, st, c, pr);
    forall s
      ensures QueuedAt(r, s)
    {
      assert QueuedAt(fr, s);
    }
    forall x
      ensures EntryOk(r, x)
    {
      assert EntryOk(fr, x);
    }
  }

  lemma RelaxPriced(net: Net, fr: Frontier, rank: map<Place, nat>, tick: nat, p: Place, cost: real, st: State, c: real,
                    pr: Pred, dist: (Point, Point) -> real)
    requires Priced(net, fr, dist) && Ranked(fr, rank, tick) && p in rank && At(p) in fr.best && fr.best[At(p)] == cost
    requires pr != Origin && PrevOf(pr) == p && PricedBy(net, st, pr, c, cost, dist)
    requires st !in fr.visited && (st !in fr.best || c < fr.best[st])
    ensures Priced(net, Relax(fr, st, c, pr), dist)
  {
    var r := Relax(fr, st, c, pr);
    assert At(p) in fr.visited;
    forall s
      ensures PricedAt(net, r, s, dist)
    {
      if s in r.came && s != st {
        assert PricedAt(net, fr, s, dist);
        if fr.came[s] != Origin {
          assert PrevOf(fr.came[s]) in rank;
          assert At(PrevOf(fr.came[s])) in fr.visited;
        }
      }
    }
  }

  // ---------------------------------------------------------------------
  // The search
  // ---------------------------------------------------------------------

  /** Start candidates of the same node have the same distance, as candidates of one anchor do. */
  predicate StartsAgree(net: Net)
  {
    forall i, j :: 0 <= i < |net.starts| && 0 <= j < |net.starts| && net.starts[i].id == net.starts[j].id ==>
      net.starts[i].dist == net.starts[j].dist
  }

  /**
   * What the search may assume of its inputs: floors keyed and ordered,
   * the group index built from them, the start floor present, each start
   * candidate a node of it, and one distance per start node.
   */
  ghost predicate NetOk(net: Net)
  {
    LevelsShaped(net.levels) && Storeys(net.levels, net.floorOrder) && Indexed(net.conn, net.levels, net.floorOrder)
    && net.startFloor in net.levels
    && (forall i :: 0 <= i < |net.starts| ==> net.starts[i].id in net.levels[net.startFloor].nodes)
    && StartsAgree(net)
  }

  lemma InUniverse(net: Net, f: int, k: int)
    requires f in net.levels && k in net.levels[f].nodes
    ensures At(Place(f, k)) in Universe(net)
  {
  }

  /** The seeded frontier after the first n start candidates: pushed with their distances. */
  function Seeded(net: Net, n: nat): Frontier
    requires n <= |net.starts|
  {
    if n == 0 then Frontier([], {}, map[], map[])
    else
      var s := Seeded(net, n - 1);
      var st := At(Place(net.startFloor, net.starts[n - 1].id));
      Frontier(s.queue + [Entry(net.starts[n - 1].dist, st)], {}, s.best[st := net.starts[n - 1].dist], s.came[st := Origin])
  }

  /** The seeded frontier queues each start candidate with its distance, in order, and visits nothing. */
  lemma {:induction false} SeededQueue(net: Net, n: nat)
    requires n <= |net.starts|
    ensures Seeded(net, n).visited == {} && |Seeded(net, n).queue| == n
    ensures forall i :: 0 <= i < n ==> Seeded(net, n).queue[i] == Entry(net.starts[i].dist, At(StartPlace(net, i)))
  {
    if n > 0 {
      SeededQueue(net, n - 1);
      assert Seeded(net, n).queue == Seeded(net, n - 1).queue + [Entry(net.starts[n - 1].dist, At(StartPlace(net, n - 1)))];
    }
  }

  /** The seeded frontier records each start candidate at its distance. */
  lemma {:induction false} SeededBest(net: Net, n: nat)
    requires n <= |net.starts| && StartsAgree(net)
    ensures forall i :: 0 <= i < n ==>
      At(StartPlace(net, i)) in Seeded(net, n).best && Seeded(net, n).best[At(StartPlace(net, i))] == net.starts[i].dist
  {
    if n > 0 {
      SeededBest(net, n - 1);
    }
  }

  /** The seeded frontier records start candidates only, each as a start and with a cost. */
  lemma {:induction false} SeededCame(net: Net, n: nat)
    requires n <= |net.starts|
    ensures forall st :: st in Seeded(net, n).came <==> st in Seeded(net, n).best
    ensures forall st :: st in Seeded(net, n).came ==>
      Seeded(net, n).came[st] == Origin && exists i :: 0 <= i < n && st == At(StartPlace(net, i))
  {
    if n > 0 {
      SeededCame(net, n - 1);
      var s := Seeded(net, n);
      forall st | st in s.came
        ensures exists i :: 0 <= i < n && st == At(StartPlace(net, i))
      {
        if st != At(StartPlace(net, n - 1)) {
          var i :| 0 <= i < n - 1 && st == At(StartPlace(net, i));
          assert 0 <= i < n && st == At(StartPlace(net, i));
        }
      }
    }
  }

  /** The seeded frontier is sound, ranked, queued and priced, with every start bounded by its distance. */
  lemma SeededSound(net: Net, dist: (Point, Point) -> real)
    requires NetOk(net)
    ensures var s := Seeded(net, |net.starts|);
      Sound(net, s, dist) && Ranked(s, map[], 0) && s.visited == {} && Queued(s) && Priced(net, s, dist)
      && StartsBound(net, s)
  {
    var n := |net.starts|;
    SeededQueue(net, n);
    SeededBest(net, n);
    SeededCame(net, n);
    SeedKeeps(net, Seeded(net, n), n, dist);
  }

  /**
   * What seeding the first n start candidates leaves: nothing visited,
   * each candidate queued in order and recorded at its distance, and only
   * start candidates recorded, each as a start.
   */
  ghost predicate SeedFacts(net: Net, s: Frontier, n: nat)
    requires n <= |net.starts|
  {
    s.visited == {} && |s.queue| == n
    && (forall i :: 0 <= i < n ==> s.queue[i] == Entry(net.starts[i].dist, At(StartPlace(net, i))))
    && (forall i :: 0 <= i < n ==>
          At(StartPlace(net, i)) in s.best && s.best[At(StartPlace(net, i))] == net.starts[i].dist)
    && (forall st :: st in s.came <==> st in s.best)
    && (forall st :: st in s.came ==> s.came[st] == Origin && exists i :: 0 <= i < n && st == At(StartPlace(net, i)))
  }

  /** A frontier with the facts of seeding every start candidate is sound, ranked, queued and priced. */
  lemma SeedKeeps(net: Net, s: Frontier, n: nat, dist: (Point, Point) -> real)
    requires NetOk(net) && n == |net.starts| && SeedFacts(net, s, n)
    ensures Sound(net, s, dist) && Ranked(s, map[], 0) && s.visited == {} && Queued(s) && Priced(net, s, dist)
    ensures StartsBound(net, s)
  {
    SeededStarts(net, s, n, dist);
    SeededQueued(net, s, n);
    SeededPriced(net, s, n, dist);
  }

  /** The seeded frontier's entries and records are existing start nodes, recorded as starts. */
  lemma SeededStarts(net: Net, s: Frontier, n: nat, dist: (Point, Point) -> real)
    requires n <= |net.starts| && NetOk(net) && SeedFacts(net, s, n)
    ensures QueueOk(net, s) && CameOk(net, s, dist)
  {
    forall e | e in s.queue
      ensures e.state in Universe(net) && e.state in s.came
    {
      var i :| 0 <= i < n && s.queue[i] == e;
      InUniverse(net, net.startFloor, net.starts[i].id);
    }
    forall st | st in s.came
      ensures PredOk(net, st, s.came[st], dist)
    {
      var i :| 0 <= i < n && st == At(StartPlace(net, i));
    }
  }

  /** The seeded frontier is queued: each recorded start at its best cost. */
  lemma SeededQueued(net: Net, s: Frontier, n: nat)
    requires n <= |net.starts| && StartsAgree(net) && SeedFacts(net, s, n)
    ensures Queued(s)
  {
    forall st
      ensures QueuedAt(s, st)
    {
      if st in s.best {
        var i :| 0 <= i < n && st == At(StartPlace(net, i));
        assert s.queue[i] == Entry(s.best[st], st);
      }
    }
    forall x
      ensures EntryOk(s, x)
    {
      if x in s.queue {
        var i :| 0 <= i < n && s.queue[i] == x;
      }
    }
  }

  /** The seeded frontier is priced: each recorded start costs the distance of its candidate. */
  lemma SeededPriced(net: Net, s: Frontier, n: nat, dist: (Point, Point) -> real)
    requires n <= |net.starts| && StartsAgree(net) && SeedFacts(net, s, n)
    ensures Priced(net, s, dist)
  {
    forall st
      ensures PricedAt(net, s, st, dist)
    {
      if st in s.came {
        var i :| 0 <= i < n && st == At(StartPlace(net, i));
        assert st.place == StartPlace(net, i) && s.best[st] == net.starts[i].dist;
      }
    }
  }

  /** The seeding loop of the search: every start candidate pushed, in order. */
  method Seed(net: Net) returns (fr: Frontier)
    ensures fr == Seeded(net, |net.starts|)
  {
    fr := Frontier([], {}, map[], map[]);
    var i := 0;
    while i < |net.starts|
      invariant 0 <= i <= |net.starts|
      invariant fr == Seeded(net, i)
    {
      var st := At(Place(net.startFloor, net.starts[i].id));
      fr := Frontier(fr.queue + [Entry(net.starts[i].dist, st)], fr.visited, fr.best[st := net.starts[i].dist],
                     fr.came[st := Origin]);
      i := i + 1;
    }
  }

  // ---------------------------------------------------------------------
  // Expanding a node
  // ---------------------------------------------------------------------

  /** The goal, reached at cost from end candidate j,, is covered at cost plus its distance. */
  ghost predicate GoalOffered(net: Net, fr: Frontier, cost: real, j: int)
    requires 0 <= j < |net.ends|
  {
    Covered(fr, Goal, cost + net.ends[j].dist)
  }

  /**
   * On the end floor: offers the goal from the expanded node p at its cost
   * plus the distance of every end candidate that is p; afterwards the
   * goal is covered at each of those costs.
   */
  method OfferGoal(net: Net, fr: Frontier, ghost rank: map<Place, nat>, ghost tick: nat, p: Place, cost: real,
                   dist: (Point, Point) -> real) returns (r: Frontier)
    requires Ready(net, fr, rank, tick, p, cost, dist) && p.floor == net.endFloor
    ensures Ready(net, r, rank, tick, p, cost, dist) && Extends(net, fr, r, cost)
    ensures forall j {:trigger GoalOffered(net, r, cost, j)} :: EndAt(net, p, j) ==> GoalOffered(net, r, cost, j)
  {
    r := fr;
    ExtendsRefl(net, fr, cost);
    var i := 0;
    while i < |net.ends|
      invariant 0 <= i <= |net.ends|
      invariant Ready(net, r, rank, tick, p, cost, dist) && Extends(net, fr, r, cost)
      invariant forall j {:trigger GoalOffered(net, r, cost, j)} :: 0 <= j < i && EndAt(net, p, j) ==> GoalOffered(net, r, cost, j)
    {
      var next := OfferEnd(net, r, rank, tick, p, cost, i, dist);
      EndsCoveredGrow(net, r, next, p, cost, i, dist);
      ExtendsTrans(net, fr, r, next, cost);
      r := next;
      i := i + 1;
    }
  }

  /** One pass of the goal loop: the goal is offered when end candidate i is p. */
  method OfferEnd(net: Net, fr: Frontier, ghost rank: map<Place, nat>, ghost tick: nat, p: Place, cost: real, i: nat,
                  dist: (Point, Point) -> real) returns (r: Frontier)
    requires Ready(net, fr, rank, tick, p, cost, dist) && p.floor == net.endFloor && i < |net.ends|
    ensures Ready(net, r, rank, tick, p, cost, dist) && Extends(net, fr, r, cost)
    ensures EndAt(net, p, i) ==> GoalOffered(net, r, cost, i)
  {
    r := fr;
    ExtendsRefl(net, fr, cost);
    if p.node == net.ends[i].id {
      var total := cost + net.ends[i].dist;
      assert EndAt(net, p, i) && IsEnd(net, p);
      RelaxKeeps(net, r, rank, tick, p, cost, Goal, total, Reached(p), dist);
      r := Relax(r, Goal, total, Reached(p));
    }
  }

  /** Covering the goal from one more end candidate, while the earlier ones stay covered. */
  lemma EndsCoveredGrow(net: Net, r: Frontier, next: Frontier, p: Place, cost: real, i: nat, dist: (Point, Point) -> real)
    requires Extends(net, r, next, cost) && i < |net.ends|
    requires forall j {:trigger GoalOffered(net, r, cost, j)} :: 0 <= j < i && EndAt(net, p, j) ==> GoalOffered(net, r, cost, j)
    requires EndAt(net, p, i) ==> GoalOffered(net, next, cost, i)
    ensures forall j {:trigger GoalOffered(net, next, cost, j)} :: 0 <= j < i + 1 && EndAt(net, p, j) ==> GoalOffered(net, next, cost, j)
  {
    OfferedMono(net, r, next, cost);
    forall j | 0 <= j < i && EndAt(net, p, j)
      ensures GoalOffered(net, next, cost, j)
    {
      assert GoalOffered(net, r, cost, j);
    }
  }

  /** Every step from p along edge e is covered at cost plus the step's cost. */
  ghost predicate EdgeCovered(net: Net, fr: Frontier, p: Place, cost: real, e: Edge, dist: (Point, Point) -> real)
  {
    forall t {:trigger Offered(net, fr, p, cost, t, ViaEdge(p, e), dist)} ::
      EdgeStep(net.levels, p, e, t) ==> Offered(net, fr, p, cost, t, ViaEdge(p, e), dist)
  }

  /**
   * The edge loop: offers every existing, non-zero neighbour of p along
   * each edge of its floor at the cost so far plus the cost of that edge;
   * afterwards every edge step from p is covered at that cost.
   */
  method RelaxEdges(net: Net, fr: Frontier, ghost rank: map<Place, nat>, ghost tick: nat, p: Place, cost: real,
                    dist: (Point, Point) -> real) returns (r: Frontier)
    requires Ready(net, fr, rank, tick, p, cost, dist) && IsEuclidean(dist)
    ensures Ready(net, r, rank, tick, p, cost, dist) && Extends(net, fr, r, cost)
    ensures forall e :: e in net.levels[p.floor].edges ==> EdgeCovered(net, r, p, cost, e, dist)
  {
    var v := net.levels[p.floor];
    r := fr;
    ExtendsRefl(net, fr, cost);
    var i := 0;
    while i < |v.edges|
      invariant 0 <= i <= |v.edges|
      invariant Ready(net, r, rank, tick, p, cost, dist) && Extends(net, fr, r, cost)
      invariant forall k :: 0 <= k < i ==> EdgeCovered(net, r, p, cost, v.edges[k], dist)
    {
      var next := RelaxEdge(net, r, rank, tick, p, cost, v.edges[i], dist);
      EdgesCoveredGrow(net, r, next, p, cost, v.edges, i, dist);
      ExtendsTrans(net, fr, r, next, cost);
      r := next;
      i := i + 1;
    }
    forall e | e in v.edges
      ensures EdgeCovered(net, r, p, cost, e, dist)
    {
      var k :| 0 <= k < |v.edges| && v.edges[k] == e;
    }
  }

  /** Covering one more edge of the list, while the earlier ones stay covered. */
  lemma EdgesCoveredGrow(net: Net, r: Frontier, next: Frontier, p: Place, cost: real, es: seq<Edge>, i: nat,
                         dist: (Point, Point) -> real)
    requires Extends(net, r, next, cost) && i < |es|
    requires forall k :: 0 <= k < i ==> EdgeCovered(net, r, p, cost, es[k], dist)
    requires EdgeCovered(net, next, p, cost, es[i], dist)
    ensures forall k :: 0 <= k < i + 1 ==> EdgeCovered(net, next, p, cost, es[k], dist)
  {
    OfferedMono(net, r, next, cost);
    forall k, t | 0 <= k < i && EdgeStep(net.levels, p, es[k], t)
      ensures Offered(net, next, p, cost, t, ViaEdge(p, es[k]), dist)
    {
      assert EdgeCovered(net, r, p, cost, es[k], dist);
    }
  }

  /** One pass of the edge loop: the neighbour of p along e, when there is one, is offered. */
  method RelaxEdge(net: Net, fr: Frontier, ghost rank: map<Place, nat>, ghost tick: nat, p: Place, cost: real,
                   e: Edge, dist: (Point, Point) -> real) returns (r: Frontier)
    requires Ready(net, fr, rank, tick, p, cost, dist) && IsEuclidean(dist) && e in net.levels[p.floor].edges
    ensures Ready(net, r, rank, tick, p, cost, dist) && Extends(net, fr, r, cost)
    ensures EdgeCovered(net, r, p, cost, e, dist)
  {
    var v := net.levels[p.floor];
    var cur := v.nodes[p.node];
    r := fr;
    ExtendsRefl(net, fr, cost);
    var next := NextNode(e, p.node);
    if next.Some? && next.value != 0 && next.value in v.nodes {
      var t := Place(p.floor, next.value);
      var st := At(t);
      assert EdgeStep(net.levels, p, e, t);
      if st !in r.visited {
        var c := cost + EdgeCost(e, cur, v.nodes[next.value], dist);
        if CostsNonNegative(net) {
          StepCostNonNegative(net, p, t, ViaEdge(p, e), dist);
        }
        InUniverse(net, p.floor, next.value);
        RelaxKeeps(net, r, rank, tick, p, cost, st, c, ViaEdge(p, e), dist);
        r := Relax(r, st, c, ViaEdge(p, e));
      }
      assert Offered(net, r, p, cost, t, ViaEdge(p, e), dist);
    }
  }

  /** Every transfer from p through entry device en and exit device ex to a node of floor f is covered. */
  ghost predicate ExitCovered(net: Net, fr: Frontier, p: Place, cost: real, en: Device, ex: Device, f: int,
                              dist: (Point, Point) -> real)
  {
    forall t: Place {:trigger Offered(net, fr, p, cost, t, ViaTransfer(p, en, ex), dist)} ::
      t.floor == f && TransferStep(net.levels, p, en, ex, t, dist) ==> Offered(net, fr, p, cost, t, ViaTransfer(p, en, ex), dist)
  }

  /** Every transfer from p through entry device en to a node of floor f is covered. */
  ghost predicate FloorCovered(net: Net, fr: Frontier, p: Place, cost: real, en: Device, f: int,
                               dist: (Point, Point) -> real)
  {
    forall t: Place, ex: Device {:trigger Offered(net, fr, p, cost, t, ViaTransfer(p, en, ex), dist)} ::
      t.floor == f && TransferStep(net.levels, p, en, ex, t, dist) ==> Offered(net, fr, p, cost, t, ViaTransfer(p, en, ex), dist)
  }

  /** Every transfer from p through entry device en is covered. */
  ghost predicate DeviceCovered(net: Net, fr: Frontier, p: Place, cost: real, en: Device, dist: (Point, Point) -> real)
  {
    forall t: Place, ex: Device {:trigger Offered(net, fr, p, cost, t, ViaTransfer(p, en, ex), dist)} ::
      TransferStep(net.levels, p, en, ex, t, dist) ==> Offered(net, fr, p, cost, t, ViaTransfer(p, en, ex), dist)
  }

  /** What the group index holds for group g: its floors, each a floor with exactly its devices of g. */
  ghost predicate GroupSound(net: Net, gi: GroupIndex, g: string)
  {
    forall f :: f in gi.floors ==> f in gi.devices && f in net.levels && gi.devices[f] == GroupDevices(net.levels[f], g)
  }

  /** The group index for g lists every floor that has a device of g. */
  ghost predicate GroupComplete(net: Net, gi: GroupIndex, g: string)
  {
    forall f :: f in net.levels && GroupDevices(net.levels[f], g) != [] ==> f in gi.floors
  }

  /**
   * The transfer loops for one device of p's floor, within reach and with
   * a truthy group id: every other floor of its group; afterwards every
   * transfer through it is covered.
   */
  method RelaxGroup(net: Net, fr: Frontier, ghost rank: map<Place, nat>, ghost tick: nat, p: Place, cost: real,
                    dev: Device, reach: real, gi: GroupIndex, dist: (Point, Point) -> real) returns (r: Frontier)
    requires LevelsShaped(net.levels)
    requires Ready(net, fr, rank, tick, p, cost, dist) && IsEuclidean(dist)
    requires dev in net.levels[p.floor].devices && Grouped(dev)
    requires reach == dist(net.levels[p.floor].nodes[p.node].pos, dev.anchor) && reach < NearRadius
    requires GroupSound(net, gi, dev.group.value) && GroupComplete(net, gi, dev.group.value)
    ensures Ready(net, r, rank, tick, p, cost, dist) && Extends(net, fr, r, cost)
    ensures DeviceCovered(net, r, p, cost, dev, dist)
  {
    r := fr;
    ExtendsRefl(net, fr, cost);
    var j := 0;
    while j < |gi.floors|
      invariant 0 <= j <= |gi.floors|
      invariant Ready(net, r, rank, tick, p, cost, dist) && Extends(net, fr, r, cost)
      invariant forall k :: 0 <= k < j && gi.floors[k] != p.floor ==> FloorCovered(net, r, p, cost, dev, gi.floors[k], dist)
    {
      var other := gi.floors[j];
      var next := r;
      if other != p.floor {
        assert other in gi.floors;
        var exits := gi.devices[other];
        InGroupMembers(net.levels[other].devices, dev.group.value, |net.levels[other].devices|);
        InGroupHas(net.levels[other].devices, dev.group.value);
        next := RelaxExits(net, r, rank, tick, p, cost, dev, reach, other, exits, dist);
      } else {
        ExtendsRefl(net, r, cost);
      }
      FloorsCoveredGrow(net, r, next, p, cost, dev, gi.floors, j, dist);
      ExtendsTrans(net, fr, r, next, cost);
      r := next;
      j := j + 1;
    }
    forall t: Place, ex: Device | TransferStep(net.levels, p, dev, ex, t, dist)
      ensures Offered(net, r, p, cost, t, ViaTransfer(p, dev, ex), dist)
    {
      InGroupHas(net.levels[t.floor].devices, dev.group.value);
      assert t.floor in gi.floors;
      var k :| 0 <= k < |gi.floors| && gi.floors[k] == t.floor;
      assert FloorCovered(net, r, p, cost, dev, gi.floors[k], dist);
    }
  }

  /** Covering one more floor of the list, while the earlier ones stay covered; p's own floor is skipped. */
  lemma FloorsCoveredGrow(net: Net, r: Frontier, next: Frontier, p: Place, cost: real, dev: Device, fs: seq<int>, j: nat,
                          dist: (Point, Point) -> real)
    requires Extends(net, r, next, cost) && j < |fs|
    requires forall k :: 0 <= k < j && fs[k] != p.floor ==> FloorCovered(net, r, p, cost, dev, fs[k], dist)
    requires fs[j] != p.floor ==> FloorCovered(net, next, p, cost, dev, fs[j], dist)
    ensures forall k :: 0 <= k < j + 1 && fs[k] != p.floor ==> FloorCovered(net, next, p, cost, dev, fs[k], dist)
  {
    OfferedMono(net, r, next, cost);
    forall k, t: Place, ex: Device | 0 <= k < j && fs[k] != p.floor && t.floor == fs[k] && TransferStep(net.levels, p, dev, ex, t, dist)
      ensures Offered(net, next, p, cost, t, ViaTransfer(p, dev, ex), dist)
    {
      assert FloorCovered(net, r, p, cost, dev, fs[k], dist);
    }
  }

  /**
   * The transfer loop over the exit devices of one other floor; afterwards
   * every transfer through dev to that floor is covered.
   */
  method RelaxExits(net: Net, fr: Frontier, ghost rank: map<Place, nat>, ghost tick: nat, p: Place, cost: real,
                    dev: Device, reach: real, other: int, exits: seq<Device>, dist: (Point, Point) -> real)
    returns (r: Frontier)
    requires LevelsShaped(net.levels)
    requires Ready(net, fr, rank, tick, p, cost, dist) && IsEuclidean(dist)
    requires dev in net.levels[p.floor].devices && Grouped(dev)
    requires reach == dist(net.levels[p.floor].nodes[p.node].pos, dev.anchor) && reach < NearRadius
    requires other in net.levels && other != p.floor
    requires forall x :: x in exits ==> x in net.levels[other].devices && x.group == dev.group
    requires forall x :: x in net.levels[other].devices && Grouped(x) && x.group == dev.group ==> x in exits
    ensures Ready(net, r, rank, tick, p, cost, dist) && Extends(net, fr, r, cost)
    ensures FloorCovered(net, r, p, cost, dev, other, dist)
  {
    r := fr;
    ExtendsRefl(net, fr, cost);
    var k := 0;
    while k < |exits|
      invariant 0 <= k <= |exits|
      invariant Ready(net, r, rank, tick, p, cost, dist) && Extends(net, fr, r, cost)
      invariant forall m :: 0 <= m < k ==> ExitCovered(net, r, p, cost, dev, exits[m], other, dist)
    {
      assert exits[k] in exits;
      var next := RelaxExitNodes(net, r, rank, tick, p, cost, dev, reach, other, exits[k], dist);
      ExitsCoveredGrow(net, r, next, p, cost, dev, exits, other, k, dist);
      ExtendsTrans(net, fr, r, next, cost);
      r := next;
      k := k + 1;
    }
    forall t: Place, ex: Device | t.floor == other && TransferStep(net.levels, p, dev, ex, t, dist)
      ensures Offered(net, r, p, cost, t, ViaTransfer(p, dev, ex), dist)
    {
      assert ex in exits;
      var m :| 0 <= m < |exits| && exits[m] == ex;
      assert ExitCovered(net, r, p, cost, dev, exits[m], other, dist);
    }
  }

  /** Covering one more exit device of the list, while the earlier ones stay covered. */
  lemma ExitsCoveredGrow(net: Net, r: Frontier, next: Frontier, p: Place, cost: real, dev: Device, exits: seq<Device>,
                         other: int, k: nat, dist: (Point, Point) -> real)
    requires Extends(net, r, next, cost) && k < |exits|
    requires forall m :: 0 <= m < k ==> ExitCovered(net, r, p, cost, dev, exits[m], other, dist)
    requires ExitCovered(net, next, p, cost, dev, exits[k], other, dist)
    ensures forall m :: 0 <= m < k + 1 ==> ExitCovered(net, next, p, cost, dev, exits[m], other, dist)
  {
    OfferedMono(net, r, next, cost);
    forall m, t: Place | 0 <= m < k && t.floor == other && TransferStep(net.levels, p, dev, exits[m], t, dist)
      ensures Offered(net, next, p, cost, t, ViaTransfer(p, dev, exits[m]), dist)
    {
      assert ExitCovered(net, r, p, cost, dev, exits[m], other, dist);
    }
  }

  /**
   * The innermost transfer loop: every node of the other floor within
   * reach of the exit device is offered at the cost so far plus the
   * distance to the entry device, the lift or stairs surcharge and the
   * distance from the exit device; afterwards every such transfer is
   * covered at that cost.
   */
  method RelaxExitNodes(net: Net, fr: Frontier, ghost rank: map<Place, nat>, ghost tick: nat, p: Place, cost: real,
                        dev: Device, reach: real, other: int, exit: Device, dist: (Point, Point) -> real)
    returns (r: Frontier)
    requires LevelsShaped(net.levels)
    requires Ready(net, fr, rank, tick, p, cost, dist) && IsEuclidean(dist)
    requires dev in net.levels[p.floor].devices && Grouped(dev)
    requires reach == dist(net.levels[p.floor].nodes[p.node].pos, dev.anchor) && reach < NearRadius
    requires other in net.levels && other != p.floor
    requires exit in net.levels[other].devices && exit.group == dev.group
    ensures Ready(net, r, rank, tick, p, cost, dist) && Extends(net, fr, r, cost)
    ensures ExitCovered(net, r, p, cost, dev, exit, other, dist)
  {
    var ov := net.levels[other];
    assert LevelShaped(net.levels[other]);
    var ns := NodeList(ov);
    r := fr;
    ExtendsRefl(net, fr, cost);
    var m := 0;
    while m < |ns|
      invariant 0 <= m <= |ns|
      invariant Ready(net, r, rank, tick, p, cost, dist) && Extends(net, fr, r, cost)
      invariant forall k :: 0 <= k < m ==> ExitNodeCovered(net, r, p, cost, dev, exit, Place(other, ns[k].id), dist)
    {
      NodeListMember(ov, m);
      var next := RelaxExitNode(net, r, rank, tick, p, cost, dev, reach, other, exit, ns[m], dist);
      ExitNodesCoveredGrow(net, r, next, p, cost, dev, exit, other, ns, m, dist);
      ExtendsTrans(net, fr, r, next, cost);
      r := next;
      m := m + 1;
    }
    forall t: Place | t.floor == other && TransferStep(net.levels, p, dev, exit, t, dist)
      ensures Offered(net, r, p, cost, t, ViaTransfer(p, dev, exit), dist)
    {
      var k := NodeListIndex(ov, t.node);
      assert ExitNodeCovered(net, r, p, cost, dev, exit, Place(other, ns[k].id), dist);
    }
  }

  /** Covering one more node of the list, while the earlier ones stay covered. */
  lemma ExitNodesCoveredGrow(net: Net, r: Frontier, next: Frontier, p: Place, cost: real, dev: Device, exit: Device,
                             other: int, ns: seq<Node>, m: nat, dist: (Point, Point) -> real)
    requires Extends(net, r, next, cost) && m < |ns|
    requires forall k :: 0 <= k < m ==> ExitNodeCovered(net, r, p, cost, dev, exit, Place(other, ns[k].id), dist)
    requires ExitNodeCovered(net, next, p, cost, dev, exit, Place(other, ns[m].id), dist)
    ensures forall k :: 0 <= k < m + 1 ==> ExitNodeCovered(net, next, p, cost, dev, exit, Place(other, ns[k].id), dist)
  {
    OfferedMono(net, r, next, cost);
    forall k | 0 <= k < m
      ensures ExitNodeCovered(net, next, p, cost, dev, exit, Place(other, ns[k].id), dist)
    {
      assert ExitNodeCovered(net, r, p, cost, dev, exit, Place(other, ns[k].id), dist);
    }
  }

  /** The transfer from p through en and ex to node t, if it is one, is covered. */
  ghost predicate ExitNodeCovered(net: Net, fr: Frontier, p: Place, cost: real, en: Device, ex: Device, t: Place,
                                  dist: (Point, Point) -> real)
  {
    TransferStep(net.levels, p, en, ex, t, dist) ==> Offered(net, fr, p, cost, t, ViaTransfer(p, en, ex), dist)
  }

  /** One pass of the innermost transfer loop: the node is offered when it is within reach of the exit. */
  method RelaxExitNode(net: Net, fr: Frontier, ghost rank: map<Place, nat>, ghost tick: nat, p: Place, cost: real,
                       dev: Device, reach: real, other: int, exit: Device, node: Node, dist: (Point, Point) -> real)
    returns (r: Frontier)
    requires Ready(net, fr, rank, tick, p, cost, dist) && IsEuclidean(dist)
    requires dev in net.levels[p.floor].devices && Grouped(dev)
    requires reach == dist(net.levels[p.floor].nodes[p.node].pos, dev.anchor) && reach < NearRadius
    requires other in net.levels && other != p.floor
    requires exit in net.levels[other].devices && exit.group == dev.group
    requires node.id in net.levels[other].nodes && net.levels[other].nodes[node.id] == node
    ensures Ready(net, r, rank, tick, p, cost, dist) && Extends(net, fr, r, cost)
    ensures ExitNodeCovered(net, r, p, cost, dev, exit, Place(other, node.id), dist)
  {
    r := fr;
    ExtendsRefl(net, fr, cost);
    var t := Place(other, node.id);
    var away := dist(node.pos, exit.anchor);
    if away < NearRadius {
      var st := At(t);
      if st !in r.visited {
        var c := cost + reach + TransferCost(dev) + away;
        assert TransferStep(net.levels, p, dev, exit, t, dist);
        InUniverse(net, other, node.id);
        RelaxKeeps(net, r, rank, tick, p, cost, st, c, ViaTransfer(p, dev, exit), dist);
        r := Relax(r, st, c, ViaTransfer(p, dev, exit));
      }
      assert Offered(net, r, p, cost, t, ViaTransfer(p, dev, exit), dist);
    }
  }

  /** The m-th node of a floor's list is stored under its own id. */
  lemma NodeListMember(v: Level, m: nat)
    requires LevelShaped(v) && m < |NodeList(v)|
    ensures NodeList(v)[m].id in v.nodes && v.nodes[NodeList(v)[m].id] == NodeList(v)[m]
  {
    var k := v.order[m];
    assert k in v.order;
  }

  /** Every node of a floor is in its list. */
  lemma NodeListIndex(v: Level, k: int) returns (m: nat)
    requires LevelShaped(v) && k in v.nodes
    ensures m < |NodeList(v)| && NodeList(v)[m] == v.nodes[k] && NodeList(v)[m].id == k
  {
    assert k in v.order;
    m :| 0 <= m < |v.order| && v.order[m] == k;
  }

  /** A device of a list that carries group g, truthy, is filed under g. */
  lemma InGroupHas(ds: seq<Device>, g: string)
    ensures forall x :: x in ds && Grouped(x) && x.group.value == g ==> x in InGroup(ds, g, |ds|)
  {
    forall x | x in ds && Grouped(x) && x.group.value == g
      ensures x in InGroup(ds, g, |ds|)
    {
      var i :| 0 <= i < |ds| && ds[i] == x;
      InGroupPrefix(ds, g, i + 1, |ds|);
    }
  }

  /** Filing more devices keeps what is filed. */
  lemma {:induction false} InGroupPrefix(ds: seq<Device>, g: string, n: nat, m: nat)
    requires 0 < n <= m <= |ds| && Grouped(ds[n - 1]) && ds[n - 1].group.value == g
    ensures ds[n - 1] in InGroup(ds, g, m)
    decreases m
  {
    if m > n {
      InGroupPrefix(ds, g, n, m - 1);
    }
  }

  /** A floor with a device of g is among the floors with one. */
  lemma {:induction false} FloorsWithHas(levels: map<int, Level>, floorOrder: seq<int>, g: string, n: nat, i: nat)
    requires Storeys(levels, floorOrder) && i < n <= |floorOrder|
    requires floorOrder[i] in levels && GroupDevices(levels[floorOrder[i]], g) != []
    ensures floorOrder[i] in FloorsWith(levels, floorOrder, g, n)
    decreases n
  {
    if n - 1 > i {
      FloorsWithHas(levels, floorOrder, g, n - 1, i);
    }
  }

  /** The index built over every floor lists every floor with a device of g. */
  lemma IndexComplete(net: Net, g: string)
    requires Storeys(net.levels, net.floorOrder) && Indexed(net.conn, net.levels, net.floorOrder)
    ensures GroupComplete(net, IndexOrEmpty(net.conn, g), g)
    ensures GroupSound(net, IndexOrEmpty(net.conn, g), g)
  {
    assert IndexedUpTo(net.conn, net.levels, net.floorOrder, g, |net.floorOrder|);
    forall f | f in net.levels && GroupDevices(net.levels[f], g) != []
      ensures f in IndexOrEmpty(net.conn, g).floors
    {
      assert f in net.floorOrder;
      var i :| 0 <= i < |net.floorOrder| && net.floorOrder[i] == f;
      FloorsWithHas(net.levels, net.floorOrder, g, |net.floorOrder|, i);
    }
  }

  /**
   * The device loop of an expansion: each device of p's floor within reach
   * of p, with a truthy group id, leads to the other floors of its group;
   * afterwards every transfer from p is covered at the cost so far plus
   * its cost.
   */
  method RelaxTransfers(net: Net, fr: Frontier, ghost rank: map<Place, nat>, ghost tick: nat, p: Place, cost: real,
                        dist: (Point, Point) -> real) returns (r: Frontier)
    requires NetOk(net) && Ready(net, fr, rank, tick, p, cost, dist) && IsEuclidean(dist)
    ensures Ready(net, r, rank, tick, p, cost, dist) && Extends(net, fr, r, cost)
    ensures forall t, en, ex {:trigger Offered(net, r, p, cost, t, ViaTransfer(p, en, ex), dist)} ::
      TransferStep(net.levels, p, en, ex, t, dist) ==> Offered(net, r, p, cost, t, ViaTransfer(p, en, ex), dist)
  {
    var v := net.levels[p.floor];
    var cur := v.nodes[p.node];
    r := fr;
    ExtendsRefl(net, fr, cost);
    var i := 0;
    while i < |v.devices|
      invariant 0 <= i <= |v.devices|
      invariant Ready(net, r, rank, tick, p, cost, dist) && Extends(net, fr, r, cost)
      invariant forall k :: 0 <= k < i ==> DeviceCovered(net, r, p, cost, v.devices[k], dist)
    {
      var dev := v.devices[i];
      var reach := dist(cur.pos, dev.anchor);
      var next := r;
      if reach < NearRadius && Grouped(dev) {
        var gi := IndexOrEmpty(net.conn, dev.group.value);
        IndexComplete(net, dev.group.value);
        next := RelaxGroup(net, r, rank, tick, p, cost, dev, reach, gi, dist);
      } else {
        ExtendsRefl(net, r, cost);
        assert DeviceCovered(net, next, p, cost, dev, dist);
      }
      DevicesCoveredGrow(net, r, next, p, cost, v.devices, i, dist);
      ExtendsTrans(net, fr, r, next, cost);
      r := next;
      i := i + 1;
    }
    forall t, en, ex | TransferStep(net.levels, p, en, ex, t, dist)
      ensures Offered(net, r, p, cost, t, ViaTransfer(p, en, ex), dist)
    {
      var k :| 0 <= k < |v.devices| && v.devices[k] == en;
      assert DeviceCovered(net, r, p, cost, v.devices[k], dist);
    }
  }

  /** Covering one more device of the list, while the earlier ones stay covered. */
  lemma DevicesCoveredGrow(net: Net, r: Frontier, next: Frontier, p: Place, cost: real, ds: seq<Device>, i: nat,
                           dist: (Point, Point) -> real)
    requires Extends(net, r, next, cost) && i < |ds|
    requires forall k :: 0 <= k < i ==> DeviceCovered(net, r, p, cost, ds[k], dist)
    requires DeviceCovered(net, next, p, cost, ds[i], dist)
    ensures forall k :: 0 <= k < i + 1 ==> DeviceCovered(net, next, p, cost, ds[k], dist)
  {
    OfferedMono(net, r, next, cost);
    forall k, t: Place, ex: Device | 0 <= k < i && TransferStep(net.levels, p, ds[k], ex, t, dist)
      ensures Offered(net, next, p, cost, t, ViaTransfer(p, ds[k], ex), dist)
    {
      assert DeviceCovered(net, r, p, cost, ds[k], dist);
    }
  }

  /**
   * Expanding the visited node p: towards the goal on the end floor, then
   * along its floor's edges, then through the lifts and stairs in reach.
   * Afterwards every step from p, and the goal from p when p is an end
   * candidate, is covered at p's cost plus the step's cost.
   */
  method Expand(net: Net, fr: Frontier, ghost rank: map<Place, nat>, ghost tick: nat, p: Place, cost: real,
                dist: (Point, Point) -> real) returns (r: Frontier)
    requires NetOk(net) && Ready(net, fr, rank, tick, p, cost, dist) && IsEuclidean(dist)
    ensures Ready(net, r, rank, tick, p, cost, dist) && Extends(net, fr, r, cost)
    ensures forall t, pr {:trigger Offered(net, r, p, cost, t, pr, dist)} ::
      Step(net, p, t, pr, dist) ==> Offered(net, r, p, cost, t, pr, dist)
    ensures forall j {:trigger GoalOffered(net, r, cost, j)} :: EndAt(net, p, j) ==> GoalOffered(net, r, cost, j)
  {
    r := fr;
    ExtendsRefl(net, fr, cost);
    if p.floor == net.endFloor {
      r := OfferGoal(net, r, rank, tick, p, cost, dist);
    }
    var afterGoal := r;
    r := RelaxEdges(net, r, rank, tick, p, cost, dist);
    OfferedMono(net, afterGoal, r, cost);
    ExtendsTrans(net, fr, afterGoal, r, cost);
    var afterEdges := r;
    r := RelaxTransfers(net, r, rank, tick, p, cost, dist);
    OfferedMono(net, afterEdges, r, cost);
    ExtendsTrans(net, fr, afterEdges, r, cost);
    forall t, pr | Step(net, p, t, pr, dist)
      ensures Offered(net, r, p, cost, t, pr, dist)
    {
      if pr.ViaEdge? {
        assert EdgeCovered(net, afterEdges, p, cost, pr.edge, dist);
        assert Offered(net, afterEdges, p, cost, t, pr, dist);
      }
    }
    forall j | EndAt(net, p, j)
      ensures GoalOffered(net, r, cost, j)
    {
      assert GoalOffered(net, afterGoal, cost, j);
    }
  }

  // ---------------------------------------------------------------------
  // Popping and visiting
  // ---------------------------------------------------------------------

  ghost predicate Ascending(s: seq<real>)
  {
    forall i, j :: 0 <= i < j < |s| ==> s[i] <= s[j]
  }

  /** Nothing in the queue costs less than c. */
  ghost predicate AtLeast(q: seq<Entry>, c: real)
  {
    forall x :: x in q ==> x.cost >= c
  }

  /**
   * The settled costs ascend, and nothing in the queue costs less than the
   * last one settled.
   */
  ghost predicate InOrder(settled: seq<real>, q: seq<Entry>)
  {
    Ascending(settled) && (settled != [] ==> AtLeast(q, settled[|settled| - 1]))
  }

  /** Every visited state's best cost is at most the last settled cost. */
  ghost predicate Ordered(fr: Frontier, settled: seq<real>)
  {
    forall st :: st in fr.visited ==> settled != [] && st in fr.best && fr.best[st] <= settled[|settled| - 1]
  }

  /** An extension whose new entries cost at least the last settled cost keeps the order. */
  lemma ExtendsInOrder(net: Net, a: Frontier, b: Frontier, settled: seq<real>)
    requires CostsNonNegative(net) && settled != [] && Extends(net, a, b, settled[|settled| - 1])
    requires InOrder(settled, a.queue)
    ensures InOrder(settled, b.queue)
  {
    forall x | x in b.queue
      ensures x.cost >= settled[|settled| - 1]
    {
      var k :| 0 <= k < |b.queue| && b.queue[k] == x;
      if k < |a.queue| {
        assert x == a.queue[k];
      }
    }
  }

  /**
   * Popping the first entry in queue order: what stays in the queue is in
   * order with the settled costs, with or without the popped cost settled.
   */
  lemma PopInOrder(q: seq<Entry>, e: Entry, rest: seq<Entry>, m: nat, settled: seq<real>)
    requires InOrder(settled, q)
    requires m < |q| && e == q[m] && rest == q[..m] + q[m + 1..]
    requires forall x :: x in q ==> !EntryBefore(x, e)
    ensures InOrder(settled, rest) && InOrder(settled + [e.cost], rest)
  {
    assert e in q;
    forall x | x in rest
      ensures x in q && x.cost >= e.cost
    {
      var k :| 0 <= k < |rest| && rest[k] == x;
      if k < m {
        assert x == q[k];
      } else {
        assert x == q[k + 1];
      }
    }
  }

  /** Removing entry m keeps exactly the entries at the other positions. */
  lemma PopRest(q: seq<Entry>, m: nat, rest: seq<Entry>)
    requires m < |q| && rest == q[..m] + q[m + 1..]
    ensures forall x :: x in rest ==> x in q
    ensures forall x :: x in q && x != q[m] ==> x in rest
  {
    forall x | x in rest
      ensures x in q
    {
      var k :| 0 <= k < |rest| && rest[k] == x;
      if k < m {
        assert x == q[k];
      } else {
        assert x == q[k + 1];
      }
    }
    forall x | x in q && x != q[m]
      ensures x in rest
    {
      var k :| 0 <= k < |q| && q[k] == x;
      if k < m {
        assert rest[k] == x;
      } else {
        assert rest[k - 1] == x;
      }
    }
  }

  /**
   * What holds between two pops of the search: the frontier is sound,
   * ranked, queued and priced; the goal is found exactly when visited, and
   * then its best cost is recorded; every start is bounded by its
   * distance; and, when no cost is negative, states settle in order of
   * cost and the visited nodes are closed under steps.
   */
  ghost predicate Searching(net: Net, dist: (Point, Point) -> real, fr: Frontier, found: bool,
                            bestCost: Option<real>, rank: map<Place, nat>, tick: nat, settled: seq<real>)
  {
    Sound(net, fr, dist) && Ranked(fr, rank, tick) && Queued(fr) && Priced(net, fr, dist)
    && (found <==> Goal in fr.visited) && (bestCost.Some? <==> Goal in fr.visited)
    && (Goal in fr.visited ==> Goal in fr.best && bestCost == Some(fr.best[Goal]))
    && StartsBound(net, fr)
    && (CostsNonNegative(net) ==> InOrder(settled, fr.queue) && Ordered(fr, settled) && Closed(net, fr, dist))
  }

  /** Popping entry m, and visiting at least its state, keeps the queue holding what the best costs say. */
  lemma PopQueued(fr: Frontier, rest: seq<Entry>, m: nat, vis: set<State>)
    requires Queued(fr) && m < |fr.queue| && rest == fr.queue[..m] + fr.queue[m + 1..]
    requires fr.visited <= vis && fr.queue[m].state in vis && forall st :: st in vis && st !in fr.visited ==> st in fr.best
    ensures Queued(fr.(queue := rest, visited := vis))
  {
    PopRest(fr.queue, m, rest);
    var fv := fr.(queue := rest, visited := vis);
    forall st
      ensures QueuedAt(fv, st)
    {
      assert QueuedAt(fr, st);
    }
    forall x
      ensures EntryOk(fv, x)
    {
      assert EntryOk(fr, x);
    }
  }

  /** What depends only on the best costs and predecessors carries over to a frontier with the same ones. */
  lemma SamePricing(net: Net, fr: Frontier, fv: Frontier, vis: set<State>, dist: (Point, Point) -> real)
    requires fv.came == fr.came && fv.best == fr.best
    requires Priced(net, fr, dist) && StartsBound(net, fr) && (CostsNonNegative(net) ==> ClosedOn(net, fr, vis, dist))
    ensures Priced(net, fv, dist) && StartsBound(net, fv) && (CostsNonNegative(net) ==> ClosedOn(net, fv, vis, dist))
  {
    forall st
      ensures PricedAt(net, fv, st, dist)
    {
      assert PricedAt(net, fr, st, dist);
    }
  }

  /** Popping an entry of a visited state changes nothing but the queue. */
  lemma SkipKeeps(net: Net, dist: (Point, Point) -> real, fr: Frontier, found: bool, bestCost: Option<real>,
                  rank: map<Place, nat>, tick: nat, settled: seq<real>, e: Entry, rest: seq<Entry>, m: nat)
    requires Searching(net, dist, fr, found, bestCost, rank, tick, settled)
    requires m < |fr.queue| && e == fr.queue[m] && rest == fr.queue[..m] + fr.queue[m + 1..]
    requires forall x :: x in fr.queue ==> !EntryBefore(x, e)
    requires e.state in fr.visited
    ensures Searching(net, dist, fr.(queue := rest), found, bestCost, rank, tick, settled)
  {
    PopRest(fr.queue, m, rest);
    PopQueued(fr, rest, m, fr.visited);
    SamePricing(net, fr, fr.(queue := rest), fr.visited, dist);
    if CostsNonNegative(net) {
      PopInOrder(fr.queue, e, rest, m, settled);
    }
  }

  /** The popped entry of an unvisited state costs the state's best cost. */
  lemma PopCost(fr: Frontier, e: Entry, m: nat)
    requires Queued(fr) && m < |fr.queue| && e == fr.queue[m] && e.state !in fr.visited
    requires forall x :: x in fr.queue ==> !EntryBefore(x, e)
    ensures e.state in fr.best && fr.best[e.state] == e.cost
  {
    assert EntryOk(fr, e);
    assert QueuedAt(fr, e.state);
    assert !EntryBefore(Entry(fr.best[e.state], e.state), e);
  }

  /**
   * Popping an entry of an unvisited state and visiting it: its cost is
   * the state's best cost, and the frontier stays sound, queued and
   * priced, with the popped cost settled last.
   */
  lemma PopVisitKeeps(net: Net, dist: (Point, Point) -> real, fr: Frontier, found: bool, bestCost: Option<real>,
                      rank: map<Place, nat>, tick: nat, settled: seq<real>, e: Entry, rest: seq<Entry>, m: nat)
    requires Searching(net, dist, fr, found, bestCost, rank, tick, settled)
    requires m < |fr.queue| && e == fr.queue[m] && rest == fr.queue[..m] + fr.queue[m + 1..]
    requires forall x :: x in fr.queue ==> !EntryBefore(x, e)
    requires e.state !in fr.visited
    ensures e.state in Universe(net) && e.state in fr.came && e.state in fr.best && fr.best[e.state] == e.cost
    ensures var fv := fr.(queue := rest, visited := fr.visited + {e.state});
      Sound(net, fv, dist) && Queued(fv) && Priced(net, fv, dist) && StartsBound(net, fv)
      && (CostsNonNegative(net) ==>
            InOrder(settled + [e.cost], rest) && Ordered(fv, settled + [e.cost]) && ClosedOn(net, fv, fr.visited, dist))
  {
    var s := e.state;
    assert e in fr.queue;
    PopCost(fr, e, m);
    PopRest(fr.queue, m, rest);
    var fv := fr.(queue := rest, visited := fr.visited + {s});
    PopQueued(fr, rest, m, fv.visited);
    SamePricing(net, fr, fv, fr.visited, dist);
    if CostsNonNegative(net) {
      PopInOrder(fr.queue, e, rest, m, settled);
      PopOrdered(fr, fv, settled, e);
    }
  }

  /** Settling the popped cost keeps every visited cost at most the last one settled. */
  lemma PopOrdered(fr: Frontier, fv: Frontier, settled: seq<real>, e: Entry)
    requires Ordered(fr, settled) && InOrder(settled, fr.queue) && e in fr.queue
    requires fv.best == fr.best && fv.visited == fr.visited + {e.state} && e.state in fr.best && fr.best[e.state] == e.cost
    ensures Ordered(fv, settled + [e.cost])
  {
    var s' := settled + [e.cost];
    forall st | st in fv.visited
      ensures fv.best[st] <= s'[|s'| - 1]
    {
      if st != e.state {
        assert fr.best[st] <= settled[|settled| - 1];
      }
    }
  }

  /** Visiting a node state gives it the next rank: the expansion of it is ready to start. */
  lemma VisitKeeps(net: Net, fr: Frontier, fv: Frontier, rank: map<Place, nat>, tick: nat, p: Place, cost: real,
                   dist: (Point, Point) -> real)
    requires Ranked(fr, rank, tick) && At(p) !in fr.visited && At(p) in Universe(net)
    requires fv == fr.(queue := fv.queue, visited := fr.visited + {At(p)})
    requires Sound(net, fv, dist) && Queued(fv) && Priced(net, fv, dist) && At(p) in fv.best && fv.best[At(p)] == cost
    ensures Ready(net, fv, rank[p := tick], tick + 1, p, cost, dist)
  {
    var f, k :| f in net.levels && k in net.levels[f].nodes && At(p) == At(Place(f, k));
    assert Exists(net, p);
  }

  /** One more visited state leaves fewer unvisited ones. */
  lemma FewerUnvisited(u: set<State>, v: set<State>, st: State)
    requires st in u && st !in v
    ensures |u - (v + {st})| < |u - v|
  {
    assert u - (v + {st}) == (u - v) - {st};
  }

  /**
   * After expanding the just-visited node p at its best cost, the visited
   * nodes, p included, are closed under steps and settle in order.
   */
  lemma ExpandedClosed(net: Net, fv: Frontier, r: Frontier, old_vis: set<State>, p: Place, cost: real,
                       settled: seq<real>, dist: (Point, Point) -> real)
    requires CostsNonNegative(net) && IsEuclidean(dist)
    requires Extends(net, fv, r, cost) && fv.visited == old_vis + {At(p)} && At(p) in fv.best && fv.best[At(p)] == cost
    requires settled != [] && settled[|settled| - 1] == cost && Ordered(fv, settled)
    requires ClosedOn(net, fv, old_vis, dist)
    requires forall t, pr {:trigger Offered(net, r, p, cost, t, pr, dist)} ::
      Step(net, p, t, pr, dist) ==> Offered(net, r, p, cost, t, pr, dist)
    requires forall j {:trigger GoalOffered(net, r, cost, j)} :: EndAt(net, p, j) ==> GoalOffered(net, r, cost, j)
    ensures Ordered(r, settled) && Closed(net, r, dist)
  {
    ClosedMono(net, fv, r, cost, old_vis, dist);
    forall t, pr | Step(net, p, t, pr, dist)
      ensures Bound(r, At(t), r.best[At(p)] + StepCost(net, t, pr, dist))
    {
      assert Offered(net, r, p, cost, t, pr, dist);
      StepCostNonNegative(net, p, t, pr, dist);
      if At(t) in r.visited {
        assert fv.best[At(t)] <= cost;
      }
    }
    forall j | EndAt(net, p, j)
      ensures Bound(r, Goal, r.best[At(p)] + net.ends[j].dist)
    {
      assert GoalOffered(net, r, cost, j);
      if Goal in r.visited {
        assert fv.best[Goal] <= cost;
      }
    }
  }

  /**
   * Visiting the popped entry e: the goal is recorded as found at its
   * cost (no best cost is recorded before the goal is visited, so it
   * beats it); a node is ranked and expanded, which covers every step
   * from it and the goal from it.
   */
  method Settle(net: Net, dist: (Point, Point) -> real, fr: Frontier, found: bool, bestCost: Option<real>,
                ghost rank: map<Place, nat>, ghost tick: nat, ghost settled: seq<real>, e: Entry, rest: seq<Entry>,
                ghost m: nat)
    returns (fr': Frontier, found': bool, bestCost': Option<real>, ghost rank': map<Place, nat>, ghost tick': nat,
             ghost settled': seq<real>)
    requires NetOk(net) && IsEuclidean(dist)
    requires Searching(net, dist, fr, found, bestCost, rank, tick, settled)
    requires m < |fr.queue| && e == fr.queue[m] && rest == fr.queue[..m] + fr.queue[m + 1..]
    requires forall x :: x in fr.queue ==> !EntryBefore(x, e)
    requires e.state !in fr.visited
    ensures Searching(net, dist, fr', found', bestCost', rank', tick', settled')
    ensures fr'.visited == fr.visited + {e.state} && settled' == settled + [e.cost]
    ensures e.state.Goal? ==> found' && bestCost' == Some(e.cost)
    ensures e.state.At? ==>
      (forall t, pr {:trigger Offered(net, fr', e.state.place, e.cost, t, pr, dist)} ::
         Step(net, e.state.place, t, pr, dist) ==> Offered(net, fr', e.state.place, e.cost, t, pr, dist))
      && forall j {:trigger GoalOffered(net, fr', e.cost, j)} ::
           EndAt(net, e.state.place, j) ==> GoalOffered(net, fr', e.cost, j)
  {
    PopVisitKeeps(net, dist, fr, found, bestCost, rank, tick, settled, e, rest, m);
    var fv := fr.(queue := rest, visited := fr.visited + {e.state});
    settled' := settled + [e.cost];
    found', bestCost' := found, bestCost;
    rank', tick' := rank, tick;
    if e.state.Goal? {
      fr' := fv;
      if Beats(e.cost, bestCost) {
        bestCost' := Some(e.cost);
        found' := true;
      }
      GoalVisitKeeps(net, dist, fr, fv, found', bestCost', rank, tick, settled, e);
      return;
    }
    var p := e.state.place;
    VisitKeeps(net, fr, fv, rank, tick, p, e.cost, dist);
    rank' := rank[p := tick];
    tick' := tick + 1;
    fr' := Expand(net, fv, rank', tick', p, e.cost, dist);
    ExpandKeeps(net, dist, fr, fv, fr', found, bestCost, rank', tick', settled, p, e.cost);
  }

  /** Visiting the goal records it as found at its best cost. */
  lemma GoalVisitKeeps(net: Net, dist: (Point, Point) -> real, fr: Frontier, fv: Frontier, found: bool,
                       bestCost: Option<real>, rank: map<Place, nat>, tick: nat, settled: seq<real>, e: Entry)
    requires Searching(net, dist, fr, false, None, rank, tick, settled) && e.state == Goal && Goal !in fr.visited
    requires Goal in fr.best && fr.best[Goal] == e.cost
    requires fv == fr.(queue := fv.queue, visited := fr.visited + {Goal})
    requires Sound(net, fv, dist) && Queued(fv) && Priced(net, fv, dist) && StartsBound(net, fv)
    requires CostsNonNegative(net) ==>
      InOrder(settled + [e.cost], fv.queue) && Ordered(fv, settled + [e.cost]) && ClosedOn(net, fv, fr.visited, dist)
    requires found && bestCost == Some(e.cost)
    ensures Searching(net, dist, fv, found, bestCost, rank, tick, settled + [e.cost])
  {
    assert Ranked(fv, rank, tick) by {
      forall p
        ensures p in rank <==> At(p) in fv.visited
      {
        assert p in rank <==> At(p) in fr.visited;
      }
    }
    if CostsNonNegative(net) {
      assert ClosedOn(net, fv, fv.visited, dist) by {
        forall q, t, pr | At(q) in fv.visited && Step(net, q, t, pr, dist)
          ensures At(q) in fr.visited
        {
        }
      }
    }
  }

  /** Expanding the visited node p keeps the search invariant, with p ranked. */
  lemma ExpandKeeps(net: Net, dist: (Point, Point) -> real, fr: Frontier, fv: Frontier, r: Frontier, found: bool,
                    bestCost: Option<real>, rank: map<Place, nat>, tick: nat, settled: seq<real>, p: Place, cost: real)
    requires IsEuclidean(dist)
    requires (found <==> Goal in fr.visited) && (bestCost.Some? <==> Goal in fr.visited)
    requires Goal in fr.visited ==> Goal in fr.best && bestCost == Some(fr.best[Goal])
    requires At(p) !in fr.visited
    requires fv == fr.(queue := fv.queue, visited := fr.visited + {At(p)}) && At(p) in fv.best && fv.best[At(p)] == cost
    requires StartsBound(net, fv)
    requires CostsNonNegative(net) ==>
      InOrder(settled + [cost], fv.queue) && Ordered(fv, settled + [cost]) && ClosedOn(net, fv, fr.visited, dist)
    requires Ready(net, r, rank, tick, p, cost, dist) && Extends(net, fv, r, cost)
    requires forall t, pr {:trigger Offered(net, r, p, cost, t, pr, dist)} ::
      Step(net, p, t, pr, dist) ==> Offered(net, r, p, cost, t, pr, dist)
    requires forall j {:trigger GoalOffered(net, r, cost, j)} :: EndAt(net, p, j) ==> GoalOffered(net, r, cost, j)
    ensures Searching(net, dist, r, found, bestCost, rank, tick, settled + [cost])
  {
    CoveredMono(net, fv, r, cost);
    if Goal in fr.visited {
      assert r.best[Goal] == fv.best[Goal];
    }
    if CostsNonNegative(net) {
      ExtendsInOrder(net, fv, r, settled + [cost]);
      ExpandedClosed(net, fv, r, fr.visited, p, cost, settled + [cost], dist);
    }
  }

  /** c < best, where no best cost yet is infinity. */
  function Beats(c: real, best: Option<real>): bool
  {
    best.None? || c < best.value
  }

  /**
   * A sound, ranked frontier's predecessor chains descend in rank, and the
   * goal, once visited, was reached from an expanded end candidate.
   */
  lemma SettledChains(net: Net, fr: Frontier, rank: map<Place, nat>, tick: nat, dist: (Point, Point) -> real)
    requires Sound(net, fr, dist) && Ranked(fr, rank, tick)
    ensures Descending(fr.came, rank)
    ensures Goal in fr.visited ==> fr.came[Goal].Reached? && IsEnd(net, fr.came[Goal].prev) && fr.came[Goal].prev in rank
  {
    if Goal in fr.visited {
      assert PredOk(net, Goal, fr.came[Goal], dist);
    }
    forall p | At(p) in fr.came && p in rank
      ensures !fr.came[At(p)].Reached?
    {
      assert PredOk(net, At(p), fr.came[At(p)], dist);
    }
  }

  /** What the search promises once its queue is empty, from what holds between pops. */
  lemma SearchDone(net: Net, dist: (Point, Point) -> real, fr: Frontier, found: bool,
                   bestCost: Option<real>, rank: map<Place, nat>, tick: nat, settled: seq<real>)
    requires Searching(net, dist, fr, found, bestCost, rank, tick, settled) && fr.queue == []
    ensures Sound(net, fr, dist) && Descending(fr.came, rank) && forall p :: p in rank ==> At(p) in fr.visited
    ensures found <==> Goal in fr.visited
    ensures found ==> fr.came[Goal].Reached? && IsEnd(net, fr.came[Goal].prev) && fr.came[Goal].prev in rank
    ensures bestCost.Some? <==> found
    ensures found ==> Goal in fr.best && bestCost.value == fr.best[Goal]
    ensures forall st :: st in fr.best ==> st in fr.visited
    ensures Priced(net, fr, dist) && StartsBound(net, fr)
    ensures CostsNonNegative(net) ==> Closed(net, fr, dist) && Ascending(settled)
  {
    SettledChains(net, fr, rank, tick, dist);
    forall st | st in fr.best
      ensures st in fr.visited
    {
      assert QueuedAt(fr, st);
    }
  }

  /**
   * The search loop. Pops the cheapest entry, skips it when visited,
   * visits it; the goal is recorded as found, a node is expanded towards
   * the goal on the end floor, along its floor's edges and through the
   * lifts and stairs within reach. On return the queue is empty; every
   * state with a cost was visited, and its cost is its predecessor's plus
   * the step; the goal is found exactly when visited, reached from an
   * expanded end candidate at the recorded best cost; every start costs at
   * most its distance; and, when no cost is negative, states were settled
   * in order of cost and no step from a visited node leads to a cheaper
   * cost than the one recorded.
   */
  method Search(net: Net, dist: (Point, Point) -> real)
    returns (fr: Frontier, found: bool, bestCost: Option<real>, ghost rank: map<Place, nat>, ghost settled: seq<real>)
    requires NetOk(net) && IsEuclidean(dist)
    ensures Sound(net, fr, dist) && Descending(fr.came, rank) && fr.queue == []
    ensures forall p :: p in rank ==> At(p) in fr.visited
    ensures found <==> Goal in fr.visited
    ensures found ==> fr.came[Goal].Reached? && IsEnd(net, fr.came[Goal].prev) && fr.came[Goal].prev in rank
    ensures bestCost.Some? <==> found
    ensures found ==> Goal in fr.best && bestCost.value == fr.best[Goal]
    ensures forall st :: st in fr.best ==> st in fr.visited
    ensures Priced(net, fr, dist) && StartsBound(net, fr)
    ensures CostsNonNegative(net) ==> Closed(net, fr, dist) && Ascending(settled)
  {
    fr := Seed(net);
    SeededSound(net, dist);
    found := false;
    bestCost := None;
    rank := map[];
    ghost var tick: nat := 0;
    settled := [];
    while fr.queue != []
      invariant Searching(net, dist, fr, found, bestCost, rank, tick, settled)
      decreases |Universe(net) - fr.visited|, |fr.queue|
    {
      var e, rest, m := PopMin(fr.queue);
      if e.state in fr.visited {
        SkipKeeps(net, dist, fr, found, bestCost, rank, tick, settled, e, rest, m);
        fr := fr.(queue := rest);
        continue;
      }
      PopVisitKeeps(net, dist, fr, found, bestCost, rank, tick, settled, e, rest, m);
      FewerUnvisited(Universe(net), fr.visited, e.state);
      fr, found, bestCost, rank, tick, settled := Settle(net, dist, fr, found, bestCost, rank, tick, settled, e, rest, m);
    }
    SearchDone(net, dist, fr, found, bestCost, rank, tick, settled);
  }
}
