/**
 * The two searches over a grid: the flood fill `reachable_from_ctx` and the shortest-path
 * search `navigate_ctx`. Both see the grid through a tile classification
 * (`ContextInto<Traversable>`) that may depend on the tile, its position and a context.
 */
module Search {
  import opened Points
  import opened Directions
  import opened Wrappers
  import opened Grid
  import opened AStar

  /** A grid as a search sees it: every tile classified with one fixed context. */
  datatype Ground<!Tile, !Context> = Ground(m: Map<Tile>, classify: (Tile, Point, Context) -> Traversable, context: Context)
  {
    predicate Valid() {
      m.Valid()
    }

    /** How a search may treat the in-bounds point `p`: its tile classified at `p` in the caller's context. */
    function Class(p: Point): Traversable
      requires Valid() && m.InBounds(p)
    {
      classify(m.At(p), p, context)
    }

    /** A search may step onto `p`: it is on the grid and not Obstructed. */
    predicate Enterable(p: Point)
      requires Valid()
    {
      m.InBounds(p) && Class(p) != Obstructed
    }

    /** Taking `dirs` from `p` only ever steps onto enterable tiles (`p` itself is not checked). */
    ghost predicate Path(p: Point, dirs: seq<Direction>)
      requires Valid()
      decreases |dirs|
    {
      dirs == [] || (Enterable(Step(p, dirs[0])) && Path(Step(p, dirs[0]), dirs[1..]))
    }

    /**
     * How a flood fill spreads: taking `dirs` from `p` steps onto enterable tiles and
     * only ever leaves Free ones.
     */
    ghost predicate Spread(p: Point, dirs: seq<Direction>)
      requires Valid() && m.InBounds(p)
      decreases |dirs|
    {
      dirs == [] || (Class(p) == Free && Enterable(Step(p, dirs[0])) && Spread(Step(p, dirs[0]), dirs[1..]))
    }
  }

  /** The point reached from `p` by taking the steps `dirs` in order. */
  function Walk(p: Point, dirs: seq<Direction>): Point
    decreases |dirs|
  {
    if dirs == [] then p else Walk(Step(p, dirs[0]), dirs[1..])
  }

  /** Every point of a grid, as the set of the points its buffer positions stand for. */
  ghost function Cells<Tile>(m: Map<Tile>): set<Point> {
    set i | 0 <= i < m.Area() :: m.Index2Point(i)
  }

  lemma InCells<Tile>(m: Map<Tile>, p: Point)
    requires m.InBounds(p)
    ensures p in Cells(m)
  {
    PointIndexRoundTrip(m, p);
  }

  // ----------------------------------------------------------------------------------
  // Flood fill

  /**
   * The neighbour scan of `reachable_from_ctx`: the in-bounds orthogonal neighbours of
   * `p` whose bit is clear, in `Direction::iter` order.
   */
  method Unvisited<Tile>(m: Map<Tile>, visited: array<bool>, p: Point) returns (r: seq<Point>)
    requires visited.Length == m.Area()
    ensures forall q :: q in r <==> q in m.OrthogonalAdjacencies(p) && !visited[m.Point2Index(q)]
  {
    var adj := m.OrthogonalAdjacencies(p);
    r := [];
    for k := 0 to |adj|
      invariant forall q :: q in r ==> q in adj && !visited[m.Point2Index(q)]
      invariant forall i :: 0 <= i < k && !visited[m.Point2Index(adj[i])] ==> adj[i] in r
    {
      if !visited[m.Point2Index(adj[k])] {
        r := r + [adj[k]];
      }
    }
  }

  /** `parent` with each point of `pushed` now mapped to `i`. */
  ghost function Adopt(parent: map<Point, nat>, pushed: seq<Point>, i: nat): (r: map<Point, nat>)
    ensures forall q :: q in r <==> q in parent || q in pushed
    ensures forall q :: q in r ==> r[q] == if q in pushed then i else parent[q]
    decreases |pushed|
  {
    if pushed == [] then parent else Adopt(parent[pushed[0] := i], pushed[1..], i)
  }

  /** Some point before position `j` of `trace` is Free and next to `trace[j]`. */
  ghost predicate FedFromEarlier<Tile, Context>(ground: Ground<Tile, Context>, trace: seq<Point>, j: int)
    requires ground.Valid() && 0 <= j < |trace|
    requires forall k :: 0 <= k < |trace| ==> ground.m.InBounds(trace[k])
  {
    exists i :: 0 <= i < j && ground.Class(trace[i]) == Free && IsOrthogonalNeighbour(trace[i], trace[j])
  }

  /**
   * What holds of the points shown to the visitor so far: they are distinct and
   * enterable, the first is `start`, and `parent` names for each later one an earlier
   * Free neighbour it was queued from.
   */
  ghost predicate Traced<Tile, Context>(ground: Ground<Tile, Context>, start: Point, trace: seq<Point>, parent: map<Point, nat>)
    requires ground.Valid()
  {
    && (forall j :: 0 <= j < |trace| ==> ground.Enterable(trace[j]))
    && Distinct(trace)
    && (trace != [] ==> trace[0] == start)
    && (forall q :: q in parent ==>
          parent[q] < |trace| && ground.Class(trace[parent[q]]) == Free && IsOrthogonalNeighbour(trace[parent[q]], q))
    && (forall j :: 0 < j < |trace| ==> trace[j] in parent && parent[trace[j]] < j)
  }

  /** Every neighbour of a shown Free point is marked or queued. */
  ghost predicate Closed<Tile, Context>(ground: Ground<Tile, Context>, marked: set<Point>, queue: seq<Point>, trace: seq<Point>)
    requires ground.Valid() && forall p :: p in trace ==> ground.m.InBounds(p)
  {
    forall p, q :: p in trace && ground.Class(p) == Free && q in ground.m.OrthogonalAdjacencies(p) ==> q in marked || q in queue
  }

  /** The start is marked or queued, every other queued point has a parent, and an Obstructed start shows nothing. */
  ghost predicate Rooted<Tile, Context>(ground: Ground<Tile, Context>, start: Point, marked: set<Point>, queue: seq<Point>,
                                        trace: seq<Point>, parent: map<Point, nat>)
    requires ground.Valid() && ground.m.InBounds(start)
  {
    && (start in marked || start in queue)
    && (forall q :: q in queue && q != start ==> q in parent)
    && (ground.Class(start) == Obstructed ==> trace == [])
  }

  /**
   * The flood fill's state between two points taken off the queue: `marked` holds the
   * points whose bit is set; the marked points that are not Obstructed are exactly the
   * ones shown to the visitor; every neighbour of a shown Free point is marked or still
   * queued.
   */
  ghost predicate Filling<Tile, Context>(ground: Ground<Tile, Context>, start: Point, marked: set<Point>, queue: seq<Point>,
                                         trace: seq<Point>, parent: map<Point, nat>)
  {
    && ground.Valid()
    && ground.m.InBounds(start)
    && (forall p :: p in marked ==> ground.m.InBounds(p))
    && (forall p :: p in queue ==> ground.m.InBounds(p))
    && Traced(ground, start, trace, parent)
    && (forall p :: p in trace ==> p in marked)
    && (forall p :: p in marked && ground.Class(p) != Obstructed ==> p in trace)
    && Closed(ground, marked, queue, trace)
    && Rooted(ground, start, marked, queue, trace, parent)
  }

  /** A point that is already marked is dropped from the queue. */
  lemma FillingSkip<Tile, Context>(ground: Ground<Tile, Context>, start: Point, marked: set<Point>, queue: seq<Point>,
                                   trace: seq<Point>, parent: map<Point, nat>)
    requires Filling(ground, start, marked, queue, trace, parent)
    requires queue != [] && queue[0] in marked
    ensures Filling(ground, start, marked, queue[1..], trace, parent)
  {
    assert forall q :: q in queue ==> q == queue[0] || q in queue[1..];
  }

  /** An Obstructed point is marked and dropped. */
  lemma FillingBlocked<Tile, Context>(ground: Ground<Tile, Context>, start: Point, marked: set<Point>, queue: seq<Point>,
                                      trace: seq<Point>, parent: map<Point, nat>)
    requires Filling(ground, start, marked, queue, trace, parent)
    requires queue != [] && queue[0] !in marked && ground.Class(queue[0]) == Obstructed
    ensures Filling(ground, start, marked + {queue[0]}, queue[1..], trace, parent)
  {
    assert forall q :: q in queue ==> q == queue[0] || q in queue[1..];
  }

  /** Showing a new enterable point extends the trace. */
  lemma TracedStep<Tile, Context>(ground: Ground<Tile, Context>, start: Point, trace: seq<Point>, parent: map<Point, nat>, p: Point)
    requires ground.Valid() && Traced(ground, start, trace, parent)
    requires ground.Enterable(p) && p !in trace
    requires trace == [] ==> p == start
    requires trace != [] ==> p in parent
    ensures Traced(ground, start, trace + [p], parent)
  {
    var grown := trace + [p];
    DistinctConcat(trace, [p]);
    forall j | 0 <= j < |grown|
      ensures ground.Enterable(grown[j])
    {
      if j < |trace| {
        assert grown[j] == trace[j];
      }
    }
    forall q | q in parent
      ensures parent[q] < |grown| && grown[parent[q]] == trace[parent[q]]
    {
    }
    forall j | 0 < j < |grown|
      ensures grown[j] in parent && parent[grown[j]] < j
    {
      if j < |trace| {
        assert grown[j] == trace[j];
      }
    }
    AssembleTraced(ground, start, grown, parent);
  }

  /** Points queued from the last shown point, a Free one, take it as their parent. */
  lemma TracedAdopt<Tile, Context>(ground: Ground<Tile, Context>, start: Point, trace: seq<Point>, parent: map<Point, nat>,
                                   pushed: seq<Point>)
    requires ground.Valid() && Traced(ground, start, trace, parent)
    requires trace != [] && ground.Class(trace[|trace| - 1]) == Free
    requires forall q :: q in pushed ==> IsOrthogonalNeighbour(trace[|trace| - 1], q) && q !in trace
    ensures Traced(ground, start, trace, Adopt(parent, pushed, |trace| - 1))
  {
    AdoptParents(ground, trace, parent, pushed);
    AdoptKeepsTrace(trace, parent, pushed, |trace| - 1);
    AssembleTraced(ground, start, trace, Adopt(parent, pushed, |trace| - 1));
  }

  /** `Traced`, conjunct by conjunct. */
  lemma AssembleTraced<Tile, Context>(ground: Ground<Tile, Context>, start: Point, trace: seq<Point>, parent: map<Point, nat>)
    requires ground.Valid()
    requires forall j :: 0 <= j < |trace| ==> ground.Enterable(trace[j])
    requires Distinct(trace)
    requires trace != [] ==> trace[0] == start
    requires forall q :: q in parent ==>
      parent[q] < |trace| && ground.m.InBounds(trace[parent[q]]) && ground.Class(trace[parent[q]]) == Free && IsOrthogonalNeighbour(trace[parent[q]], q)
    requires forall j :: 0 < j < |trace| ==> trace[j] in parent && parent[trace[j]] < j
    ensures Traced(ground, start, trace, parent)
  {
  }

  /** Points adopted by the last point of the trace, a Free neighbour of each, have a Free neighbour as parent. */
  lemma AdoptParents<Tile, Context>(ground: Ground<Tile, Context>, trace: seq<Point>, parent: map<Point, nat>, pushed: seq<Point>)
    requires ground.Valid() && trace != [] && ground.Enterable(trace[|trace| - 1])
    requires ground.Class(trace[|trace| - 1]) == Free
    requires forall q :: q in parent ==>
      parent[q] < |trace| && ground.m.InBounds(trace[parent[q]]) && ground.Class(trace[parent[q]]) == Free && IsOrthogonalNeighbour(trace[parent[q]], q)
    requires forall q :: q in pushed ==> IsOrthogonalNeighbour(trace[|trace| - 1], q)
    ensures var adopted := Adopt(parent, pushed, |trace| - 1);
      forall q :: q in adopted ==>
        adopted[q] < |trace| && ground.m.InBounds(trace[adopted[q]]) && ground.Class(trace[adopted[q]]) == Free && IsOrthogonalNeighbour(trace[adopted[q]], q)
  {
    var i := |trace| - 1;
    var adopted := Adopt(parent, pushed, i);
    forall q | q in adopted
      ensures adopted[q] < |trace| && ground.m.InBounds(trace[adopted[q]])
      ensures ground.Class(trace[adopted[q]]) == Free && IsOrthogonalNeighbour(trace[adopted[q]], q)
    {
      if q in pushed {
        assert adopted[q] == i;
      } else {
        assert adopted[q] == parent[q];
      }
    }
  }

  /** Adopting points off the trace leaves the parent of every point on it as it was. */
  lemma AdoptKeepsTrace(trace: seq<Point>, parent: map<Point, nat>, pushed: seq<Point>, i: nat)
    requires forall j :: 0 < j < |trace| ==> trace[j] in parent && parent[trace[j]] < j
    requires forall q :: q in pushed ==> q !in trace
    ensures var adopted := Adopt(parent, pushed, i);
      forall j :: 0 < j < |trace| ==> trace[j] in adopted && adopted[trace[j]] < j
  {
    var adopted := Adopt(parent, pushed, i);
    forall j | 0 < j < |trace|
      ensures trace[j] in adopted && adopted[trace[j]] < j
    {
      assert trace[j] !in pushed;
    }
  }

  /** Marking and showing the head of the queue, and queueing its unmarked neighbours if it is Free, keeps `Closed`. */
  lemma ClosedVisit<Tile, Context>(ground: Ground<Tile, Context>, marked: set<Point>, queue: seq<Point>, trace: seq<Point>,
                                   pushed: seq<Point>)
    requires ground.Valid() && queue != [] && ground.m.InBounds(queue[0])
    requires forall p :: p in trace ==> ground.m.InBounds(p)
    requires Closed(ground, marked, queue, trace)
    requires ground.Class(queue[0]) == Free ==>
      forall q :: q in pushed <==> q in ground.m.OrthogonalAdjacencies(queue[0]) && q !in marked + {queue[0]}
    ensures Closed(ground, marked + {queue[0]}, queue[1..] + pushed, trace + [queue[0]])
  {
    assert forall q :: q in queue ==> q == queue[0] || q in queue[1..];
  }

  /** The same step keeps `Rooted`, with the queued neighbours adopted by the new point. */
  lemma RootedVisit<Tile, Context>(ground: Ground<Tile, Context>, start: Point, marked: set<Point>, queue: seq<Point>,
                                   trace: seq<Point>, parent: map<Point, nat>, pushed: seq<Point>)
    requires ground.Valid() && ground.m.InBounds(start) && queue != []
    requires Rooted(ground, start, marked, queue, trace, parent)
    requires ground.m.InBounds(queue[0]) && ground.Class(queue[0]) != Obstructed
    requires trace == [] ==> queue[0] == start
    ensures Rooted(ground, start, marked + {queue[0]}, queue[1..] + pushed, trace + [queue[0]], Adopt(parent, pushed, |trace|))
  {
    assert forall q :: q in queue ==> q == queue[0] || q in queue[1..];
  }

  /**
   * A new point that is not Obstructed is marked and shown; if it is Free, its unmarked
   * neighbours are queued with it as their parent.
   */
  lemma FillingVisit<Tile, Context>(ground: Ground<Tile, Context>, start: Point, marked: set<Point>, queue: seq<Point>,
                                    trace: seq<Point>, parent: map<Point, nat>, pushed: seq<Point>)
    requires Filling(ground, start, marked, queue, trace, parent)
    requires queue != [] && queue[0] !in marked && ground.Class(queue[0]) != Obstructed
    requires ground.Class(queue[0]) == Free ==>
      forall q :: q in pushed <==> q in ground.m.OrthogonalAdjacencies(queue[0]) && q !in marked + {queue[0]}
    requires ground.Class(queue[0]) == Halt ==> pushed == []
    requires forall q :: q in pushed ==> q in ground.m.OrthogonalAdjacencies(queue[0])
    ensures Filling(ground, start, marked + {queue[0]}, queue[1..] + pushed, trace + [queue[0]],
                    Adopt(parent, pushed, |trace|))
  {
    var p := queue[0];
    assert p in queue;
    assert p != start ==> p in parent && parent[p] < |trace|;
    assert trace != [] ==> p != start && p in parent;
    TracedStep(ground, start, trace, parent, p);
    if ground.Class(p) == Free {
      TracedAdopt(ground, start, trace + [p], parent, pushed);
    }
    ClosedVisit(ground, marked, queue, trace, pushed);
    RootedVisit(ground, start, marked, queue, trace, parent, pushed);
    MarkedVisit(ground, marked, queue, trace, pushed);
  }

  /** Showing the head of the queue, when the visitor then stops the fill, extends the trace. */
  lemma FillingStop<Tile, Context>(ground: Ground<Tile, Context>, start: Point, marked: set<Point>, queue: seq<Point>,
                                   trace: seq<Point>, parent: map<Point, nat>)
    requires Filling(ground, start, marked, queue, trace, parent)
    requires queue != [] && queue[0] !in marked && ground.Class(queue[0]) != Obstructed
    ensures Traced(ground, start, trace + [queue[0]], parent)
  {
    var p := queue[0];
    assert p in queue;
    assert p != start ==> p in parent && parent[p] < |trace|;
    TracedStep(ground, start, trace, parent, p);
  }

  /** The same step keeps every handled point on the grid and the shown points exactly the marked enterable ones. */
  lemma MarkedVisit<Tile, Context>(ground: Ground<Tile, Context>, marked: set<Point>, queue: seq<Point>, trace: seq<Point>,
                                   pushed: seq<Point>)
    requires ground.Valid() && queue != []
    requires forall p :: p in marked ==> ground.m.InBounds(p)
    requires forall p :: p in queue ==> ground.m.InBounds(p)
    requires forall p :: p in trace ==> p in marked
    requires forall p :: p in marked && ground.Class(p) != Obstructed ==> p in trace
    requires ground.Class(queue[0]) != Obstructed
    requires forall q :: q in pushed ==> q in ground.m.OrthogonalAdjacencies(queue[0])
    ensures forall p :: p in marked + {queue[0]} ==> ground.m.InBounds(p)
    ensures forall p :: p in queue[1..] + pushed ==> ground.m.InBounds(p)
    ensures forall p :: p in trace + [queue[0]] ==> p in marked + {queue[0]}
    ensures forall p :: p in marked + {queue[0]} && ground.Class(p) != Obstructed ==> p in trace + [queue[0]]
  {
    assert forall q :: q in queue[1..] ==> q in queue;
  }

  /** Each traced point after the first has an earlier Free neighbour it was queued from. */
  lemma TracedFromParents<Tile, Context>(ground: Ground<Tile, Context>, start: Point, trace: seq<Point>, parent: map<Point, nat>)
    requires ground.Valid() && Traced(ground, start, trace, parent)
    ensures forall j :: 0 < j < |trace| ==> FedFromEarlier(ground, trace, j)
  {
    forall j | 0 < j < |trace|
      ensures FedFromEarlier(ground, trace, j)
    {
      var i := parent[trace[j]];
      assert 0 <= i < j && ground.Class(trace[i]) == Free && IsOrthogonalNeighbour(trace[i], trace[j]);
    }
  }

  /**
   * Once the queue is empty, every point a flood could spread to from a traced point is
   * traced: a traced Free point had all its neighbours marked, and a marked point that
   * is not Obstructed was traced.
   */
  lemma {:induction false} SpreadCovered<Tile, Context>(ground: Ground<Tile, Context>, start: Point, marked: set<Point>,
                                                        trace: seq<Point>, parent: map<Point, nat>, p: Point, dirs: seq<Direction>)
    requires Filling(ground, start, marked, [], trace, parent)
    requires p in trace && ground.Spread(p, dirs)
    ensures Walk(p, dirs) in trace
    decreases |dirs|
  {
    if dirs != [] {
      var n := Step(p, dirs[0]);
      assert n in ground.m.OrthogonalAdjacencies(p);
      SpreadCovered(ground, start, marked, trace, parent, n, dirs[1..]);
    }
  }

  /**
   * What every run of the fill shows the visitor: distinct enterable points, starting
   * with `start` (nothing at all when `start` is Obstructed), each later one next to an
   * earlier Free one.
   */
  ghost predicate Flooded<Tile, Context>(ground: Ground<Tile, Context>, start: Point, trace: seq<Point>)
    requires ground.Valid() && ground.m.InBounds(start)
  {
    && (forall j :: 0 <= j < |trace| ==> ground.Enterable(trace[j]))
    && Distinct(trace)
    && (ground.Class(start) == Obstructed <==> trace == [])
    && (trace != [] ==> trace[0] == start)
    && (forall j :: 0 < j < |trace| ==> FedFromEarlier(ground, trace, j))
  }

  /** Every point a flood from `start` can spread to is in `trace`. */
  ghost predicate Covers<Tile, Context>(ground: Ground<Tile, Context>, start: Point, trace: seq<Point>)
    requires ground.Valid() && ground.m.InBounds(start)
  {
    forall dirs :: ground.Class(start) != Obstructed && ground.Spread(start, dirs) ==> Walk(start, dirs) in trace
  }

  /** The visitor returned false for each point of `shown`, given the points shown before it. */
  ghost predicate Declined<Tile>(m: Map<Tile>, visit: (seq<Point>, Point, Tile) -> bool, shown: seq<Point>)
    requires m.Valid() && forall j :: 0 <= j < |shown| ==> m.InBounds(shown[j])
  {
    forall j :: 0 <= j < |shown| ==> !visit(shown[..j], shown[j], m.At(shown[j]))
  }

  lemma DeclinedStep<Tile>(m: Map<Tile>, visit: (seq<Point>, Point, Tile) -> bool, shown: seq<Point>, p: Point)
    requires m.Valid() && (forall j :: 0 <= j < |shown| ==> m.InBounds(shown[j])) && m.InBounds(p)
    requires Declined(m, visit, shown) && !visit(shown, p, m.At(p))
    ensures Declined(m, visit, shown + [p])
  {
    assert (shown + [p])[..|shown|] == shown;
    assert forall j :: 0 <= j < |shown| ==> (shown + [p])[..j] == shown[..j];
  }

  lemma DeclinedPrefix<Tile>(m: Map<Tile>, visit: (seq<Point>, Point, Tile) -> bool, shown: seq<Point>)
    requires m.Valid() && (forall j :: 0 <= j < |shown| ==> m.InBounds(shown[j]))
    requires Declined(m, visit, shown) && shown != []
    ensures Declined(m, visit, shown[..|shown| - 1])
  {
    var init := shown[..|shown| - 1];
    assert forall j :: 0 <= j < |init| ==> init[..j] == shown[..j];
  }

  /** A fill stopped by the visitor has shown a trace with the parent structure. */
  lemma StoppedFlooded<Tile, Context>(ground: Ground<Tile, Context>, start: Point, trace: seq<Point>, parent: map<Point, nat>)
    requires ground.Valid() && ground.m.InBounds(start) && Traced(ground, start, trace, parent) && trace != []
    ensures Flooded(ground, start, trace)
  {
    TracedFromParents(ground, start, trace, parent);
  }

  /** A fill that ran until its queue was empty has shown every point it can reach. */
  lemma ExhaustedFlooded<Tile, Context>(ground: Ground<Tile, Context>, start: Point, marked: set<Point>, trace: seq<Point>,
                                        parent: map<Point, nat>)
    requires Filling(ground, start, marked, [], trace, parent)
    ensures Flooded(ground, start, trace) && Covers(ground, start, trace)
  {
    TracedFromParents(ground, start, trace, parent);
    if ground.Class(start) != Obstructed {
      assert start in trace;
    }
    forall dirs | ground.Class(start) != Obstructed && ground.Spread(start, dirs)
      ensures Walk(start, dirs) in trace
    {
      SpreadCovered(ground, start, marked, trace, parent, start, dirs);
    }
  }

  /** The bit set holds exactly the marked points, all of them on the grid. */
  ghost predicate Marks<Tile>(m: Map<Tile>, bits: seq<bool>, marked: set<Point>) {
    && |bits| == m.Area()
    && marked <= Cells(m)
    && forall i :: 0 <= i < |bits| ==> (bits[i] <==> m.Index2Point(i) in marked)
  }

  /** Setting the bit of an unmarked point marks it. */
  lemma MarkPoint<Tile>(m: Map<Tile>, bits: seq<bool>, marked: set<Point>, p: Point)
    requires Marks(m, bits, marked) && m.InBounds(p)
    ensures Marks(m, bits[m.Point2Index(p) := true], marked + {p})
    ensures bits[m.Point2Index(p)] <==> p in marked
  {
    PointIndexRoundTrip(m, p);
    InCells(m, p);
  }

  /** A point on the grid is marked exactly when its bit is set. */
  lemma MarkedBit<Tile>(m: Map<Tile>, bits: seq<bool>, marked: set<Point>, p: Point)
    requires Marks(m, bits, marked) && m.InBounds(p)
    ensures bits[m.Point2Index(p)] <==> p in marked
  {
    PointIndexRoundTrip(m, p);
  }

  /**
   * One turn of the loop of `reachable_from_ctx`: take the head of the queue and skip it
   * if its bit is set; otherwise handle it with `FloodVisit`.
   */
  method FloodStep<Tile, Context>(m: Map<Tile>, classify: (Tile, Point, Context) -> Traversable, context: Context,
                                  start: Point, visit: (seq<Point>, Point, Tile) -> bool, visited: array<bool>,
                                  queue: seq<Point>, trace: seq<Point>, ghost marked: set<Point>, ghost parent: map<Point, nat>)
    returns (queue': seq<Point>, trace': seq<Point>, stop: bool, ghost marked': set<Point>, ghost parent': map<Point, nat>)
    requires queue != [] && Marks(m, visited[..], marked)
    requires Filling(Ground(m, classify, context), start, marked, queue, trace, parent)
    requires Declined(m, visit, trace)
    modifies visited
    ensures Marks(m, visited[..], marked')
    ensures Cells(m) - marked' < Cells(m) - marked || (marked' == marked && |queue'| < |queue|)
    ensures !stop ==> Filling(Ground(m, classify, context), start, marked', queue', trace', parent') && Declined(m, visit, trace')
    ensures stop ==> && Flooded(Ground(m, classify, context), start, trace') && trace' != []
                     && Declined(m, visit, trace'[..|trace'| - 1])
                     && visit(trace'[..|trace'| - 1], trace'[|trace'| - 1], m.At(trace'[|trace'| - 1]))
  {
    var index := m.Point2Index(queue[0]);
    MarkedBit(m, visited[..], marked, queue[0]);
    if visited[index] {
      FillingSkip(Ground(m, classify, context), start, marked, queue, trace, parent);
      return queue[1..], trace, false, marked, parent;
    }
    queue', trace', stop, marked', parent' := FloodVisit(m, classify, context, start, visit, visited, queue, trace, marked, parent);
  }

  /**
   * The head of the queue has not been seen: set its bit, skip it if it is Obstructed,
   * show it to the visitor, and when the visitor does not stop the fill and the point is
   * Free, queue its neighbours whose bits are clear.
   */
  method FloodVisit<Tile, Context>(m: Map<Tile>, classify: (Tile, Point, Context) -> Traversable, context: Context,
                                   start: Point, visit: (seq<Point>, Point, Tile) -> bool, visited: array<bool>,
                                   queue: seq<Point>, trace: seq<Point>, ghost marked: set<Point>, ghost parent: map<Point, nat>)
    returns (queue': seq<Point>, trace': seq<Point>, stop: bool, ghost marked': set<Point>, ghost parent': map<Point, nat>)
    requires queue != [] && Marks(m, visited[..], marked)
    requires Filling(Ground(m, classify, context), start, marked, queue, trace, parent)
    requires Declined(m, visit, trace)
    requires queue[0] !in marked
    modifies visited
    ensures Marks(m, visited[..], marked') && marked' == marked + {queue[0]}
    ensures !stop ==> Filling(Ground(m, classify, context), start, marked', queue', trace', parent') && Declined(m, visit, trace')
    ensures stop ==> && Flooded(Ground(m, classify, context), start, trace') && trace' != []
                     && Declined(m, visit, trace'[..|trace'| - 1])
                     && visit(trace'[..|trace'| - 1], trace'[|trace'| - 1], m.At(trace'[|trace'| - 1]))
  {
    ghost var ground := Ground(m, classify, context);
    var point := queue[0];
    var index := m.Point2Index(point);
    MarkPoint(m, visited[..], marked, point);
    visited[index] := true;
    marked' := marked + {point};
    var traversable := classify(m.At(point), point, context);
    if traversable == Obstructed {
      FillingBlocked(ground, start, marked, queue, trace, parent);
      return queue[1..], trace, false, marked', parent;
    }
    stop := visit(trace, point, m.At(point));
    trace' := trace + [point];
    assert trace'[..|trace'| - 1] == trace;
    if stop {
      FillingStop(ground, start, marked, queue, trace, parent);
      StoppedFlooded(ground, start, trace', parent);
      return queue, trace', stop, marked', parent;
    }
    var pushed := [];
    if traversable == Free {
      pushed := Unvisited(m, visited, point);
      forall q | q in m.OrthogonalAdjacencies(point)
        ensures visited[m.Point2Index(q)] <==> q in marked'
      {
        MarkedBit(m, visited[..], marked', q);
      }
    }
    FillingVisit(ground, start, marked, queue, trace, parent, pushed);
    DeclinedStep(m, visit, trace, point);
    parent' := Adopt(parent, pushed, |trace|);
    queue' := queue[1..] + pushed;
  }

  /**
   * `reachable_from_ctx`: a breadth-first flood fill from `start`. Each point is handled
   * once; Obstructed points are skipped, every other point is shown to `visit` (which
   * also sees the points shown before it), and only Free points pass the flood on to
   * their neighbours. When `visit` returns true the fill stops. The result is the
   * sequence of points shown to `visit`.
   */
  method ReachableFrom<Tile, Context>(m: Map<Tile>, classify: (Tile, Point, Context) -> Traversable, context: Context,
                                      start: Point, visit: (seq<Point>, Point, Tile) -> bool)
    returns (trace: seq<Point>)
    requires m.Valid() && m.NonNegative() && m.InBounds(start)
    ensures Flooded(Ground(m, classify, context), start, trace)
    ensures trace != [] ==> Declined(m, visit, trace[..|trace| - 1])
    ensures trace == [] || !visit(trace[..|trace| - 1], trace[|trace| - 1], m.At(trace[|trace| - 1])) ==>
      Covers(Ground(m, classify, context), start, trace)
  {
    var visited := new bool[|m.tiles|](_ => false);
    var queue := [start];
    trace := [];
    ghost var marked: set<Point> := {};
    ghost var parent: map<Point, nat> := map[];
    while queue != []
      invariant Marks(m, visited[..], marked)
      invariant Filling(Ground(m, classify, context), start, marked, queue, trace, parent)
      invariant Declined(m, visit, trace)
      decreases Cells(m) - marked, |queue|
    {
      var stop;
      queue, trace, stop, marked, parent := FloodStep(m, classify, context, start, visit, visited, queue, trace, marked, parent);
      if stop {
        return;
      }
    }
    ExhaustedFlooded(Ground(m, classify, context), start, marked, trace, parent);
    if trace != [] {
      DeclinedPrefix(m, visit, trace);
    }
  }

  // ----------------------------------------------------------------------------------
  // Shortest path

  /** Taking `dirs` from `from` stays on enterable tiles and ends at `to`. */
  ghost predicate Route<Tile, Context>(ground: Ground<Tile, Context>, from: Point, dirs: seq<Direction>, to: Point)
    requires ground.Valid()
  {
    ground.Path(from, dirs) && Walk(from, dirs) == to
  }

  /** Each unit step changes the Manhattan distance from the start by at most one. */
  lemma {:induction false} PathLength(p: Point, dirs: seq<Direction>)
    ensures Walk(p, dirs).Sub(p).Manhattan() <= |dirs|
    decreases |dirs|
  {
    if dirs != [] {
      var q := Step(p, dirs[0]);
      PathLength(q, dirs[1..]);
      assert Walk(p, dirs) == Walk(q, dirs[1..]);
    }
  }

  /**
   * `BinaryHeap::pop`: take out the greatest entry under `AStarNode`'s order, which is a
   * cheapest one.
   */
  method PopGreatest(open: seq<AStarNode>, cmp: (Point, Point) -> Ordering) returns (top: AStarNode, rest: seq<AStarNode>)
    requires open != [] && IsTotalOrder(cmp)
    ensures multiset(open) == multiset(rest) + multiset{top}
    ensures forall o :: o in open ==> Cmp(o, top, cmp) != Greater
    ensures forall o :: o in open ==> top.cost <= o.cost
  {
    var best := Greatest(open, cmp);
    top := open[best];
    rest := open[..best] + open[best + 1..];
    assert open == open[..best] + [top] + open[best + 1..];
  }

  /** The position of a greatest entry: the heap's sift keeps it at the root. */
  method Greatest(open: seq<AStarNode>, cmp: (Point, Point) -> Ordering) returns (best: nat)
    requires open != [] && IsTotalOrder(cmp)
    ensures best < |open|
    ensures forall i :: 0 <= i < |open| ==> Cmp(open[i], open[best], cmp) != Greater
  {
    best := 0;
    for k := 1 to |open|
      invariant best < |open|
      invariant forall i :: 0 <= i < k ==> Cmp(open[i], open[best], cmp) != Greater
    {
      if Cmp(open[k], open[best], cmp) == Greater {
        forall i | 0 <= i < k
          ensures Cmp(open[i], open[k], cmp) != Greater
        {
          if Cmp(open[i], open[k], cmp) == Greater {
            CmpTransitive(open[best], open[k], open[i], cmp);
          }
        }
        best := k;
      }
    }
  }

  /** Some queued entry is at `p`: the test that keeps a point from being queued twice. */
  predicate HasPosition(open: seq<AStarNode>, p: Point) {
    exists o :: o in open && o.position == p
  }

  /** Every queued entry is costed as `cheapest` records, and none is cheaper than `level`. */
  ghost predicate Costed(open: seq<AStarNode>, cheapest: map<Point, nat>, level: nat) {
    forall o :: o in open ==> o.position in cheapest && cheapest[o.position] == o.cost && level <= o.cost
  }

  /** Every enterable neighbour of a closed point has been reached, at most one step dearer. */
  ghost predicate Expanded<Tile, Context>(ground: Ground<Tile, Context>, cheapest: map<Point, nat>, closed: set<Point>)
    requires ground.Valid() && closed <= cheapest.Keys
  {
    forall u, d :: u in closed && ground.Enterable(Step(u, d)) ==>
      Step(u, d) in cheapest && cheapest[Step(u, d)] <= cheapest[u] + 1
  }

  /** `cameFrom[p] == back`: one step in direction `back.0` from `back.1` enters `p`, one step dearer. */
  ghost predicate Link<Tile, Context>(ground: Ground<Tile, Context>, cheapest: map<Point, nat>, p: Point, back: (Direction, Point))
    requires ground.Valid()
  {
    && p in cheapest && back.1 in cheapest
    && Step(back.1, back.0) == p && ground.Enterable(p)
    && cheapest[p] == cheapest[back.1] + 1
  }

  /** Every reached point other than `from` links back to a reached predecessor. */
  ghost predicate Linked<Tile, Context>(ground: Ground<Tile, Context>, from: Point, cameFrom: map<Point, (Direction, Point)>,
                                        cheapest: map<Point, nat>)
    requires ground.Valid()
  {
    && from !in cameFrom
    && (forall p :: p in cheapest && p != from ==> p in cameFrom)
    && (forall p :: p in cameFrom ==> Link(ground, cheapest, p, cameFrom[p]))
  }

  /**
   * The state of `navigate_ctx` between two pops: `cheapest` records the cost of the
   * best known path to each reached point, at most one above `level`, the cost of the
   * last expanded entry; every reached point is closed (expanded) or queued at that cost;
   * `to` has not been closed.
   */
  ghost predicate Searching<Tile, Context>(ground: Ground<Tile, Context>, from: Point, to: Point, open: seq<AStarNode>,
                                           cameFrom: map<Point, (Direction, Point)>, cheapest: map<Point, nat>,
                                           closed: set<Point>, level: nat)
  {
    && ground.Valid()
    && from in cheapest && cheapest[from] == 0
    && Costed(open, cheapest, level)
    && (forall p :: p in cheapest ==> cheapest[p] <= level + 1)
    && closed <= cheapest.Keys && to !in closed
    && (forall p :: p in cheapest ==> p in closed || AStarNode(cheapest[p], p) in open)
    && Expanded(ground, cheapest, closed)
    && Linked(ground, from, cameFrom, cheapest)
  }

  /**
   * The state while the neighbours of `u` (popped at cost `c`) are relaxed: as in
   * `Searching`, except that `u` is neither closed nor queued, and only its neighbours
   * in the directions `done` are known to be reached.
   */
  ghost predicate Expanding<Tile, Context>(ground: Ground<Tile, Context>, from: Point, to: Point, open: seq<AStarNode>,
                                           cameFrom: map<Point, (Direction, Point)>, cheapest: map<Point, nat>,
                                           closed: set<Point>, u: Point, c: nat, done: set<Direction>)
  {
    && ground.Valid()
    && from in cheapest && cheapest[from] == 0
    && u in cheapest && cheapest[u] == c && u != to
    && Costed(open, cheapest, c)
    && (forall p :: p in cheapest ==> cheapest[p] <= c + 1)
    && closed <= cheapest.Keys && to !in closed
    && (forall p :: p in cheapest ==> p == u || p in closed || AStarNode(cheapest[p], p) in open)
    && Expanded(ground, cheapest, closed)
    && Linked(ground, from, cameFrom, cheapest)
    && (forall d :: d in done && ground.Enterable(Step(u, d)) ==> Step(u, d) in cheapest && cheapest[Step(u, d)] <= c + 1)
  }

  /** Popping a cheapest entry that is not `to` starts its expansion. */
  lemma StartExpanding<Tile, Context>(ground: Ground<Tile, Context>, from: Point, to: Point, open: seq<AStarNode>,
                                      cameFrom: map<Point, (Direction, Point)>, cheapest: map<Point, nat>,
                                      closed: set<Point>, level: nat, top: AStarNode, rest: seq<AStarNode>)
    requires Searching(ground, from, to, open, cameFrom, cheapest, closed, level)
    requires multiset(open) == multiset(rest) + multiset{top}
    requires forall o :: o in open ==> top.cost <= o.cost
    requires top.position != to
    ensures Expanding(ground, from, to, rest, cameFrom, cheapest, closed, top.position, top.cost, {})
  {
    assert top in multiset(open);
    forall o | o in rest
      ensures o in open
    {
      assert o in multiset(rest);
      assert o in multiset(open);
    }
    forall p | p in cheapest && p != top.position && p !in closed
      ensures AStarNode(cheapest[p], p) in rest
    {
      assert AStarNode(cheapest[p], p) in multiset(open);
    }
  }

  /** Once every direction has been relaxed, `u` is closed and the search is between pops again. */
  lemma FinishExpanding<Tile, Context>(ground: Ground<Tile, Context>, from: Point, to: Point, open: seq<AStarNode>,
                                       cameFrom: map<Point, (Direction, Point)>, cheapest: map<Point, nat>,
                                       closed: set<Point>, u: Point, c: nat, done: set<Direction>)
    requires Expanding(ground, from, to, open, cameFrom, cheapest, closed, u, c, done)
    requires forall d: Direction :: d in done
    ensures Searching(ground, from, to, open, cameFrom, cheapest, closed + {u}, c)
  {
  }

  /**
   * One direction of the expansion of `u` (popped at cost `c`): an enterable neighbour
   * reached more cheaply than before gets `u` as its predecessor, its new cost and cost
   * guess, and is queued unless an entry for it is queued already.
   */
  method Relax<Tile, Context>(m: Map<Tile>, classify: (Tile, Point, Context) -> Traversable, context: Context,
                              from: Point, to: Point, u: Point, c: nat, d: Direction, open: seq<AStarNode>,
                              cameFrom: map<Point, (Direction, Point)>, cheapest: map<Point, nat>, guess: map<Point, nat>,
                              ghost closed: set<Point>, ghost done: set<Direction>)
    returns (open': seq<AStarNode>, cameFrom': map<Point, (Direction, Point)>, cheapest': map<Point, nat>, guess': map<Point, nat>)
    requires Expanding(Ground(m, classify, context), from, to, open, cameFrom, cheapest, closed, u, c, done)
    ensures Expanding(Ground(m, classify, context), from, to, open', cameFrom', cheapest', closed, u, c, done + {d})
    ensures cheapest.Keys <= cheapest'.Keys
    ensures open' == open || Cells(m) - cheapest'.Keys < Cells(m) - cheapest.Keys
  {
    ghost var ground := Ground(m, classify, context);
    open', cameFrom', cheapest', guess' := open, cameFrom, cheapest, guess;
    var neighbor := Step(u, d);
    var tentative := c + 1;
    if
      && m.InBounds(neighbor)
      && classify(m.At(neighbor), neighbor, context) != Obstructed
      && (neighbor !in cheapest || tentative < cheapest[neighbor])
    {
      RelaxReach(ground, from, to, open, cameFrom, cheapest, closed, u, c, done, d);
      cameFrom' := cameFrom[neighbor := (d, u)];
      cheapest' := cheapest[neighbor := tentative];
      guess' := guess[neighbor := tentative + to.Sub(neighbor).Manhattan()];
      if !HasPosition(open, neighbor) {
        open' := open + [AStarNode(tentative, neighbor)];
      }
      InCells(m, neighbor);
    } else {
      RelaxSkip(ground, from, to, open, cameFrom, cheapest, closed, u, c, done, d);
    }
  }

  /** A neighbour that cannot be entered, or is reached already, leaves the state as it is. */
  lemma RelaxSkip<Tile, Context>(ground: Ground<Tile, Context>, from: Point, to: Point, open: seq<AStarNode>,
                                 cameFrom: map<Point, (Direction, Point)>, cheapest: map<Point, nat>,
                                 closed: set<Point>, u: Point, c: nat, done: set<Direction>, d: Direction)
    requires Expanding(ground, from, to, open, cameFrom, cheapest, closed, u, c, done)
    requires ground.Enterable(Step(u, d)) ==> Step(u, d) in cheapest
    ensures Expanding(ground, from, to, open, cameFrom, cheapest, closed, u, c, done + {d})
  {
  }

  /**
   * A neighbour that can be entered and is cheaper through `u` is one not reached
   * before; recording it and queueing it keeps the invariant.
   */
  lemma RelaxReach<Tile, Context>(ground: Ground<Tile, Context>, from: Point, to: Point, open: seq<AStarNode>,
                                  cameFrom: map<Point, (Direction, Point)>, cheapest: map<Point, nat>,
                                  closed: set<Point>, u: Point, c: nat, done: set<Direction>, d: Direction)
    requires Expanding(ground, from, to, open, cameFrom, cheapest, closed, u, c, done)
    requires ground.Enterable(Step(u, d))
    requires Step(u, d) !in cheapest || c + 1 < cheapest[Step(u, d)]
    ensures Step(u, d) !in cheapest && !HasPosition(open, Step(u, d))
    ensures var n := Step(u, d);
      Expanding(ground, from, to, open + [AStarNode(c + 1, n)], cameFrom[n := (d, u)], cheapest[n := c + 1], closed, u, c, done + {d})
  {
    var n := Step(u, d);
    GrowCosted(open, cheapest, c, n);
    GrowExpanded(ground, cheapest, closed, n, c + 1);
    GrowLinked(ground, from, cameFrom, cheapest, u, d);
    GrowQueued(open, cheapest, closed, u, c, n);
    GrowDone(ground, cheapest, u, c, done, d);
    AssembleExpanding(ground, from, to, open + [AStarNode(c + 1, n)], cameFrom[n := (d, u)], cheapest[n := c + 1], closed, u, c, done + {d});
  }

  /** `Expanding`, conjunct by conjunct. */
  lemma AssembleExpanding<Tile, Context>(ground: Ground<Tile, Context>, from: Point, to: Point, open: seq<AStarNode>,
                                         cameFrom: map<Point, (Direction, Point)>, cheapest: map<Point, nat>,
                                         closed: set<Point>, u: Point, c: nat, done: set<Direction>)
    requires ground.Valid()
    requires from in cheapest && cheapest[from] == 0
    requires u in cheapest && cheapest[u] == c && u != to
    requires Costed(open, cheapest, c)
    requires forall p :: p in cheapest ==> cheapest[p] <= c + 1
    requires closed <= cheapest.Keys && to !in closed
    requires forall p :: p in cheapest ==> p == u || p in closed || AStarNode(cheapest[p], p) in open
    requires Expanded(ground, cheapest, closed)
    requires Linked(ground, from, cameFrom, cheapest)
    requires forall d :: d in done && ground.Enterable(Step(u, d)) ==> Step(u, d) in cheapest && cheapest[Step(u, d)] <= c + 1
    ensures Expanding(ground, from, to, open, cameFrom, cheapest, closed, u, c, done)
  {
  }

  /** Recording `n` at cost `c + 1` and queueing it keeps every reached point bounded and closed, queued or `u`. */
  lemma GrowQueued(open: seq<AStarNode>, cheapest: map<Point, nat>, closed: set<Point>, u: Point, c: nat, n: Point)
    requires forall p :: p in cheapest ==> cheapest[p] <= c + 1
    requires forall p :: p in cheapest ==> p == u || p in closed || AStarNode(cheapest[p], p) in open
    ensures var cheapest' := cheapest[n := c + 1]; forall p :: p in cheapest' ==> cheapest'[p] <= c + 1
    ensures var cheapest', open' := cheapest[n := c + 1], open + [AStarNode(c + 1, n)];
      forall p :: p in cheapest' ==> p == u || p in closed || AStarNode(cheapest'[p], p) in open'
  {
  }

  /** Recording the neighbour in direction `d` at cost `c + 1` adds `d` to the directions done. */
  lemma GrowDone<Tile, Context>(ground: Ground<Tile, Context>, cheapest: map<Point, nat>, u: Point, c: nat,
                                done: set<Direction>, d: Direction)
    requires ground.Valid()
    requires forall e :: e in done && ground.Enterable(Step(u, e)) ==> Step(u, e) in cheapest && cheapest[Step(u, e)] <= c + 1
    ensures var cheapest' := cheapest[Step(u, d) := c + 1];
      forall e :: e in done + {d} && ground.Enterable(Step(u, e)) ==> Step(u, e) in cheapest' && cheapest'[Step(u, e)] <= c + 1
  {
  }

  /** A point not reached before is not queued; queueing it at cost `c + 1` keeps the costs recorded. */
  lemma GrowCosted(open: seq<AStarNode>, cheapest: map<Point, nat>, c: nat, n: Point)
    requires Costed(open, cheapest, c) && n !in cheapest
    ensures !HasPosition(open, n)
    ensures Costed(open + [AStarNode(c + 1, n)], cheapest[n := c + 1], c)
  {
  }

  /** Recording a point not reached before changes no recorded cost. */
  lemma GrowExpanded<Tile, Context>(ground: Ground<Tile, Context>, cheapest: map<Point, nat>, closed: set<Point>, n: Point, v: nat)
    requires ground.Valid() && closed <= cheapest.Keys && Expanded(ground, cheapest, closed) && n !in cheapest
    ensures Expanded(ground, cheapest[n := v], closed)
  {
  }

  /** A point first reached from `u` links back to it. */
  lemma GrowLinked<Tile, Context>(ground: Ground<Tile, Context>, from: Point, cameFrom: map<Point, (Direction, Point)>,
                                  cheapest: map<Point, nat>, u: Point, d: Direction)
    requires ground.Valid() && Linked(ground, from, cameFrom, cheapest)
    requires from in cheapest && u in cheapest
    requires Step(u, d) !in cheapest && ground.Enterable(Step(u, d))
    ensures Linked(ground, from, cameFrom[Step(u, d) := (d, u)], cheapest[Step(u, d) := cheapest[u] + 1])
  {
    var n := Step(u, d);
    var cameFrom', cheapest' := cameFrom[n := (d, u)], cheapest[n := cheapest[u] + 1];
    forall p | p in cameFrom'
      ensures Link(ground, cheapest', p, cameFrom'[p])
    {
      if p != n {
        assert Link(ground, cheapest, p, cameFrom[p]);
      }
    }
  }

  /** The expansion of a popped entry: relax its neighbours in `Direction::iter` order, then close it. */
  method Expand<Tile, Context>(m: Map<Tile>, classify: (Tile, Point, Context) -> Traversable, context: Context,
                               from: Point, to: Point, top: AStarNode, open: seq<AStarNode>,
                               cameFrom: map<Point, (Direction, Point)>, cheapest: map<Point, nat>, guess: map<Point, nat>,
                               ghost closed: set<Point>)
    returns (open': seq<AStarNode>, cameFrom': map<Point, (Direction, Point)>, cheapest': map<Point, nat>, guess': map<Point, nat>)
    requires Expanding(Ground(m, classify, context), from, to, open, cameFrom, cheapest, closed, top.position, top.cost, {})
    ensures Searching(Ground(m, classify, context), from, to, open', cameFrom', cheapest', closed + {top.position}, top.cost)
    ensures cheapest.Keys <= cheapest'.Keys
    ensures open' == open || Cells(m) - cheapest'.Keys < Cells(m) - cheapest.Keys
  {
    var directions := Iter();
    open', cameFrom', cheapest', guess' := open, cameFrom, cheapest, guess;
    ghost var done: set<Direction> := {};
    for k := 0 to |directions|
      invariant Expanding(Ground(m, classify, context), from, to, open', cameFrom', cheapest', closed, top.position, top.cost, done)
      invariant forall j :: 0 <= j < k ==> directions[j] in done
      invariant cheapest.Keys <= cheapest'.Keys
      invariant open' == open || Cells(m) - cheapest'.Keys < Cells(m) - cheapest.Keys
    {
      open', cameFrom', cheapest', guess' :=
        Relax(m, classify, context, from, to, top.position, top.cost, directions[k], open', cameFrom', cheapest', guess', closed, done);
      done := done + {directions[k]};
    }
    forall d: Direction
      ensures d in done
    {
      assert d in directions;
    }
    FinishExpanding(Ground(m, classify, context), from, to, open', cameFrom', cheapest', closed, top.position, top.cost, done);
  }

  /**
   * Any path from a reached point `s` whose end is not closed passes a queued entry no
   * dearer than the cost of `s` plus the length of the path: the search never loses
   * sight of an unfinished path.
   */
  lemma {:induction false} Frontier<Tile, Context>(ground: Ground<Tile, Context>, cheapest: map<Point, nat>, closed: set<Point>,
                                                   open: seq<AStarNode>, s: Point, dirs: seq<Direction>, a: nat)
    requires ground.Valid() && closed <= cheapest.Keys
    requires Expanded(ground, cheapest, closed)
    requires forall p :: p in cheapest ==> p in closed || AStarNode(cheapest[p], p) in open
    requires s in cheapest && cheapest[s] <= a
    requires ground.Path(s, dirs) && Walk(s, dirs) !in closed
    ensures exists o :: o in open && o.cost <= a + |dirs|
    decreases |dirs|
  {
    if s !in closed {
      assert AStarNode(cheapest[s], s) in open;
    } else {
      var next := Step(s, dirs[0]);
      assert Walk(s, dirs) == Walk(next, dirs[1..]);
      Frontier(ground, cheapest, closed, open, next, dirs[1..], a + 1);
    }
  }

  /** When a cheapest entry is `to`, its cost is the length of a shortest route. */
  lemma Optimal<Tile, Context>(ground: Ground<Tile, Context>, from: Point, to: Point, open: seq<AStarNode>,
                               cameFrom: map<Point, (Direction, Point)>, cheapest: map<Point, nat>,
                               closed: set<Point>, level: nat, top: AStarNode)
    requires Searching(ground, from, to, open, cameFrom, cheapest, closed, level)
    requires top in open && top.position == to
    requires forall o :: o in open ==> top.cost <= o.cost
    ensures to in cheapest
    ensures forall dirs :: Route(ground, from, dirs, to) ==> cheapest[to] <= |dirs|
  {
    forall dirs | Route(ground, from, dirs, to)
      ensures cheapest[to] <= |dirs|
    {
      Frontier(ground, cheapest, closed, open, from, dirs, 0);
    }
  }

  /** When the heap runs empty, `to` is unreachable. */
  lemma Unreachable<Tile, Context>(ground: Ground<Tile, Context>, from: Point, to: Point,
                                   cameFrom: map<Point, (Direction, Point)>, cheapest: map<Point, nat>,
                                   closed: set<Point>, level: nat)
    requires Searching(ground, from, to, [], cameFrom, cheapest, closed, level)
    ensures forall dirs :: !Route(ground, from, dirs, to)
  {
    forall dirs | Route(ground, from, dirs, to)
      ensures false
    {
      Frontier(ground, cheapest, closed, [], from, dirs, 0);
    }
  }

  /**
   * The path reconstruction of `navigate_ctx`: follow (and remove) the `cameFrom` links
   * back from `to` until a point without one, collecting the directions. The source
   * pushes each direction and reverses at the end; prepending gives the same sequence.
   */
  method Reconstruct<Tile, Context>(ghost ground: Ground<Tile, Context>, from: Point, to: Point,
                                    cameFrom: map<Point, (Direction, Point)>, ghost cheapest: map<Point, nat>)
    returns (path: seq<Direction>)
    requires ground.Valid() && Linked(ground, from, cameFrom, cheapest) && to in cheapest
    requires from in cheapest && cheapest[from] == 0
    ensures Route(ground, from, path, to) && |path| == cheapest[to]
  {
    var current := to;
    var links := cameFrom;
    path := [];
    while current in links
      invariant current in cheapest
      invariant forall p :: p in links ==> p in cameFrom && links[p] == cameFrom[p]
      invariant forall p :: p in cameFrom && p !in links ==> cheapest[p] > cheapest[current]
      invariant Route(ground, current, path, to)
      invariant |path| + cheapest[current] == cheapest[to]
      decreases cheapest[current]
    {
      var (direction, predecessor) := links[current];
      assert Link(ground, cheapest, current, cameFrom[current]);
      links := links - {current};
      RouteCons(ground, predecessor, direction, path, to);
      current := predecessor;
      path := [direction] + path;
    }
    assert current !in cameFrom;
  }

  /** A step onto an enterable tile followed by a route is a route. */
  lemma RouteCons<Tile, Context>(ground: Ground<Tile, Context>, p: Point, d: Direction, path: seq<Direction>, to: Point)
    requires ground.Valid() && ground.Enterable(Step(p, d)) && Route(ground, Step(p, d), path, to)
    ensures Route(ground, p, [d] + path, to)
  {
    assert ([d] + path)[1..] == path;
  }

  /**
   * The popped entry is `to`: its recorded cost is the length of a shortest route, and
   * following `came_from` back from it spells one.
   */
  method Arrive<Tile, Context>(ghost ground: Ground<Tile, Context>, from: Point, to: Point, ghost open: seq<AStarNode>,
                               cameFrom: map<Point, (Direction, Point)>, ghost cheapest: map<Point, nat>,
                               ghost closed: set<Point>, ghost level: nat, ghost top: AStarNode)
    returns (path: seq<Direction>)
    requires Searching(ground, from, to, open, cameFrom, cheapest, closed, level)
    requires top in open && top.position == to
    requires forall o :: o in open ==> top.cost <= o.cost
    ensures Route(ground, from, path, to)
    ensures |path| >= to.Sub(from).Manhattan()
    ensures forall dirs :: Route(ground, from, dirs, to) ==> |path| <= |dirs|
  {
    Optimal(ground, from, to, open, cameFrom, cheapest, closed, level, top);
    path := Reconstruct(ground, from, to, cameFrom, cheapest);
    PathLength(from, path);
  }

  /**
   * The popped entry is not `to`: expanding it closes its point, and either reaches a
   * new point or leaves the queue shorter.
   */
  method ExpandTop<Tile, Context>(m: Map<Tile>, classify: (Tile, Point, Context) -> Traversable, context: Context,
                                  from: Point, to: Point, ghost open: seq<AStarNode>, top: AStarNode, rest: seq<AStarNode>,
                                  cameFrom: map<Point, (Direction, Point)>, cheapest: map<Point, nat>, guess: map<Point, nat>,
                                  ghost closed: set<Point>, ghost level: nat)
    returns (open': seq<AStarNode>, cameFrom': map<Point, (Direction, Point)>, cheapest': map<Point, nat>, guess': map<Point, nat>)
    requires Searching(Ground(m, classify, context), from, to, open, cameFrom, cheapest, closed, level)
    requires multiset(open) == multiset(rest) + multiset{top}
    requires forall o :: o in open ==> top.cost <= o.cost
    requires top.position != to
    ensures Searching(Ground(m, classify, context), from, to, open', cameFrom', cheapest', closed + {top.position}, top.cost)
    ensures Cells(m) - cheapest'.Keys < Cells(m) - cheapest.Keys
      || (Cells(m) - cheapest'.Keys == Cells(m) - cheapest.Keys && |open'| < |open|)
  {
    StartExpanding(Ground(m, classify, context), from, to, open, cameFrom, cheapest, closed, level, top, rest);
    assert |rest| < |open| by {
      assert |multiset(open)| == |multiset(rest)| + 1;
    }
    open', cameFrom', cheapest', guess' := Expand(m, classify, context, from, to, top, rest, cameFrom, cheapest, guess, closed);
  }

  /**
   * `navigate_ctx`: a shortest route from `from` to `to` that steps only onto in-bounds,
   * non-Obstructed tiles (Free and Halt alike), or `None` when there is none. The heap is
   * keyed on the cost so far alone, so the search is uniform-cost; the cost guesses it
   * records are never read.
   */
  method Navigate<Tile, Context>(m: Map<Tile>, classify: (Tile, Point, Context) -> Traversable, context: Context,
                                 cmp: (Point, Point) -> Ordering, from: Point, to: Point)
    returns (r: Option<seq<Direction>>)
    requires m.Valid() && m.NonNegative() && IsTotalOrder(cmp)
    ensures r.Some? ==> Route(Ground(m, classify, context), from, r.value, to)
    ensures r.Some? ==> |r.value| >= to.Sub(from).Manhattan()
    ensures r.Some? ==> forall dirs :: Route(Ground(m, classify, context), from, dirs, to) ==> |r.value| <= |dirs|
    ensures r.None? ==> forall dirs :: !Route(Ground(m, classify, context), from, dirs, to)
  {
    ghost var ground := Ground(m, classify, context);
    var open := [AStarNode(0, from)];
    var cameFrom: map<Point, (Direction, Point)> := map[];
    var cheapest: map<Point, nat> := map[from := 0];
    var guess: map<Point, nat> := map[from := to.Sub(from).Manhattan()];
    ghost var closed: set<Point> := {};
    ghost var level: nat := 0;
    while open != []
      invariant Searching(ground, from, to, open, cameFrom, cheapest, closed, level)
      decreases Cells(m) - cheapest.Keys, |open|
    {
      var top, rest := PopGreatest(open, cmp);
      if top.position == to {
        assert top in multiset(open);
        var path := Arrive(ground, from, to, open, cameFrom, cheapest, closed, level, top);
        return Some(path);
      }
      open, cameFrom, cheapest, guess := ExpandTop(m, classify, context, from, to, open, top, rest, cameFrom, cheapest, guess, closed, level);
      closed := closed + {top.position};
      level := top.cost;
    }
    Unreachable(ground, from, to, cameFrom, cheapest, closed, level);
    return None;
  }
}
