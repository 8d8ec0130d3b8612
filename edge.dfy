/**
 * The `Edge` iterator over the points of one side of a grid: a two-ended cursor that
 * walks `from` forward and `to` backward until the two meet.
 */
module Edges {
  import opened Points
  import opened Directions
  import opened Wrappers
  import opened Grid

  /** The point `i` steps from `start` in direction `d`. */
  function Along(start: Point, d: Direction, i: int): Point {
    match d
    case Up => Point(start.x, start.y + i)
    case Down => Point(start.x, start.y - i)
    case Right => Point(start.x + i, start.y)
    case Left => Point(start.x - i, start.y)
  }

  /** `Along` is repeated `Step`: `i` times the direction's unit step. */
  lemma AlongIsScaledStep(start: Point, d: Direction, i: int)
    ensures Along(start, d, i) == start.Add(Deltas(d).Scale(i))
    ensures Along(start, d, i + 1) == Step(Along(start, d, i), d)
  {
  }

  /** `n` points starting at `start`, each one step in direction `d` after the previous. */
  function Line(start: Point, d: Direction, n: nat): (r: seq<Point>)
    ensures |r| == n
    ensures forall i {:trigger r[i]} :: 0 <= i < n ==> r[i] == Along(start, d, i)
  {
    seq(n, i requires 0 <= i < n => Along(start, d, i))
  }

  /** Steps along a direction never come back to where they started. */
  lemma StepsApart(start: Point, d: Direction, i: int, j: int)
    ensures Along(start, d, i) == Along(start, d, j) <==> i == j
  {
  }

  lemma LineDistinct(start: Point, d: Direction, n: nat)
    ensures Distinct(Line(start, d, n))
  {
    var r := Line(start, d, n);
    forall i, j | 0 <= i < j < n
      ensures r[i] != r[j]
    {
      StepsApart(start, d, i, j);
    }
  }

  /**
   * The iterator. `All` is every point of the edge, `Front` the points `next` has
   * returned, `Back` those `next_back` has returned (nearest the far end last), and
   * `Items` the points still to come.
   */
  class Edge {
    var from: Point
    var to: Point
    const direction: Direction
    var done: bool

    ghost const All: seq<Point>
    ghost var Front: seq<Point>
    ghost var Items: seq<Point>
    ghost var Back: seq<Point>

    ghost predicate Valid()
      reads this
    {
      && All == Front + Items + Back
      && (done <==> Items == [])
      && (!done ==> Items[|Items| - 1] == to)
      && (forall i {:trigger Items[i]} :: 0 <= i < |Items| ==> Items[i] == Along(from, direction, i))
      && (done ==> from == Step(to, direction))
    }

    /** A fresh iterator over the `n` points from `from` in `direction`; `n == 0` starts it done. */
    constructor (from: Point, direction: Direction, n: nat)
      ensures Valid() && All == Items == Line(from, direction, n) && Front == [] && Back == []
      ensures this.from == from && this.direction == direction && done == (n == 0)
      ensures n >= 1 ==> to == Along(from, direction, n - 1)
    {
      this.from := from;
      this.to := Along(from, direction, n - 1);
      this.direction := direction;
      this.done := n == 0;
      All := Line(from, direction, n);
      Items := All;
      Front := [];
      Back := [];
      new;
      assert |Items| == n && (done <==> Items == []);
      assert n >= 1 ==> Items[n - 1] == to;
      AlongIsScaledStep(from, direction, -1);
      assert Along(from, direction, 0) == from;
      assert forall i {:trigger Items[i]} :: 0 <= i < |Items| ==> Items[i] == Along(this.from, direction, i);
    }

    /** `next`: the nearest remaining point, or `None` once the two ends have met. */
    method Next() returns (r: Option<Point>)
      requires Valid()
      modifies this
      ensures Valid()
      ensures old(Items) == [] ==> r == None && Items == [] && Front == old(Front)
      ensures old(Items) != [] ==> r == Some(old(Items)[0]) && Items == old(Items)[1..] && Front == old(Front) + [old(Items)[0]]
      ensures Back == old(Back)
    {
      if done {
        return None;
      }
      var next := from;
      from := from.Add(Deltas(direction));
      done := next == to;
      ghost var was := Items;
      if |was| > 1 {
        StepsApart(next, direction, 0, |was| - 1);
      }
      Items := was[1..];
      Front := Front + [next];
      forall i | 0 <= i < |Items|
        ensures Items[i] == Along(from, direction, i)
      {
        assert Items[i] == was[i + 1];
      }
      assert All == Front + Items + Back by {
        assert was == [next] + Items;
      }
      return Some(next);
    }

    /** `next_back`: the farthest remaining point, or `None` once the two ends have met. */
    method NextBack() returns (r: Option<Point>)
      requires Valid()
      modifies this
      ensures Valid()
      ensures old(Items) == [] ==> r == None && Items == [] && Back == old(Back)
      ensures old(Items) != [] ==>
        && r == Some(old(Items)[|old(Items)| - 1])
        && Items == old(Items)[..|old(Items)| - 1]
        && Back == [old(Items)[|old(Items)| - 1]] + old(Back)
      ensures Front == old(Front)
    {
      if done {
        return None;
      }
      var next := to;
      to := to.Add(Deltas(Reverse(direction)));
      done := next == from;
      ghost var was := Items;
      var n := |was|;
      if n > 1 {
        StepsApart(from, direction, 0, n - 1);
        assert was[n - 2] == to;
      } else {
        assert from == Step(to, direction);
      }
      Items := was[..n - 1];
      Back := [next] + Back;
      assert All == Front + Items + Back by {
        assert was == Items + [next];
      }
      return Some(next);
    }

    /**
     * `size_hint`: one more than the Manhattan distance between the two ends. While points
     * remain that is their number; once done the ends have crossed by one step and it
     * reports 2.
     */
    function SizeHint(): (r: (nat, Option<nat>))
      reads this
      requires Valid()
      ensures !done ==> r == (|Items|, Some(|Items|))
      ensures done ==> r == (2, Some(2)) && |Items| == 0
    {
      Span();
      var size := to.Sub(from).Manhattan() + 1;
      (size, Some(size))
    }

    /** What `ExactSizeIterator::len` is meant to be: the number of points still to come. */
    function Len(): (r: nat)
      reads this
      requires Valid()
      ensures r == |Items|
    {
      Span();
      if done then 0 else to.Sub(from).Manhattan() + 1
    }

    /** The ends are one step short of each other while points remain, and crossed by one step after. */
    lemma Span()
      requires Valid()
      ensures !done ==> to.Sub(from).Manhattan() + 1 == |Items|
      ensures done ==> to.Sub(from).Manhattan() == 1
    {
      if !done {
        ManhattanOfSteps(from, direction, |Items| - 1);
      }
    }
  }

  /** `k` unit steps span a Manhattan distance of `k`. */
  lemma ManhattanOfSteps(start: Point, d: Direction, k: nat)
    ensures Along(start, d, k).Sub(start).Manhattan() == k
  {
  }

  /** The side of a grid an edge runs along: its first point, its direction and its length. */
  function EdgeLine<Tile>(m: Map<Tile>, side: Direction): (r: (Point, Direction, nat))
    ensures r.2 == if side == Left || side == Right then m.height else m.width
  {
    var (from, _, direction) := m.EdgeEnds(side);
    (from, direction, if side == Left || side == Right then m.height else m.width)
  }

  /**
   * `Map::edge`, for a grid with at least one row and one column: the edge runs from the
   * lower (or left) corner to the upper (or right) one.
   */
  method MapEdge<Tile>(m: Map<Tile>, side: Direction) returns (e: Edge)
    ensures fresh(e) && e.Valid() && e.Front == [] && e.Back == []
    ensures var (from, direction, n) := EdgeLine(m, side); e.All == e.Items == Line(from, direction, n)
    ensures m.width >= 1 && m.height >= 1 ==> (e.from, e.to, e.direction) == m.EdgeEnds(side) && !e.done
  {
    var (from, direction, n) := EdgeLine(m, side);
    EdgeLineEnds(m, side);
    e := new Edge(from, direction, n);
  }

  /** On a grid with a row and a column, an edge's far corner is its length less one step along. */
  lemma EdgeLineEnds<Tile>(m: Map<Tile>, side: Direction)
    ensures var (from, direction, n) := EdgeLine(m, side);
      m.width >= 1 && m.height >= 1 ==> n >= 1 && m.EdgeEnds(side) == (from, Along(from, direction, n - 1), direction)
  {
  }

  /**
   * The points of each edge, in order: Left and Right run bottom to top, Down and Up
   * run left to right; each has one point per row or column, all on the grid when it has
   * at least one row and column.
   */
  lemma EdgePoints<Tile>(m: Map<Tile>, side: Direction)
    ensures var (from, direction, n) := EdgeLine(m, side);
      var points := Line(from, direction, n);
      && Distinct(points)
      && (m.width >= 1 && m.height >= 1 ==> forall i {:trigger points[i]} :: 0 <= i < n ==> m.InBounds(points[i]))
      && (forall i {:trigger points[i]} :: 0 <= i < n ==>
        points[i] == match side
          case Left => Point(m.LowX(), m.LowY() + i)
          case Right => Point(m.HighX(), m.LowY() + i)
          case Down => Point(m.LowX() + i, m.LowY())
          case Up => Point(m.LowX() + i, m.HighY()))
  {
    var (from, direction, n) := EdgeLine(m, side);
    LineDistinct(from, direction, n);
  }

  /**
   * As written, `Map::edge` on a grid without columns (or rows) never finishes: the Down
   * edge's far end lies one step behind its start, so stepping forward never reaches it.
   */
  lemma EmptyEdgeNeverEnds<Tile>(m: Map<Tile>, k: nat)
    requires m.width == 0
    ensures var (from, to, direction) := m.EdgeEnds(Down); Along(from, direction, k) != to
  {
  }
}
