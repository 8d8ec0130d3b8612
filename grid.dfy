/**
 * The generic two-dimensional tile grid `Map<Tile>`: a row-major tile buffer, a width,
 * a height and the offset of its lower-left corner in the integer plane (+y is up).
 */
module Grid {
  import opened Points
  import opened Directions
  import opened Wrappers
  import Tiles
  import opened Arith

  /** Whether a search may enter a tile. */
  datatype Traversable =
    | Obstructed  // never entered
    | Free        // entered and passed through
    | Halt        // entered, but a flood fill does not pass through it

  /**
   * `ContextInto<Traversable>` for a tile type: classification may depend on the tile,
   * its position and a caller-supplied context. The blanket implementation for types
   * with a plain conversion ignores position and context.
   */
  function ContextFree<Tile(!new), Context(!new)>(into: Tile -> Traversable): (classify: (Tile, Point, Context) -> Traversable)
    ensures forall t, p, c :: classify(t, p, c) == into(t)
  {
    (t: Tile, p: Point, c: Context) => into(t)
  }

  /** The buffer position of column `x` of row `y` in a grid `width` cells wide. */
  function RowMajor(width: nat, height: nat, x: nat, y: nat): (i: nat)
    requires x < width && y < height
    ensures i < RowStart(height, width)
  {
    CellBeforeRow(x, y, width, height);
    x + RowStart(y, width)
  }

  /** The closed rectangle of a grid with this offset, width and height. */
  predicate InRect(offset: Point, width: nat, height: nat, p: Point) {
    && offset.x <= p.x <= offset.x + width - 1
    && offset.y <= p.y <= offset.y + height - 1
  }

  datatype Map<Tile> = Map(tiles: seq<Tile>, width: nat, height: nat, offset: Point)
  {
    /** The number of cells, `width * height`. */
    function Area(): nat {
      RowStart(height, width)
    }

    /** The buffer holds exactly one tile per cell. */
    predicate Valid() {
      |tiles| == Area()
    }

    /** The grid has at least one cell. */
    predicate NonEmpty() {
      width > 0 && height > 0
    }

    // The bounds and corners below are stated on `InRect`, the rectangle `InBounds` tests.

    /** The least in-bounds x coordinate: one column further left is out of bounds. */
    function LowX(): (r: int)
      ensures NonEmpty() ==> InRect(offset, width, height, Point(r, offset.y))
      ensures !InRect(offset, width, height, Point(r - 1, offset.y))
    {
      offset.x
    }

    /** The greatest in-bounds x coordinate: one column further right is out of bounds. */
    function HighX(): (r: int)
      ensures NonEmpty() ==> InRect(offset, width, height, Point(r, offset.y))
      ensures !InRect(offset, width, height, Point(r + 1, offset.y))
    {
      offset.x + width - 1
    }

    /** The least in-bounds y coordinate: one row further down is out of bounds. */
    function LowY(): (r: int)
      ensures NonEmpty() ==> InRect(offset, width, height, Point(offset.x, r))
      ensures !InRect(offset, width, height, Point(offset.x, r - 1))
    {
      offset.y
    }

    /** The greatest in-bounds y coordinate: one row further up is out of bounds. */
    function HighY(): (r: int)
      ensures NonEmpty() ==> InRect(offset, width, height, Point(offset.x, r))
      ensures !InRect(offset, width, height, Point(offset.x, r + 1))
    {
      offset.y + height - 1
    }

    /** The in-bounds corner with nothing to its left or below it. */
    function BottomLeft(): (r: Point)
      ensures NonEmpty() ==> InRect(offset, width, height, r)
      ensures !InRect(offset, width, height, Point(r.x - 1, r.y)) && !InRect(offset, width, height, Point(r.x, r.y - 1))
    {
      Point(LowX(), LowY())
    }

    /** The in-bounds corner with nothing to its left or above it. */
    function TopLeft(): (r: Point)
      ensures NonEmpty() ==> InRect(offset, width, height, r)
      ensures !InRect(offset, width, height, Point(r.x - 1, r.y)) && !InRect(offset, width, height, Point(r.x, r.y + 1))
    {
      Point(LowX(), HighY())
    }

    /** The in-bounds corner with nothing to its right or below it. */
    function BottomRight(): (r: Point)
      ensures NonEmpty() ==> InRect(offset, width, height, r)
      ensures !InRect(offset, width, height, Point(r.x + 1, r.y)) && !InRect(offset, width, height, Point(r.x, r.y - 1))
    {
      Point(HighX(), LowY())
    }

    /** The in-bounds corner with nothing to its right or above it. */
    function TopRight(): (r: Point)
      ensures NonEmpty() ==> InRect(offset, width, height, r)
      ensures !InRect(offset, width, height, Point(r.x + 1, r.y)) && !InRect(offset, width, height, Point(r.x, r.y + 1))
    {
      Point(HighX(), HighY())
    }

    /** `in_bounds`: `p`, taken relative to the offset, names a column and a row of the buffer. */
    predicate InBounds(p: Point)
      ensures InBounds(p) <==> 0 <= p.x - offset.x < width && 0 <= p.y - offset.y < height
    {
      InRect(offset, width, height, p)
    }

    /**
     * `Index<Point>` asserts that a point lies in the positive quadrant; every cell of
     * a grid satisfies that when its offset is non-negative.
     */
    predicate NonNegative() {
      width == 0 || height == 0 || (offset.x >= 0 && offset.y >= 0)
    }

    /** Row-major position of an in-bounds point in the buffer. */
    function Point2Index(p: Point): (i: nat)
      requires InBounds(p)
      ensures i < Area()
    {
      CellBeforeRow(p.x - offset.x, p.y - offset.y, width, height);
      (p.x - offset.x) + RowStart(p.y - offset.y, width)
    }

    /** The point stored at a buffer position; `Point2Index` undoes it. */
    function Index2Point(i: nat): (p: Point)
      requires i < Area()
      ensures InBounds(p) && Point2Index(p) == i
    {
      CellOfPosition(i, width, height);
      Point(i % width, i / width).Add(offset)
    }

    /** `Index<Point>`: the tile stored at the buffer position of `p`. */
    function At(p: Point): Tile
      requires Valid() && InBounds(p)
    {
      tiles[Point2Index(p)]
    }

    /** `IndexMut<Point>`: the grid with the tile at `p` replaced and nothing else changed. */
    function Set(p: Point, t: Tile): (r: Map<Tile>)
      requires Valid() && InBounds(p)
      ensures r.Valid() && r.width == width && r.height == height && r.offset == offset
      ensures r.At(p) == t
      ensures forall q {:trigger r.At(q)} :: InBounds(q) && q != p ==> r.At(q) == At(q)
    {
      Point2IndexInjective(this);
      this.(tiles := tiles[Point2Index(p) := t])
    }

    // ------------------------------------------------------------------------------
    // Adjacency

    /** `[q]` when `q` is in bounds, `[]` otherwise. */
    function KeepInBounds(q: Point): (r: seq<Point>)
      ensures forall o :: o in r <==> o == q && InBounds(q)
    {
      if InBounds(q) then [q] else []
    }

    /** The in-bounds orthogonal neighbours, in `Direction::iter` order (Up, Down, Left, Right). */
    function OrthogonalAdjacencies(p: Point): (r: seq<Point>)
      ensures |r| <= 4
      ensures forall q :: q in r <==> InBounds(q) && IsOrthogonalNeighbour(p, q)
      ensures Distinct(r)
    {
      var up, down := KeepInBounds(Step(p, Up)), KeepInBounds(Step(p, Down));
      var left, right := KeepInBounds(Step(p, Left)), KeepInBounds(Step(p, Right));
      DistinctConcat(up, down);
      DistinctConcat(up + down, left);
      DistinctConcat(up + down + left, right);
      up + down + left + right
    }

    /**
     * The in-bounds neighbours including diagonals: the orthogonal ones first, then the
     * diagonals in `Direction::iter_diag` order.
     */
    function Adjacencies(p: Point): (r: seq<Point>)
      ensures |OrthogonalAdjacencies(p)| <= |r| <= 8
      ensures r[..|OrthogonalAdjacencies(p)|] == OrthogonalAdjacencies(p)
      ensures r[|OrthogonalAdjacencies(p)|..] == Diagonals(p)
    {
      var orthogonal := OrthogonalAdjacencies(p);
      var diagonal := Diagonals(p);
      assert (orthogonal + diagonal)[..|orthogonal|] == orthogonal;
      assert (orthogonal + diagonal)[|orthogonal|..] == diagonal;
      orthogonal + diagonal
    }

    /**
     * The in-bounds diagonal neighbours in `Direction::iter_diag` order: for each
     * (vertical, horizontal) pair, `p` stepped vertically then horizontally, when in bounds.
     */
    function Diagonals(p: Point): (r: seq<Point>)
      ensures |r| <= 4
      ensures r == KeepInBounds(Step(Step(p, Up), Left)) + KeepInBounds(Step(Step(p, Up), Right))
                 + KeepInBounds(Step(Step(p, Down), Left)) + KeepInBounds(Step(Step(p, Down), Right))
    {
      KeepInBounds(Point(p.x - 1, p.y + 1)) + KeepInBounds(Point(p.x + 1, p.y + 1))
      + KeepInBounds(Point(p.x - 1, p.y - 1)) + KeepInBounds(Point(p.x + 1, p.y - 1))
    }

    /**
     * `project`: the origin, then successive steps by `(dx, dy)`, while in bounds. With
     * a zero step from an in-bounds origin the source iterator never ends; that case is
     * excluded.
     */
    function Project(origin: Point, dx: int, dy: int): (r: seq<Point>)
      requires dx != 0 || dy != 0 || !InBounds(origin)
      ensures forall k :: 0 <= k < |r| ==> r[k] == origin.Add(Point(dx, dy).Scale(k)) && InBounds(r[k])
      ensures !InBounds(origin.Add(Point(dx, dy).Scale(|r|)))
      decreases StepsToLeave(origin, dx, dy)
    {
      if !InBounds(origin) then []
      else
        var next := origin.Add(Point(dx, dy));
        var rest := Project(next, dx, dy);
        ProjectStep(this, origin, dx, dy, rest);
        [origin] + rest
    }

    /** A bound on the steps by `(dx, dy)` that stay in bounds, for the termination of `Project`. */
    function StepsToLeave(origin: Point, dx: int, dy: int): nat
    {
      if !InBounds(origin) then 0
      else if dx > 0 then HighX() - origin.x + 1
      else if dx < 0 then origin.x - LowX() + 1
      else if dy > 0 then HighY() - origin.y + 1
      else origin.y - LowY() + 1
    }

    /** `translate`: only the offset moves, by `(dx, dy)`. */
    function Translate(dx: int, dy: int): (r: Map<Tile>)
      ensures r.tiles == tiles && r.width == width && r.height == height
      ensures r.offset == offset.Add(Point(dx, dy))
    {
      this.(offset := Point(offset.x + dx, offset.y + dy))
    }

    /** `edge`: the two corners an edge runs between and the direction it runs in. */
    function EdgeEnds(side: Direction): (Point, Point, Direction) {
      match side
      case Left => (BottomLeft(), TopLeft(), Up)
      case Right => (BottomRight(), TopRight(), Up)
      case Down => (BottomLeft(), BottomRight(), Right)
      case Up => (TopLeft(), TopRight(), Right)
    }

    /** `iter` / `points`: every cell's point, in buffer order. */
    function Points(): (r: seq<Point>)
      ensures |r| == Area()
      ensures forall i :: 0 <= i < |r| ==> InBounds(r[i]) && Point2Index(r[i]) == i
    {
      seq(Area(), i requires 0 <= i < Area() => Index2Point(i))
    }
  }

  /** No point occurs twice. */
  predicate Distinct(s: seq<Point>) {
    forall i, j :: 0 <= i < j < |s| ==> s[i] != s[j]
  }

  lemma DistinctConcat(a: seq<Point>, b: seq<Point>)
    requires Distinct(a) && Distinct(b)
    requires forall q :: q in a ==> q !in b
    ensures Distinct(a + b)
  {
    forall i, j | 0 <= i < j < |a + b|
      ensures (a + b)[i] != (a + b)[j]
    {
      if j >= |a| && i < |a| {
        assert (a + b)[i] in a && (a + b)[j] in b;
      }
    }
  }

  /** `q` is one step from `p` in one of the four directions. */
  predicate IsOrthogonalNeighbour(p: Point, q: Point) {
    (q.x == p.x && (q.y == p.y + 1 || q.y == p.y - 1))
    || (q.y == p.y && (q.x == p.x + 1 || q.x == p.x - 1))
  }

  /** `q` is one of the eight cells around `p`. */
  predicate IsNeighbour(p: Point, q: Point) {
    q != p && p.x - 1 <= q.x <= p.x + 1 && p.y - 1 <= q.y <= p.y + 1
  }

  /** A neighbour is an orthogonal one or one of the four diagonal ones. */
  lemma NeighbourCases(p: Point, q: Point)
    ensures IsNeighbour(p, q) <==>
      (IsOrthogonalNeighbour(p, q)
       || q in [Point(p.x - 1, p.y + 1), Point(p.x + 1, p.y + 1), Point(p.x - 1, p.y - 1), Point(p.x + 1, p.y - 1)])
  {
  }

  /** The orthogonal neighbours are exactly the steps in the four directions. */
  lemma OrthogonalNeighbourIsStep(p: Point, q: Point)
    ensures IsOrthogonalNeighbour(p, q) <==> exists d :: q == Step(p, d)
  {
    if IsOrthogonalNeighbour(p, q) {
      var d := if q.y == p.y + 1 then Up else if q.y == p.y - 1 then Down else if q.x == p.x - 1 then Left else Right;
      assert q == Step(p, d);
    }
  }

  /** Position of `q` among `p`'s orthogonal neighbours in `Direction::iter` order. */
  function OrthogonalRank(p: Point, q: Point): nat {
    if q == Point(p.x, p.y + 1) then 0
    else if q == Point(p.x, p.y - 1) then 1
    else if q == Point(p.x - 1, p.y) then 2
    else 3
  }

  /** `orthogonal_adjacencies` lists the neighbours in Up, Down, Left, Right order. */
  lemma {:induction false} OrthogonalAdjacenciesOrder<Tile>(m: Map<Tile>, p: Point)
    ensures forall i, j :: 0 <= i < j < |m.OrthogonalAdjacencies(p)| ==>
      OrthogonalRank(p, m.OrthogonalAdjacencies(p)[i]) < OrthogonalRank(p, m.OrthogonalAdjacencies(p)[j])
  {
    var up, down := m.KeepInBounds(Step(p, Up)), m.KeepInBounds(Step(p, Down));
    var left, right := m.KeepInBounds(Step(p, Left)), m.KeepInBounds(Step(p, Right));
    assert forall q :: q in up ==> OrthogonalRank(p, q) == 0;
    assert forall q :: q in down ==> OrthogonalRank(p, q) == 1;
    assert forall q :: q in left ==> OrthogonalRank(p, q) == 2;
    assert forall q :: q in right ==> OrthogonalRank(p, q) == 3;
    RankedConcat(p, up, down);
    RankedConcat(p, up + down, left);
    RankedConcat(p, up + down + left, right);
  }

  predicate RankIncreasing(p: Point, s: seq<Point>) {
    forall i, j :: 0 <= i < j < |s| ==> OrthogonalRank(p, s[i]) < OrthogonalRank(p, s[j])
  }

  lemma RankedConcat(p: Point, a: seq<Point>, b: seq<Point>)
    requires RankIncreasing(p, a) && RankIncreasing(p, b)
    requires forall q, o :: q in a && o in b ==> OrthogonalRank(p, q) < OrthogonalRank(p, o)
    ensures RankIncreasing(p, a + b)
  {
    forall i, j | 0 <= i < j < |a + b|
      ensures OrthogonalRank(p, (a + b)[i]) < OrthogonalRank(p, (a + b)[j])
    {
      if j >= |a| && i < |a| {
        assert (a + b)[i] in a && (a + b)[j] in b;
      }
    }
  }

  /** Prepending the origin to the projection from the next point keeps the multiples aligned. */
  lemma ProjectStep<Tile>(m: Map<Tile>, origin: Point, dx: int, dy: int, rest: seq<Point>)
    requires m.InBounds(origin)
    requires forall k :: 0 <= k < |rest| ==> rest[k] == origin.Add(Point(dx, dy)).Add(Point(dx, dy).Scale(k)) && m.InBounds(rest[k])
    requires !m.InBounds(origin.Add(Point(dx, dy)).Add(Point(dx, dy).Scale(|rest|)))
    ensures forall k :: 0 <= k < |[origin] + rest| ==> ([origin] + rest)[k] == origin.Add(Point(dx, dy).Scale(k)) && m.InBounds(([origin] + rest)[k])
    ensures !m.InBounds(origin.Add(Point(dx, dy).Scale(|[origin] + rest|)))
  {
    var r := [origin] + rest;
    forall k | 0 <= k < |r|
      ensures r[k] == origin.Add(Point(dx, dy).Scale(k)) && m.InBounds(r[k])
    {
      if k > 0 {
        assert r[k] == rest[k - 1];
        ScaleSucc(Point(dx, dy), k - 1);
      }
    }
    ScaleSucc(Point(dx, dy), |rest|);
  }

  lemma ScaleSucc(v: Point, k: int)
    ensures v.Scale(k + 1) == v.Add(v.Scale(k))
  {
  }

  lemma {:induction false} DiagonalsAreDiagonal<Tile>(m: Map<Tile>, p: Point)
    ensures forall q :: q in m.Diagonals(p) <==>
      (m.InBounds(q) && q in [Point(p.x - 1, p.y + 1), Point(p.x + 1, p.y + 1), Point(p.x - 1, p.y - 1), Point(p.x + 1, p.y - 1)])
    ensures forall q :: q in m.Diagonals(p) ==> !IsOrthogonalNeighbour(p, q)
    ensures Distinct(m.Diagonals(p))
  {
    assert Step(Step(p, Up), Left) == Point(p.x - 1, p.y + 1);
    assert Step(Step(p, Up), Right) == Point(p.x + 1, p.y + 1);
    assert Step(Step(p, Down), Left) == Point(p.x - 1, p.y - 1);
    assert Step(Step(p, Down), Right) == Point(p.x + 1, p.y - 1);
    var ul, ur := m.KeepInBounds(Point(p.x - 1, p.y + 1)), m.KeepInBounds(Point(p.x + 1, p.y + 1));
    var dl, dr := m.KeepInBounds(Point(p.x - 1, p.y - 1)), m.KeepInBounds(Point(p.x + 1, p.y - 1));
    assert m.Diagonals(p) == ul + ur + dl + dr;
    DistinctConcat(ul, ur);
    DistinctConcat(ul + ur, dl);
    DistinctConcat(ul + ur + dl, dr);
  }

  /** `adjacencies` yields every in-bounds cell around `p` exactly once. */
  lemma {:induction false} AdjacenciesAreNeighbours<Tile>(m: Map<Tile>, p: Point)
    ensures forall q :: q in m.Adjacencies(p) <==> m.InBounds(q) && IsNeighbour(p, q)
    ensures Distinct(m.Adjacencies(p))
  {
    var orthogonal, diagonal := m.OrthogonalAdjacencies(p), m.Diagonals(p);
    DiagonalsAreDiagonal(m, p);
    DistinctConcat(orthogonal, diagonal);
    forall q
      ensures q in orthogonal + diagonal <==> m.InBounds(q) && IsNeighbour(p, q)
    {
      NeighbourCases(p, q);
    }
  }

  // ----------------------------------------------------------------------------------
  // Indexing

  lemma {:induction false} PointIndexRoundTrip<Tile>(m: Map<Tile>, p: Point)
    requires m.InBounds(p)
    ensures m.Index2Point(m.Point2Index(p)) == p
  {
    var i := m.Point2Index(p);
    PositionOfCell(p.x - m.offset.x, p.y - m.offset.y, m.width);
  }

  /** Distinct in-bounds points occupy distinct buffer positions. */
  lemma Point2IndexInjective<Tile>(m: Map<Tile>)
    ensures forall p, q :: m.InBounds(p) && m.InBounds(q) && p != q ==> m.Point2Index(p) != m.Point2Index(q)
  {
    forall p, q | m.InBounds(p) && m.InBounds(q) && p != q
      ensures m.Point2Index(p) != m.Point2Index(q)
    {
      PointIndexRoundTrip(m, p);
      PointIndexRoundTrip(m, q);
    }
  }

  /** A point is in bounds exactly when some buffer position holds it. */
  lemma InBoundsIffIndexed<Tile>(m: Map<Tile>, p: Point)
    ensures m.InBounds(p) <==> exists i :: 0 <= i < m.Area() && m.Index2Point(i) == p
  {
    if m.InBounds(p) {
      PointIndexRoundTrip(m, p);
    }
  }

  lemma InBoundsIsRect<Tile>(m: Map<Tile>, p: Point)
    ensures m.InBounds(p) <==> InRect(m.offset, m.width, m.height, p)
    ensures m.InBounds(p) <==> m.LowX() <= p.x <= m.HighX() && m.LowY() <= p.y <= m.HighY()
  {
  }

  /** Two grids of the same shape that agree at every point are equal. */
  lemma MapExt<Tile>(a: Map<Tile>, b: Map<Tile>)
    requires a.Valid() && b.Valid()
    requires a.width == b.width && a.height == b.height && a.offset == b.offset
    requires forall p :: a.InBounds(p) ==> a.At(p) == b.At(p)
    ensures a == b
  {
    forall i | 0 <= i < |a.tiles|
      ensures a.tiles[i] == b.tiles[i]
    {
      var p := a.Index2Point(i);
      assert a.At(p) == b.At(p);
    }
  }

  // ----------------------------------------------------------------------------------
  // Construction

  /** A grid's buffer is determined by its tiles at the points, listed row by row, bottom row first. */
  lemma {:induction false} TilesByRows<Tile>(m: Map<Tile>, expected: seq<Tile>)
    requires m.Valid() && |expected| == m.Area()
    requires forall x, y :: 0 <= x < m.width && 0 <= y < m.height ==>
      expected[RowMajor(m.width, m.height, x, y)] == m.At(Point(x, y).Add(m.offset))
    ensures m.tiles == expected
  {
    forall i | 0 <= i < m.Area()
      ensures m.tiles[i] == expected[i]
    {
      var p := m.Index2Point(i);
      var x, y := p.x - m.offset.x, p.y - m.offset.y;
      assert RowMajor(m.width, m.height, x, y) == m.Point2Index(p) == i;
      assert Point(x, y).Add(m.offset) == p;
    }
  }

  /** `new_offset`: every tile is the default tile. */
  function NewOffset<Tile>(offset: Point, width: nat, height: nat, default: Tile): (m: Map<Tile>)
    ensures m.Valid() && m.width == width && m.height == height && m.offset == offset
    ensures forall p {:trigger m.At(p)} :: m.InBounds(p) ==> m.At(p) == default
  {
    Map(seq(RowStart(height, width), _ => default), width, height, offset)
  }

  /** `translate` moves every tile by `(dx, dy)` and undoes itself with `(-dx, -dy)`. */
  lemma TranslateMovesTiles<Tile>(m: Map<Tile>, dx: int, dy: int)
    requires m.Valid()
    ensures m.Translate(dx, dy).Valid()
    ensures forall p :: m.InBounds(p) <==> m.Translate(dx, dy).InBounds(p.Add(Point(dx, dy)))
    ensures forall p :: m.InBounds(p) ==> m.Translate(dx, dy).At(p.Add(Point(dx, dy))) == m.At(p)
    ensures m.Translate(dx, dy).Translate(-dx, -dy) == m
  {
  }
}
