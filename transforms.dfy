/**
 * The grid builders of `map.rs` that fill a fresh tile buffer in a loop: `procedural_offset`,
 * the two flips and the two rotations. Each is specified point by point by a predicate
 * relating the new grid to its input, which determines the new grid completely.
 */
module Transforms {
  import opened Points
  import opened Grid
  import opened Arith

  // ----------------------------------------------------------------------------------
  // procedural_offset / procedural

  /** `m` has the given shape and holds `f(p)` at every point `p`. */
  ghost predicate IsProcedural<Tile>(m: Map<Tile>, offset: Point, width: nat, height: nat, f: Point -> Tile) {
    && m.Valid() && m.width == width && m.height == height && m.offset == offset
    && forall p {:trigger m.At(p)} :: m.InBounds(p) ==> m.At(p) == f(p)
  }

  /** `procedural_offset`: visits the buffer positions in order and stores `procedure` of each point. */
  method ProceduralOffset<Tile>(offset: Point, width: nat, height: nat, procedure: Point -> Tile) returns (m: Map<Tile>)
    ensures IsProcedural(m, offset, width, height, procedure)
  {
    m := Map([], width, height, offset);
    var area := m.Area();
    for idx := 0 to area
      invariant m.width == width && m.height == height && m.offset == offset
      invariant |m.tiles| == idx
      invariant forall i :: 0 <= i < idx ==> m.tiles[i] == procedure(m.Index2Point(i))
    {
      var point := m.Index2Point(idx);
      m := m.(tiles := m.tiles + [procedure(point)]);
    }
    forall p | m.InBounds(p)
      ensures m.At(p) == procedure(p)
    {
      PointIndexRoundTrip(m, p);
    }
  }

  /** `procedural`: `procedural_offset` with the lower-left corner at the origin. */
  method Procedural<Tile>(width: nat, height: nat, procedure: Point -> Tile) returns (m: Map<Tile>)
    ensures IsProcedural(m, Point(0, 0), width, height, procedure)
  {
    m := ProceduralOffset(Point(0, 0), width, height, procedure);
  }

  /** Two grids built from the same function and shape are equal. */
  lemma ProceduralIsUnique<Tile>(m: Map<Tile>, n: Map<Tile>, offset: Point, width: nat, height: nat, f: Point -> Tile)
    requires IsProcedural(m, offset, width, height, f) && IsProcedural(n, offset, width, height, f)
    ensures m == n
  {
    MapExt(m, n);
  }

  /** The buffer of a grid 2 cells wide and 2 tall with its lower-left corner at `(x, y)`, listed point by point. */
  lemma Cells2x2<Tile>(m: Map<Tile>, x: int, y: int)
    requires m.Valid() && m.width == 2 && m.height == 2 && m.offset == Point(x, y)
    ensures m.tiles == [
      m.At(Point(x, y)),
      m.At(Point(x + 1, y)),
      m.At(Point(x, y + 1)),
      m.At(Point(x + 1, y + 1))
    ]
  {
    assert RowStart(1, m.width) == 2 && RowStart(2, m.width) == 4;
  }

  /** The buffer of a grid 2 cells wide and 3 tall with its lower-left corner at `(x, y)`, listed point by point. */
  lemma Cells2x3<Tile>(m: Map<Tile>, x: int, y: int)
    requires m.Valid() && m.width == 2 && m.height == 3 && m.offset == Point(x, y)
    ensures m.tiles == [
      m.At(Point(x, y)),
      m.At(Point(x + 1, y)),
      m.At(Point(x, y + 1)),
      m.At(Point(x + 1, y + 1)),
      m.At(Point(x, y + 2)),
      m.At(Point(x + 1, y + 2))
    ]
  {
    assert RowStart(1, m.width) == 2 && RowStart(2, m.width) == 4 && RowStart(3, m.width) == 6;
  }

  /** The buffer of a grid 3 cells wide and 2 tall with its lower-left corner at `(x, y)`, listed point by point. */
  lemma Cells3x2<Tile>(m: Map<Tile>, x: int, y: int)
    requires m.Valid() && m.width == 3 && m.height == 2 && m.offset == Point(x, y)
    ensures m.tiles == [
      m.At(Point(x, y)),
      m.At(Point(x + 1, y)),
      m.At(Point(x + 2, y)),
      m.At(Point(x, y + 1)),
      m.At(Point(x + 1, y + 1)),
      m.At(Point(x + 2, y + 1))
    ]
  {
    assert RowStart(1, m.width) == 3 && RowStart(2, m.width) == 6;
  }

  /** The buffer `procedural(2, 2, x + y)` produces in its unit test. */
  lemma ProceduralExample(m: Map<int>)
    requires IsProcedural(m, Point(0, 0), 2, 2, (p: Point) => p.x + p.y)
    ensures m.tiles == [0, 1, 1, 2]
  {
    Cells2x2(m, 0, 0);
  }

  /** The buffer `procedural_offset((2, 1), 2, 2, x + y)` produces in its unit test. */
  lemma ProceduralOffsetExample(m: Map<int>)
    requires IsProcedural(m, Point(2, 1), 2, 2, (p: Point) => p.x + p.y)
    ensures m.tiles == [3, 4, 4, 5]
  {
    Cells2x2(m, 2, 1);
  }

  // ----------------------------------------------------------------------------------
  // Flips

  /** The point a cell of the vertical flip comes from: the axis of symmetry is horizontal. */
  function MirrorY<Tile>(m: Map<Tile>, p: Point): Point {
    Point(p.x, m.LowY() + m.HighY() - p.y)
  }

  /** The point a cell of the horizontal flip comes from: the axis of symmetry is vertical. */
  function MirrorX<Tile>(m: Map<Tile>, p: Point): Point {
    Point(m.LowX() + m.HighX() - p.x, p.y)
  }

  /** `r` is `m` flipped vertically: same shape and offset (so the same corners), rows reversed. */
  ghost predicate IsFlippedVertical<Tile>(m: Map<Tile>, r: Map<Tile>) {
    && m.Valid() && r.Valid()
    && r.width == m.width && r.height == m.height && r.offset == m.offset
    && forall p {:trigger r.At(p)} :: r.InBounds(p) ==> r.At(p) == m.At(MirrorY(m, p))
  }

  /** `r` is `m` flipped horizontally: same shape and offset (so the same corners), columns reversed. */
  ghost predicate IsFlippedHorizontal<Tile>(m: Map<Tile>, r: Map<Tile>) {
    && m.Valid() && r.Valid()
    && r.width == m.width && r.height == m.height && r.offset == m.offset
    && forall p {:trigger r.At(p)} :: r.InBounds(p) ==> r.At(p) == m.At(MirrorX(m, p))
  }

  /**
   * `flip_vertical`: starts from a grid of default tiles and copies row `low_y + y` of the
   * source into row `high_y - y`. Indexing by point requires a non-negative offset.
   */
  method FlipVertical<Tile>(m: Map<Tile>, defaultTile: Tile) returns (flipped: Map<Tile>)
    requires m.Valid() && m.NonNegative()
    ensures IsFlippedVertical(m, flipped)
  {
    flipped := NewOffset(m.offset, m.width, m.height, defaultTile);
    for y := 0 to m.height
      invariant flipped.Valid() && flipped.width == m.width && flipped.height == m.height && flipped.offset == m.offset
      invariant forall p {:trigger flipped.At(p)} :: flipped.InBounds(p) && p.y > m.HighY() - y ==> flipped.At(p) == m.At(MirrorY(m, p))
    {
      var flippedY := m.HighY() - y;
      var nonFlippedY := m.LowY() + y;
      flipped := CopyRow(m, flipped, nonFlippedY, flippedY);
    }
  }

  /** The inner loop of `flip_vertical`: row `fromY` of `m` copied, column by column, into row `toY`. */
  method CopyRow<Tile>(m: Map<Tile>, flipped: Map<Tile>, fromY: int, toY: int) returns (r: Map<Tile>)
    requires m.Valid() && flipped.Valid()
    requires flipped.width == m.width && flipped.height == m.height && flipped.offset == m.offset
    requires m.LowY() <= fromY <= m.HighY() && m.LowY() <= toY <= m.HighY()
    ensures r.Valid() && r.width == m.width && r.height == m.height && r.offset == m.offset
    ensures forall p {:trigger r.At(p)} :: r.InBounds(p) && p.y == toY ==> r.At(p) == m.At(Point(p.x, fromY))
    ensures forall p {:trigger r.At(p)} :: r.InBounds(p) && p.y != toY ==> r.At(p) == flipped.At(p)
  {
    r := flipped;
    for x := m.LowX() to m.HighX() + 1
      invariant r.Valid() && r.width == m.width && r.height == m.height && r.offset == m.offset
      invariant forall p {:trigger r.At(p)} :: r.InBounds(p) && p.y == toY && p.x < x ==> r.At(p) == m.At(Point(p.x, fromY))
      invariant forall p {:trigger r.At(p)} :: r.InBounds(p) && (p.y != toY || p.x >= x) ==> r.At(p) == flipped.At(p)
    {
      r := r.Set(Point(x, toY), m.At(Point(x, fromY)));
    }
  }

  /**
   * `flip_horizontal`: starts from a grid of default tiles and, row by row, copies column
   * `low_x + x` of the source into column `high_x - x`.
   */
  method FlipHorizontal<Tile>(m: Map<Tile>, defaultTile: Tile) returns (flipped: Map<Tile>)
    requires m.Valid() && m.NonNegative()
    ensures IsFlippedHorizontal(m, flipped)
  {
    flipped := NewOffset(m.offset, m.width, m.height, defaultTile);
    for y := m.LowY() to m.HighY() + 1
      invariant flipped.Valid() && flipped.width == m.width && flipped.height == m.height && flipped.offset == m.offset
      invariant forall p {:trigger flipped.At(p)} :: flipped.InBounds(p) && p.y < y ==> flipped.At(p) == m.At(MirrorX(m, p))
    {
      flipped := MirrorRow(m, flipped, y);
    }
  }

  /** The inner loop of `flip_horizontal`: row `y` of `m`, columns reversed, written into row `y`. */
  method MirrorRow<Tile>(m: Map<Tile>, flipped: Map<Tile>, y: int) returns (r: Map<Tile>)
    requires m.Valid() && flipped.Valid()
    requires flipped.width == m.width && flipped.height == m.height && flipped.offset == m.offset
    requires m.LowY() <= y <= m.HighY()
    ensures r.Valid() && r.width == m.width && r.height == m.height && r.offset == m.offset
    ensures forall p {:trigger r.At(p)} :: r.InBounds(p) && p.y == y ==> r.At(p) == m.At(MirrorX(m, p))
    ensures forall p {:trigger r.At(p)} :: r.InBounds(p) && p.y != y ==> r.At(p) == flipped.At(p)
  {
    r := flipped;
    for x := 0 to m.width
      invariant r.Valid() && r.width == m.width && r.height == m.height && r.offset == m.offset
      invariant forall p {:trigger r.At(p)} :: r.InBounds(p) && p.y == y && p.x > m.HighX() - x ==> r.At(p) == m.At(MirrorX(m, p))
      invariant forall p {:trigger r.At(p)} :: r.InBounds(p) && (p.y != y || p.x <= m.HighX() - x) ==> r.At(p) == flipped.At(p)
    {
      var flippedX := m.HighX() - x;
      var nonFlippedX := m.LowX() + x;
      r := r.Set(Point(flippedX, y), m.At(Point(nonFlippedX, y)));
    }
  }

  /** The flip of a grid is unique, and flipping it vertically again gives back the grid. */
  lemma {:induction false} FlipVerticalIsInvolution<Tile>(m: Map<Tile>, r: Map<Tile>, rr: Map<Tile>)
    requires IsFlippedVertical(m, r) && IsFlippedVertical(r, rr)
    ensures IsFlippedVertical(r, m)
    ensures rr == m
  {
    forall p | m.InBounds(p)
      ensures m.At(p) == r.At(MirrorY(r, p))
    {
      assert MirrorY(m, MirrorY(r, p)) == p;
    }
    FlipVerticalIsUnique(r, m, rr);
  }

  lemma FlipVerticalIsUnique<Tile>(m: Map<Tile>, r: Map<Tile>, s: Map<Tile>)
    requires IsFlippedVertical(m, r) && IsFlippedVertical(m, s)
    ensures r == s
  {
    MapExt(r, s);
  }

  /** The flip of a grid is unique, and flipping it horizontally again gives back the grid. */
  lemma {:induction false} FlipHorizontalIsInvolution<Tile>(m: Map<Tile>, r: Map<Tile>, rr: Map<Tile>)
    requires IsFlippedHorizontal(m, r) && IsFlippedHorizontal(r, rr)
    ensures IsFlippedHorizontal(r, m)
    ensures rr == m
  {
    forall p | m.InBounds(p)
      ensures m.At(p) == r.At(MirrorX(r, p))
    {
      assert MirrorX(m, MirrorX(r, p)) == p;
    }
    FlipHorizontalIsUnique(r, m, rr);
  }

  lemma FlipHorizontalIsUnique<Tile>(m: Map<Tile>, r: Map<Tile>, s: Map<Tile>)
    requires IsFlippedHorizontal(m, r) && IsFlippedHorizontal(m, s)
    ensures r == s
  {
    MapExt(r, s);
  }

  /** The 2 x 3 grid of `x + y` at offset (3, 2) of the flip unit tests. */
  lemma FlipSourceExample(m: Map<int>)
    requires IsProcedural(m, Point(3, 2), 2, 3, (p: Point) => p.x + p.y)
    ensures m.tiles == [5, 6, 6, 7, 7, 8]
  {
    Cells2x3(m, 3, 2);
  }

  /** The buffers `flip_vertical` and `flip_horizontal` produce in their unit tests. */
  lemma FlipExamples(m: Map<int>, v: Map<int>, h: Map<int>)
    requires IsProcedural(m, Point(3, 2), 2, 3, (p: Point) => p.x + p.y)
    requires IsFlippedVertical(m, v) && IsFlippedHorizontal(m, h)
    ensures v.tiles == [7, 8, 6, 7, 5, 6]
    ensures h.tiles == [6, 5, 7, 6, 8, 7]
  {
    Cells2x3(v, 3, 2);
    Cells2x3(h, 3, 2);
  }

  // ----------------------------------------------------------------------------------
  // Rotations

  /** The point a cell of the counter-clockwise rotation of a grid `height` rows tall comes from. */
  function SourceOfLeft(height: nat, q: Point): Point {
    Point(q.y, height - 1 - q.x)
  }

  /** The point a cell of the clockwise rotation of a grid `width` columns wide comes from. */
  function SourceOfRight(width: nat, q: Point): Point {
    Point(width - 1 - q.y, q.x)
  }

  /** `r` is `m` rotated counter-clockwise: width and height swap and the offset stays `(0, 0)`. */
  ghost predicate IsRotatedLeft<Tile>(m: Map<Tile>, r: Map<Tile>) {
    && m.Valid() && r.Valid() && m.offset == Point(0, 0)
    && r.width == m.height && r.height == m.width && r.offset == Point(0, 0)
    && forall q {:trigger r.At(q)} :: r.InBounds(q) ==> r.At(q) == m.At(SourceOfLeft(m.height, q))
  }

  /** `r` is `m` rotated clockwise: width and height swap and the offset stays `(0, 0)`. */
  ghost predicate IsRotatedRight<Tile>(m: Map<Tile>, r: Map<Tile>) {
    && m.Valid() && r.Valid() && m.offset == Point(0, 0)
    && r.width == m.height && r.height == m.width && r.offset == Point(0, 0)
    && forall q {:trigger r.At(q)} :: r.InBounds(q) ==> r.At(q) == m.At(SourceOfRight(m.width, q))
  }

  /**
   * `rotate_left`: every source point, turned a quarter counter-clockwise about the origin
   * and moved by the new grid's bottom-right corner, receives that point's tile. The source
   * asserts that the offset is `(0, 0)`.
   */
  method RotateLeft<Tile>(m: Map<Tile>, defaultTile: Tile) returns (rotated: Map<Tile>)
    requires m.Valid() && m.offset == Point(0, 0)
    ensures IsRotatedLeft(m, rotated)
  {
    rotated := NewOffset(Point(0, 0), m.height, m.width, defaultTile);
    var rotatedOrigin := rotated.BottomRight();
    for idx := 0 to |m.tiles|
      invariant rotated.Valid() && rotated.width == m.height && rotated.height == m.width && rotated.offset == Point(0, 0)
      invariant forall q :: rotated.InBounds(q) ==> m.InBounds(SourceOfLeft(m.height, q))
      invariant forall q {:trigger rotated.At(q)} :: rotated.InBounds(q) && m.Point2Index(SourceOfLeft(m.height, q)) < idx ==>
        rotated.At(q) == m.At(SourceOfLeft(m.height, q))
    {
      var point := m.Index2Point(idx);
      var rotatedPoint := point.RotateLeft().Add(rotatedOrigin);
      assert SourceOfLeft(m.height, rotatedPoint) == point;
      forall q | rotated.InBounds(q) && m.Point2Index(SourceOfLeft(m.height, q)) == idx
        ensures q == rotatedPoint
      {
        PointIndexRoundTrip(m, SourceOfLeft(m.height, q));
      }
      rotated := rotated.Set(rotatedPoint, m.At(point));
    }
  }

  /**
   * `rotate_right`: every source point, turned a quarter clockwise about the origin and
   * moved by the new grid's top-left corner, receives that point's tile. The source asserts
   * that the offset is `(0, 0)`.
   */
  method RotateRight<Tile>(m: Map<Tile>, defaultTile: Tile) returns (rotated: Map<Tile>)
    requires m.Valid() && m.offset == Point(0, 0)
    ensures IsRotatedRight(m, rotated)
  {
    rotated := NewOffset(Point(0, 0), m.height, m.width, defaultTile);
    var rotatedOrigin := rotated.TopLeft();
    for idx := 0 to |m.tiles|
      invariant rotated.Valid() && rotated.width == m.height && rotated.height == m.width && rotated.offset == Point(0, 0)
      invariant forall q :: rotated.InBounds(q) ==> m.InBounds(SourceOfRight(m.width, q))
      invariant forall q {:trigger rotated.At(q)} :: rotated.InBounds(q) && m.Point2Index(SourceOfRight(m.width, q)) < idx ==>
        rotated.At(q) == m.At(SourceOfRight(m.width, q))
    {
      var point := m.Index2Point(idx);
      var rotatedPoint := point.RotateRight().Add(rotatedOrigin);
      assert SourceOfRight(m.width, rotatedPoint) == point;
      forall q | rotated.InBounds(q) && m.Point2Index(SourceOfRight(m.width, q)) == idx
        ensures q == rotatedPoint
      {
        PointIndexRoundTrip(m, SourceOfRight(m.width, q));
      }
      rotated := rotated.Set(rotatedPoint, m.At(point));
    }
  }

  /** Rotating right undoes rotating left: `m` is the clockwise rotation of its counter-clockwise one. */
  lemma {:induction false} RotateRightUndoesRotateLeft<Tile>(m: Map<Tile>, l: Map<Tile>, lr: Map<Tile>)
    requires IsRotatedLeft(m, l) && IsRotatedRight(l, lr)
    ensures IsRotatedRight(l, m)
    ensures lr == m
  {
    forall p | m.InBounds(p)
      ensures m.At(p) == l.At(SourceOfRight(l.width, p))
    {
      assert SourceOfLeft(m.height, SourceOfRight(l.width, p)) == p;
    }
    MapExt(m, lr);
  }

  /** Rotating left undoes rotating right: `m` is the counter-clockwise rotation of its clockwise one. */
  lemma {:induction false} RotateLeftUndoesRotateRight<Tile>(m: Map<Tile>, r: Map<Tile>, rl: Map<Tile>)
    requires IsRotatedRight(m, r) && IsRotatedLeft(r, rl)
    ensures IsRotatedLeft(r, m)
    ensures rl == m
  {
    forall p | m.InBounds(p)
      ensures m.At(p) == r.At(SourceOfLeft(r.height, p))
    {
      assert SourceOfRight(m.width, SourceOfLeft(r.height, p)) == p;
    }
    MapExt(m, rl);
  }

  /** The 3 x 2 grid of `x + y` of the rotation unit tests. */
  lemma RotateSourceExample(m: Map<int>)
    requires IsProcedural(m, Point(0, 0), 3, 2, (p: Point) => p.x + p.y)
    ensures m.tiles == [0, 1, 2, 1, 2, 3]
  {
    Cells3x2(m, 0, 0);
  }

  /** A 3 x 2 grid `[a, b, c, d, e, f]` rotated counter-clockwise is the 2 x 3 grid `[d, a, e, b, f, c]`. */
  lemma RotateLeftCells<Tile>(m: Map<Tile>, l: Map<Tile>)
    requires IsRotatedLeft(m, l) && m.width == 3 && m.height == 2
    ensures l.width == 2 && l.height == 3
    ensures l.tiles == [m.tiles[3], m.tiles[0], m.tiles[4], m.tiles[1], m.tiles[5], m.tiles[2]]
  {
    Cells3x2(m, 0, 0);
    Cells2x3(l, 0, 0);
  }

  /** A 3 x 2 grid `[a, b, c, d, e, f]` rotated clockwise is the 2 x 3 grid `[c, f, b, e, a, d]`. */
  lemma RotateRightCells<Tile>(m: Map<Tile>, r: Map<Tile>)
    requires IsRotatedRight(m, r) && m.width == 3 && m.height == 2
    ensures r.width == 2 && r.height == 3
    ensures r.tiles == [m.tiles[2], m.tiles[5], m.tiles[1], m.tiles[4], m.tiles[0], m.tiles[3]]
  {
    Cells3x2(m, 0, 0);
    Cells2x3(r, 0, 0);
  }

  /** The buffers `rotate_left` and `rotate_right` produce in their unit tests. */
  lemma RotateExamples(m: Map<int>, l: Map<int>, r: Map<int>)
    requires IsProcedural(m, Point(0, 0), 3, 2, (p: Point) => p.x + p.y)
    requires IsRotatedLeft(m, l) && IsRotatedRight(m, r)
    ensures l.width == 2 && l.height == 3 && l.tiles == [1, 0, 2, 1, 3, 2]
    ensures r.width == 2 && r.height == 3 && r.tiles == [2, 3, 1, 2, 0, 1]
  {
    RotateSourceExample(m);
    RotateLeftCells(m, l);
    RotateRightCells(m, r);
  }
}
