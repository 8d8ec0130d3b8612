/**
 * Axial coordinates on a hexagonal grid: a step in each of the six directions, and the
 * six neighbours of a cell.
 */
module HexCoordinates {
  import opened HexDirections

  /** Axial coordinates; the third cube coordinate is implied, `s == -q - r`. */
  datatype Coordinate = Coordinate(q: int, r: int)

  /** A 60-degree clockwise turn of an axial vector: cube `(q, r, s)` becomes `(-r, -s, -q)`. */
  function TurnClockwise(v: (int, int)): (int, int) {
    (-v.1, v.0 + v.1)
  }

  /** `v` turned clockwise `k` times. */
  function Turned(v: (int, int), k: nat): (int, int) {
    if k == 0 then v else TurnClockwise(Turned(v, k - 1))
  }

  /** The axial vector of one step in direction `d`. */
  function Unit(d: Direction): (int, int) {
    match d
    case East => (1, 0)
    case Southeast => (0, 1)
    case Southwest => (-1, 1)
    case West => (-1, 0)
    case Northwest => (0, -1)
    case Northeast => (1, -1)
  }

  /** Each unit vector is East's, turned clockwise once per place its direction comes after East. */
  lemma UnitIsTurnedEast(d: Direction)
    ensures Unit(d) == Turned((1, 0), 5 - Remaining(d))
  {
    var v := (1, 0);
    assert Turned(v, 1) == (0, 1);
    assert Turned(v, 2) == (-1, 1);
    assert Turned(v, 3) == (-1, 0);
    assert Turned(v, 4) == (0, -1);
    assert Turned(v, 5) == (1, -1);
  }

  /** The number of steps between two cells: half the sum of the cube coordinate differences. */
  function Distance(a: Coordinate, b: Coordinate): nat {
    (Abs(a.q - b.q) + Abs(a.r - b.r) + Abs((a.q + a.r) - (b.q + b.r))) / 2
  }

  function Abs(x: int): nat {
    if x < 0 then -x else x
  }

  /**
   * `c + d`, which the source computes as `+=` on a copy: one step in direction `d`
   * moves by the unit vector of `d`, to a cell next to `c`.
   */
  function Add(c: Coordinate, d: Direction): (r: Coordinate)
    ensures r == Coordinate(c.q + Unit(d).0, c.r + Unit(d).1)
    ensures Distance(c, r) == 1
  {
    match d
    case East => c.(q := c.q + 1)
    case Southeast => c.(r := c.r + 1)
    case Southwest => c.(q := c.q - 1, r := c.r + 1)
    case West => c.(q := c.q - 1)
    case Northwest => c.(r := c.r - 1)
    case Northeast => c.(q := c.q + 1, r := c.r - 1)
  }

  /** `c += d`: the fields are updated in place, with the same result as `c + d`. */
  method AddAssign(c: Coordinate, d: Direction) returns (c': Coordinate)
    ensures c' == Add(c, d)
  {
    c' := c;
    match d {
      case East =>
        c' := c'.(q := c'.q + 1);
      case Southeast =>
        c' := c'.(r := c'.r + 1);
      case Southwest =>
        c' := c'.(q := c'.q - 1);
        c' := c'.(r := c'.r + 1);
      case West =>
        c' := c'.(q := c'.q - 1);
      case Northwest =>
        c' := c'.(r := c'.r - 1);
      case Northeast =>
        c' := c'.(q := c'.q + 1);
        c' := c'.(r := c'.r - 1);
    }
  }

  /** `Direction::iter` goes clockwise: each direction is the one before it turned by 60 degrees. */
  lemma IterIsClockwise()
    ensures forall i :: 0 <= i < 5 ==> Unit(Iter()[i + 1]) == TurnClockwise(Unit(Iter()[i]))
    ensures TurnClockwise(Unit(Iter()[5])) == Unit(Iter()[0])
  {
  }

  /** The direction pointing the other way: three turns round. */
  function Opposite(d: Direction): (r: Direction)
    ensures Unit(r) == (-Unit(d).0, -Unit(d).1)
  {
    match d
    case East => West
    case Southeast => Northwest
    case Southwest => Northeast
    case West => East
    case Northwest => Southeast
    case Northeast => Southwest
  }

  /** A step and a step back return to the start: East/West, Southeast/Northwest, Southwest/Northeast. */
  lemma OppositeCancels(c: Coordinate, d: Direction)
    ensures Add(Add(c, d), Opposite(d)) == c
  {
  }

  /**
   * `Coordinate::neighbors`: the six cells next to `c`, in `Direction::iter` order; they
   * are distinct, and none is `c` itself.
   */
  function Neighbors(c: Coordinate): (r: seq<Coordinate>)
    ensures |r| == 6
    ensures forall i :: 0 <= i < 6 ==> r[i] == Add(c, Iter()[i])
    ensures forall i, j :: 0 <= i < j < 6 ==> r[i] != r[j]
    ensures forall i :: 0 <= i < 6 ==> r[i] != c && Distance(c, r[i]) == 1
  {
    var directions := Iter();
    seq(6, i requires 0 <= i < 6 => Add(c, directions[i]))
  }
}
