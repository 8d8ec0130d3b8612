/** The four orthogonal grid directions, with +x to the right and +y up. */
module Directions {
  import opened Points
  import opened Wrappers

  datatype Direction = Right | Left | Up | Down

  /** `#[default]` marks `Up`. */
  const DefaultDirection: Direction := Up

  /** The unit step of a direction. */
  function Deltas(d: Direction): (r: Point)
    ensures -1 <= r.x <= 1 && -1 <= r.y <= 1
    ensures (r.x == 0) != (r.y == 0)
  {
    match d
    case Up => Point(0, 1)
    case Down => Point(0, -1)
    case Right => Point(1, 0)
    case Left => Point(-1, 0)
  }

  /** A quarter turn clockwise: the step turns as `Point::rotate_right` turns it. */
  function TurnRight(d: Direction): (r: Direction)
    ensures Deltas(r).x == Deltas(d).y && Deltas(r).y == -Deltas(d).x
  {
    match d
    case Up => Right
    case Right => Down
    case Down => Left
    case Left => Up
  }

  /** A quarter turn counter-clockwise: the step turns as `Point::rotate_left` turns it. */
  function TurnLeft(d: Direction): (r: Direction)
    ensures Deltas(r).x == -Deltas(d).y && Deltas(r).y == Deltas(d).x
  {
    match d
    case Up => Left
    case Left => Down
    case Down => Right
    case Right => Up
  }

  /** The opposite direction: its step is the negated step. */
  function Reverse(d: Direction): (r: Direction)
    ensures Deltas(r).x == -Deltas(d).x && Deltas(r).y == -Deltas(d).y
  {
    match d
    case Up => Down
    case Left => Right
    case Down => Up
    case Right => Left
  }

  /** `p + direction`: one step from `p`. */
  function Step(p: Point, d: Direction): (r: Point)
    ensures (r.x == p.x) != (r.y == p.y)
    ensures -1 <= r.x - p.x <= 1 && -1 <= r.y - p.y <= 1
  {
    p.Add(Deltas(d))
  }

  /** The orthogonal directions in iteration order. */
  function Iter(): (r: seq<Direction>)
    ensures |r| == 4
    ensures forall d: Direction :: d in r
    ensures forall i, j :: 0 <= i < j < |r| ==> r[i] != r[j]
    ensures r[0] == Up && r[1] == Down && r[2] == Left && r[3] == Right
  {
    var r := [Up, Down, Left, Right];
    assert forall d: Direction :: d in r by {
      forall d: Direction ensures d in r {
        assert d == r[0] || d == r[1] || d == r[2] || d == r[3];
      }
    }
    r
  }

  predicate IsVertical(d: Direction) {
    d == Up || d == Down
  }

  /** The diagonal direction pairs, each written (vertical, horizontal). */
  function IterDiag(): (r: seq<(Direction, Direction)>)
    ensures |r| == 4
    ensures forall i :: 0 <= i < |r| ==> IsVertical(r[i].0) && !IsVertical(r[i].1)
    ensures forall v, h :: IsVertical(v) && !IsVertical(h) ==> (v, h) in r
    ensures forall i, j :: 0 <= i < j < |r| ==> r[i] != r[j]
    ensures r[0] == (Up, Left) && r[1] == (Up, Right) && r[2] == (Down, Left) && r[3] == (Down, Right)
  {
    [(Up, Left), (Up, Right), (Down, Left), (Down, Right)]
  }

  /** Inverse of `Deltas`: only a unit step names a direction. */
  function TryFromPoint(p: Point): (r: Result<Direction, ()>)
    ensures r.Success? ==> Deltas(r.value) == p
    ensures r.Failure? ==> forall d :: Deltas(d) != p
  {
    if p == Point(0, 1) then Success(Up)
    else if p == Point(0, -1) then Success(Down)
    else if p == Point(1, 0) then Success(Right)
    else if p == Point(-1, 0) then Success(Left)
    else Failure(())
  }

  lemma TurnsAreInverse(d: Direction)
    ensures TurnLeft(TurnRight(d)) == d
    ensures TurnRight(TurnLeft(d)) == d
  {
  }

  lemma TurnRightIsCyclic(d: Direction)
    ensures TurnRight(TurnRight(TurnRight(TurnRight(d)))) == d
    ensures TurnRight(TurnRight(d)) == Reverse(d)
    ensures TurnRight(d) != d && TurnRight(TurnRight(d)) != d && TurnRight(TurnRight(TurnRight(d))) != d
  {
  }

  lemma ReverseInvolution(d: Direction)
    ensures Reverse(Reverse(d)) == d
  {
  }

  lemma TryFromDeltas(d: Direction)
    ensures TryFromPoint(Deltas(d)) == Success(d)
  {
  }

  lemma DeltasInjective(d: Direction, e: Direction)
    ensures Deltas(d) == Deltas(e) <==> d == e
  {
  }
}
