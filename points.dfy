/**
 * The integer plane the grid lives in. `Point` itself is not part of this model's
 * sources; it is taken to be a pair of integers with componentwise arithmetic, the
 * Manhattan norm and quarter-turn rotations.
 */
module Points {

  datatype Point = Point(x: int, y: int) {

    function Add(other: Point): Point {
      Point(x + other.x, y + other.y)
    }

    function Sub(other: Point): Point {
      Point(x - other.x, y - other.y)
    }

    function Neg(): Point {
      Point(-x, -y)
    }

    /** `k` steps of this vector. */
    function Scale(k: int): Point {
      Point(k * x, k * y)
    }

    function Manhattan(): nat {
      Abs(x) + Abs(y)
    }

    /** Quarter turn counter-clockwise (+y is up). */
    function RotateLeft(): Point {
      Point(-y, x)
    }

    /** Quarter turn clockwise (+y is up). */
    function RotateRight(): Point {
      Point(y, -x)
    }
  }

  function Abs(n: int): nat {
    if n < 0 then -n else n
  }

  lemma RotationsUndoEachOther(p: Point)
    ensures p.RotateLeft().RotateRight() == p
    ensures p.RotateRight().RotateLeft() == p
  {
  }
}
