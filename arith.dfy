/** Row-major buffer arithmetic: row starts, and recovering a cell from its position by division. */
module Arith {

  /**
   * The buffer position of the first cell of row `row` when rows are `width` cells long:
   * row 0 starts the buffer and each row starts `width` cells after the one below it.
   */
  function RowStart(row: nat, width: nat): nat {
    row * width
  }

  lemma RowStartMonotone(a: nat, b: nat, width: nat)
    requires a <= b
    ensures RowStart(a, width) <= RowStart(b, width)
  {
    assert b * width - a * width == (b - a) * width;
  }

  /** Column `x` of row `y` lies before the start of row `height` when `x < width` and `y < height`. */
  lemma CellBeforeRow(x: nat, y: nat, width: nat, height: nat)
    requires x < width && y < height
    ensures x + RowStart(y, width) < RowStart(height, width)
  {
    RowStartMonotone(y + 1, height, width);
  }

  /** Quotient and remainder are determined by any decomposition with a remainder in range. */
  lemma DivModUnique(n: int, w: int, q: int, r: int)
    requires w > 0 && 0 <= r < w && n == q * w + r
    ensures n / w == q && n % w == r
  {
    var q', r' := n / w, n % w;
    assert n == q' * w + r';
    if q > q' {
      MulAtLeast(q - q', w);
    } else if q < q' {
      MulAtLeast(q' - q, w);
    }
  }

  lemma MulAtLeast(a: int, w: int)
    requires a >= 1 && w > 0
    ensures a * w >= w
  {
    var k := a - 1;
    assert a * w == k * w + w;
    assert k * w >= 0;
  }

  /** Column `x` of row `y` is recovered from its position by division by the row length. */
  lemma PositionOfCell(x: nat, y: nat, width: nat)
    requires x < width
    ensures (x + RowStart(y, width)) / width == y
    ensures (x + RowStart(y, width)) % width == x
  {
    DivModUnique(x + RowStart(y, width), width, y, x);
  }

  /** A position before the start of row `height` is column `i % width` of row `i / width`. */
  lemma CellOfPosition(i: nat, width: nat, height: nat)
    requires i < RowStart(height, width)
    ensures width > 0
    ensures i % width < width && i / width < height
    ensures i % width + RowStart(i / width, width) == i
  {
    if i / width >= height {
      RowStartMonotone(height, i / width, width);
    }
  }
}
