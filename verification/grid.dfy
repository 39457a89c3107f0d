/** Row-major grids laid over a canvas: both portrait animations walk the canvas in
    steps of a fixed cell size and store one item per cell, row after row. */
module Grid {

  /** How many of 0, size, 2 * size, ... lie below `n`: the cells in a row (or column). */
  function Cells(n: nat, size: nat): (c: nat)
    requires size > 0
    ensures c * size >= n
    ensures c > 0 ==> (c - 1) * size < n
  {
    var q := (n + size - 1) / size;
    assert (n + size - 1) == q * size + (n + size - 1) % size;
    q
  }

  /** Grid position k is visited exactly when k < Cells(n, size). */
  lemma CellsCount(n: nat, size: nat, k: nat)
    requires size > 0
    ensures k < Cells(n, size) <==> k * size < n
  {
    var c := Cells(n, size);
    if k < c {
      MulMonotone(k, c - 1, size);
    } else {
      MulMonotone(c, k, size);
    }
  }

  lemma MulMonotone(a: nat, b: nat, c: nat)
    requires a <= b
    ensures a * c <= b * c
  {
    var d := b - a;
    assert b * c == a * c + d * c;
  }

  lemma PositiveFactor(a: int, b: int)
    requires a * b > 0 && b > 0
    ensures a > 0
  {
  }

  /** Cell (r, c) of a grid with `cols` cells per row comes before every cell of a
      later row. */
  lemma RowMajorBelow(r: nat, c: nat, row: nat, cols: nat)
    requires r < row && c < cols
    ensures r * cols + c < row * cols
  {
    MulMonotone(r + 1, row, cols);
    assert (r + 1) * cols == r * cols + cols;
  }

  /** The grid position (row, column) of item i when a row holds `cols` items. */
  function GridPos(i: nat, cols: nat): (rc: (nat, nat))
    requires cols > 0
    ensures rc.1 < cols && i == rc.0 * cols + rc.1
  {
    (i / cols, i % cols)
  }

  /** Division by the row length recovers row and column. */
  lemma GridPosOf(r: nat, c: nat, cols: nat)
    requires c < cols
    ensures GridPos(r * cols + c, cols) == (r, c)
  {
    var i := r * cols + c;
    var rc := GridPos(i, cols);
    if rc.0 < r {
      RowMajorBelow(rc.0, rc.1, r, cols);
    } else if rc.0 > r {
      RowMajorBelow(r, c, rc.0, cols);
    }
  }

  /** An index below rows * cols lies in one of the first `rows` rows. */
  lemma GridPosInRange(i: nat, rows: nat, cols: nat)
    requires cols > 0 && i < rows * cols
    ensures GridPos(i, cols).0 < rows
  {
    var rc := GridPos(i, cols);
    assert (rows - rc.0) * cols == rows * cols - rc.0 * cols;
    assert (rows - rc.0) * cols > 0;
    PositiveFactor(rows - rc.0, cols);
  }
}
