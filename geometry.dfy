/** Row-major addressing of a width x height grid: a cell (x, y) lives at flat
    index y*width + x, and row 0 is the bottom row.

    The product y*width is written as Cells(width, y), the number of cells in
    the first y rows, defined by repeated addition. This keeps all index
    arithmetic linear; CellsIsProduct ties it back to multiplication. */
module Geometry {

  predicate InBounds(w: int, h: int, x: int, y: int) {
    0 <= x < w && 0 <= y < h
  }

  /** The outermost ring of cells: the columns 0 and w-1 and the rows 0 and h-1. */
  predicate OnBorder(w: int, h: int, x: int, y: int) {
    x == 0 || x == w - 1 || y == 0 || y == h - 1
  }

  /** A cell whose eight neighbours are all inside the grid. */
  predicate Interior(w: int, h: int, x: int, y: int) {
    1 <= x < w - 1 && 1 <= y < h - 1
  }

  /** The number of cells in the first n rows of a grid of width w. */
  function Cells(w: int, n: nat): (c: int)
    ensures 0 <= w ==> 0 <= c
    decreases n
  {
    if n == 0 then 0 else Cells(w, n - 1) + w
  }

  /** n rows of width w hold n * w cells. */
  lemma {:induction false} CellsIsProduct(w: int, n: nat)
    ensures Cells(w, n) == n * w
  {
    if n > 0 {
      CellsIsProduct(w, n - 1);
    }
  }

  /** More rows hold at least as many cells. */
  lemma {:induction false} CellsMonotone(w: int, a: nat, b: nat)
    requires 0 <= w
    ensures a <= b ==> Cells(w, a) <= Cells(w, b)
    decreases b
  {
    if a < b {
      CellsMonotone(w, a, b - 1);
    }
  }

  /** A grid of width 0 has no cells, whatever its height. */
  lemma {:induction false} CellsOfZeroWidth(n: nat)
    ensures Cells(0, n) == 0
  {
    if n > 0 {
      CellsOfZeroWidth(n - 1);
    }
  }

  /** Flat index of (x, y); every in-bounds cell has an index of the flat buffer. */
  function Idx(w: int, h: int, x: int, y: int): (k: int)
    requires InBounds(w, h, x, y)
    ensures 0 <= k < Cells(w, h)
  {
    CellsMonotone(w, 0, y);
    CellsMonotone(w, y + 1, h);
    Cells(w, y) + x
  }

  /** Row of a flat index: how many full rows lie before it. */
  function Row(w: int, k: int): (y: nat)
    decreases k
  {
    if w <= 0 || k < w then 0 else Row(w, k - w) + 1
  }

  /** Column of a flat index: its offset within its row. */
  function Col(w: int, k: int): int {
    k - Cells(w, Row(w, k))
  }

  /** A non-negative flat index splits into a row and a column inside the width. */
  lemma {:induction false} RowCol(w: int, k: int)
    requires 0 < w && 0 <= k
    ensures 0 <= Col(w, k) < w && k == Cells(w, Row(w, k)) + Col(w, k)
    decreases k
  {
    if k >= w {
      RowCol(w, k - w);
    }
  }

  /** Coordinates -> index -> coordinates is the identity. */
  lemma {:induction false} CoordsOfIdx(w: int, h: int, x: int, y: int)
    requires InBounds(w, h, x, y)
    ensures Col(w, Idx(w, h, x, y)) == x && Row(w, Idx(w, h, x, y)) == y
    decreases y
  {
    if y > 0 {
      CoordsOfIdx(w, h, x, y - 1);
      assert Idx(w, h, x, y) - w == Idx(w, h, x, y - 1);
    }
  }

  /** Index -> coordinates -> index is the identity on the flat buffer. */
  lemma IdxOfCoords(w: int, h: int, k: int)
    requires 0 <= w && 0 <= h && 0 <= k < Cells(w, h)
    ensures InBounds(w, h, Col(w, k), Row(w, k))
    ensures Idx(w, h, Col(w, k), Row(w, k)) == k
  {
    if w == 0 {
      CellsOfZeroWidth(h);
    }
    RowCol(w, k);
    CellsMonotone(w, h, Row(w, k));
  }

  /** A cell in a lower row has a lower flat index. */
  lemma IdxBelow(w: int, h: int, x1: int, y1: int, x2: int, y2: int)
    requires InBounds(w, h, x1, y1) && InBounds(w, h, x2, y2) && y1 < y2
    ensures Idx(w, h, x1, y1) < Idx(w, h, x2, y2)
  {
    CellsMonotone(w, y1 + 1, y2);
  }

  /** Distinct in-bounds cells have distinct flat indices. */
  lemma IdxInjective(w: int, h: int, x1: int, y1: int, x2: int, y2: int)
    requires InBounds(w, h, x1, y1) && InBounds(w, h, x2, y2)
    ensures Idx(w, h, x1, y1) == Idx(w, h, x2, y2) ==> x1 == x2 && y1 == y2
  {
    CoordsOfIdx(w, h, x1, y1);
    CoordsOfIdx(w, h, x2, y2);
  }
}
