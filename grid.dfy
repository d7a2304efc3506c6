/**
 * The two output tensors of the EAST network, as the decode loop sees them.
 *
 * `scores[0, 0]` is one grid of text probabilities; `geometry[0, 0..5]` are five
 * grids of the same shape: the distances from a cell's anchor to the top,
 * right, bottom and left sides of its box, and the box's rotation angle.
 * Values are modelled as `real`; floating-point rounding is not modelled.
 */
module Grid {

  /** A 2-D grid indexed `g[y][x]`: rows first, then columns. */
  type Grid = seq<seq<real>>

  /** Geometry channels 0..4, in the order the network emits them. */
  datatype Geometry = Geometry(top: Grid, right: Grid, bottom: Grid, left: Grid, angle: Grid)

  /** A position of the score grid: row `y`, column `x`. */
  datatype Cell = Cell(y: nat, x: nat)

  /** A candidate box `(startX, startY, endX, endY)` in network-input pixels. */
  datatype Box = Box(startX: int, startY: int, endX: int, endY: int)

  /** `scores.shape[3]`: the row length, read from the first row. */
  function NumCols(g: Grid): (cols: nat) {
    if |g| == 0 then 0 else |g[0]|
  }

  /** `g` has `rows` rows of `cols` values each. */
  predicate Shaped(g: Grid, rows: nat, cols: nat) {
    |g| == rows && forall y :: 0 <= y < rows ==> |g[y]| == cols
  }

  /** All six grids share the shape of the score grid (the script assumes this and never checks it). */
  predicate Consistent(scores: Grid, geo: Geometry) {
    var rows, cols := |scores|, NumCols(scores);
    && Shaped(scores, rows, cols)
    && Shaped(geo.top, rows, cols)
    && Shaped(geo.right, rows, cols)
    && Shaped(geo.bottom, rows, cols)
    && Shaped(geo.left, rows, cols)
    && Shaped(geo.angle, rows, cols)
  }

  /** `c` indexes a value of `g`. */
  predicate InGrid(g: Grid, c: Cell) {
    c.y < |g| && c.x < |g[c.y]|
  }

  /** Every entry of `cells` indexes a value of `g`. */
  predicate AllInGrid(g: Grid, cells: seq<Cell>) {
    forall i :: 0 <= i < |cells| ==> InGrid(g, cells[i])
  }

  /** `c` indexes a value of every geometry channel. */
  predicate InGeometry(geo: Geometry, c: Cell) {
    && InGrid(geo.top, c)
    && InGrid(geo.right, c)
    && InGrid(geo.bottom, c)
    && InGrid(geo.left, c)
    && InGrid(geo.angle, c)
  }

  /** Strict row-major order: earlier row, or same row and earlier column. */
  predicate Before(a: Cell, b: Cell) {
    a.y < b.y || (a.y == b.y && a.x < b.x)
  }

  /** Every entry of `cells` comes strictly before every later entry, in row-major order. */
  predicate RowMajor(cells: seq<Cell>) {
    forall i, j :: 0 <= i < j < |cells| ==> Before(cells[i], cells[j])
  }

  /** A cell of the score grid is also a cell of every geometry channel. */
  lemma ConsistentCovers(scores: Grid, geo: Geometry, c: Cell)
    requires Consistent(scores, geo)
    requires InGrid(scores, c)
    ensures InGeometry(geo, c)
  {
  }
}
