/**
 * The EAST output decoder: the nested loop that turns the score and geometry
 * grids into the two parallel lists `rects` and `confidences`.
 *
 * The network's output grid is four times smaller than its input image, so
 * cell `(y, x)` is anchored at pixel `(4 * x, 4 * y)`.  `cos` and `sin` stand
 * for `np.cos` and `np.sin`; their values are not modelled, only that the
 * loop applies them to the cell's angle.
 */
module Decoder {
  import opened Grid
  import opened PyInt
  import opened Selection

  /** Output-grid to input-image downsampling factor, hard-coded in the script. */
  const Stride: nat := 4

  /** The box the loop builds for cell `c`, with `int()` applied at each of the four corners. */
  function CellBox(geo: Geometry, cos: real -> real, sin: real -> real, c: Cell): (b: Box)
    requires InGeometry(geo, c)
  {
    var offsetX, offsetY := (c.x * Stride) as real, (c.y * Stride) as real;
    var angle := geo.angle[c.y][c.x];
    var cosA, sinA := cos(angle), sin(angle);
    var h := geo.top[c.y][c.x] + geo.bottom[c.y][c.x];
    var w := geo.right[c.y][c.x] + geo.left[c.y][c.x];
    var endX := Trunc(offsetX + cosA * geo.right[c.y][c.x] + sinA * geo.bottom[c.y][c.x]);
    var endY := Trunc(offsetY - sinA * geo.right[c.y][c.x] + cosA * geo.bottom[c.y][c.x]);
    Box(Trunc(endX as real - w), Trunc(endY as real - h), endX, endY)
  }

  /**
   * Whatever the angle, the box is as wide as `left + right` and as tall as
   * `top + bottom`, up to the less-than-one-pixel error of truncating the start corner.
   */
  lemma CellBoxExtent(geo: Geometry, cos: real -> real, sin: real -> real, c: Cell)
    requires InGeometry(geo, c)
    ensures var b := CellBox(geo, cos, sin, c);
      && -1.0 < (b.endX - b.startX) as real - (geo.right[c.y][c.x] + geo.left[c.y][c.x]) < 1.0
      && -1.0 < (b.endY - b.startY) as real - (geo.top[c.y][c.x] + geo.bottom[c.y][c.x]) < 1.0
  {
    var b := CellBox(geo, cos, sin, c);
    var w := geo.right[c.y][c.x] + geo.left[c.y][c.x];
    var h := geo.top[c.y][c.x] + geo.bottom[c.y][c.x];
    TruncSpec(b.endX as real - w);
    TruncSpec(b.endY as real - h);
  }

  /**
   * With no rotation and whole-pixel distances, the box is exactly the anchor
   * pushed out by `left` and `right` horizontally and by `top` and `bottom`
   * vertically.
   */
  lemma CellBoxUnrotated(geo: Geometry, cos: real -> real, sin: real -> real, c: Cell,
                         top: int, right: int, bottom: int, left: int)
    requires InGeometry(geo, c)
    requires cos(geo.angle[c.y][c.x]) == 1.0 && sin(geo.angle[c.y][c.x]) == 0.0
    requires geo.top[c.y][c.x] == top as real && geo.right[c.y][c.x] == right as real
    requires geo.bottom[c.y][c.x] == bottom as real && geo.left[c.y][c.x] == left as real
    ensures CellBox(geo, cos, sin, c)
         == Box(4 * c.x - left, 4 * c.y - top, 4 * c.x + right, 4 * c.y + bottom)
  {
    var endX, endY := 4 * c.x + right, 4 * c.y + bottom;
    TruncOfWhole(endX);
    TruncOfWhole(endY);
    TruncOfWhole(endX - (right + left));
    TruncOfWhole(endY - (top + bottom));
  }

  /** Non-negative distances never give a box whose start lies past its end. */
  lemma CellBoxOrdered(geo: Geometry, cos: real -> real, sin: real -> real, c: Cell)
    requires InGeometry(geo, c)
    requires 0.0 <= geo.right[c.y][c.x] + geo.left[c.y][c.x]
    requires 0.0 <= geo.top[c.y][c.x] + geo.bottom[c.y][c.x]
    ensures CellBox(geo, cos, sin, c).startX <= CellBox(geo, cos, sin, c).endX
    ensures CellBox(geo, cos, sin, c).startY <= CellBox(geo, cos, sin, c).endY
  {
    var b := CellBox(geo, cos, sin, c);
    var w := geo.right[c.y][c.x] + geo.left[c.y][c.x];
    var h := geo.top[c.y][c.x] + geo.bottom[c.y][c.x];
    TruncMonotone(b.endX as real - w, b.endX as real);
    TruncOfWhole(b.endX);
    TruncMonotone(b.endY as real - h, b.endY as real);
    TruncOfWhole(b.endY);
  }

  /** The boxes built for `cells`, in the same order. */
  function BoxesOf(scores: Grid, geo: Geometry, cos: real -> real, sin: real -> real, cells: seq<Cell>): (r: seq<Box>)
    requires Consistent(scores, geo) && AllInGrid(scores, cells)
    ensures |r| == |cells|
  {
    if cells == [] then []
    else
      var c := cells[|cells| - 1];
      ConsistentCovers(scores, geo, c);
      BoxesOf(scores, geo, cos, sin, cells[..|cells| - 1]) + [CellBox(geo, cos, sin, c)]
  }

  /** The scores of `cells`, in the same order. */
  function ScoresOf(scores: Grid, cells: seq<Cell>): (r: seq<real>)
    requires AllInGrid(scores, cells)
    ensures |r| == |cells|
  {
    if cells == [] then []
    else
      var c := cells[|cells| - 1];
      assert InGrid(scores, c);
      ScoresOf(scores, cells[..|cells| - 1]) + [scores[c.y][c.x]]
  }

  /** Entry `i` of `BoxesOf(cells)` is the box of `cells[i]`. */
  lemma {:induction false} BoxesOfAt(scores: Grid, geo: Geometry, cos: real -> real, sin: real -> real,
                                     cells: seq<Cell>, i: nat)
    requires Consistent(scores, geo) && AllInGrid(scores, cells)
    requires i < |cells|
    ensures InGeometry(geo, cells[i])
    ensures BoxesOf(scores, geo, cos, sin, cells)[i] == CellBox(geo, cos, sin, cells[i])
  {
    ConsistentCovers(scores, geo, cells[i]);
    if i < |cells| - 1 {
      BoxesOfAt(scores, geo, cos, sin, cells[..|cells| - 1], i);
    }
  }

  /** Entry `i` of `ScoresOf(cells)` is the score of `cells[i]`. */
  lemma {:induction false} ScoresOfAt(scores: Grid, cells: seq<Cell>, i: nat)
    requires AllInGrid(scores, cells)
    requires i < |cells|
    ensures InGrid(scores, cells[i])
    ensures ScoresOf(scores, cells)[i] == scores[cells[i].y][cells[i].x]
  {
    if i < |cells| - 1 {
      ScoresOfAt(scores, cells[..|cells| - 1], i);
    }
  }

  lemma {:induction false} BoxesOfAppend(scores: Grid, geo: Geometry, cos: real -> real, sin: real -> real,
                                         a: seq<Cell>, b: seq<Cell>)
    requires Consistent(scores, geo) && AllInGrid(scores, a) && AllInGrid(scores, b)
    ensures AllInGrid(scores, a + b)
    ensures BoxesOf(scores, geo, cos, sin, a + b) == BoxesOf(scores, geo, cos, sin, a) + BoxesOf(scores, geo, cos, sin, b)
  {
    if b == [] {
      assert a + b == a;
    } else {
      var b' := b[..|b| - 1];
      assert (a + b)[..|a + b| - 1] == a + b';
      BoxesOfAppend(scores, geo, cos, sin, a, b');
    }
  }

  lemma {:induction false} ScoresOfAppend(scores: Grid, a: seq<Cell>, b: seq<Cell>)
    requires AllInGrid(scores, a) && AllInGrid(scores, b)
    ensures AllInGrid(scores, a + b)
    ensures ScoresOf(scores, a + b) == ScoresOf(scores, a) + ScoresOf(scores, b)
  {
    if b == [] {
      assert a + b == a;
    } else {
      var b' := b[..|b| - 1];
      assert (a + b)[..|a + b| - 1] == a + b';
      ScoresOfAppend(scores, a, b');
    }
  }

  /**
   * What the decode loop leaves in `rects` and `confidences`: for each kept
   * cell, in row-major order, its box and its score.
   */
  function DecodeSpec(scores: Grid, geo: Geometry, cos: real -> real, sin: real -> real, minConfidence: real)
    : (out: (seq<Box>, seq<real>))
    requires Consistent(scores, geo)
  {
    var cells := Kept(scores, minConfidence);
    (BoxesOf(scores, geo, cos, sin, cells), ScoresOf(scores, cells))
  }

  /**
   * The lists are built in lockstep: entry `i` of `rects` is the box of the
   * `i`-th kept cell and entry `i` of `confidences` is that same cell's score,
   * which is never below `minConfidence`.
   */
  lemma DecodeSpecAt(scores: Grid, geo: Geometry, cos: real -> real, sin: real -> real, minConfidence: real, i: nat)
    requires Consistent(scores, geo)
    requires i < |Kept(scores, minConfidence)|
    ensures var (rects, confidences) := DecodeSpec(scores, geo, cos, sin, minConfidence);
      var c := Kept(scores, minConfidence)[i];
      && InGeometry(geo, c)
      && i < |rects| && rects[i] == CellBox(geo, cos, sin, c)
      && i < |confidences| && confidences[i] == scores[c.y][c.x]
      && minConfidence <= confidences[i]
  {
    var cells := Kept(scores, minConfidence);
    BoxesOfAt(scores, geo, cos, sin, cells, i);
    ScoresOfAt(scores, cells, i);
  }

  /** Both lists have one entry per kept cell, hence equal lengths, and at most `numRows * numCols` entries. */
  lemma DecodeSpecSize(scores: Grid, geo: Geometry, cos: real -> real, sin: real -> real, minConfidence: real)
    requires Consistent(scores, geo)
    ensures var (rects, confidences) := DecodeSpec(scores, geo, cos, sin, minConfidence);
      && |rects| == |confidences| == |Kept(scores, minConfidence)|
      && |rects| <= |scores| * NumCols(scores)
  {
    KeptSize(scores, minConfidence);
  }

  /** Raising `minConfidence` never lengthens the lists. */
  lemma DecodeSpecMonotone(scores: Grid, geo: Geometry, cos: real -> real, sin: real -> real, m1: real, m2: real)
    requires Consistent(scores, geo) && m1 <= m2
    ensures |DecodeSpec(scores, geo, cos, sin, m2).0| <= |DecodeSpec(scores, geo, cos, sin, m1).0|
    ensures |DecodeSpec(scores, geo, cos, sin, m2).1| <= |DecodeSpec(scores, geo, cos, sin, m1).1|
  {
    KeptCountMonotone(scores, m1, m2);
  }

  /**
   * Raising `minConfidence` from `m1` to `m2` deletes entries and changes
   * nothing else: the `m2` lists are the `m1` lists read at the strictly
   * increasing positions `idx`, the same positions in both lists.
   */
  lemma DecodeSpecSubsequence(scores: Grid, geo: Geometry, cos: real -> real, sin: real -> real, m1: real, m2: real)
    returns (idx: seq<nat>)
    requires Consistent(scores, geo) && m1 <= m2
    ensures var (r1, c1) := DecodeSpec(scores, geo, cos, sin, m1);
      var (r2, c2) := DecodeSpec(scores, geo, cos, sin, m2);
      && |idx| == |r2| == |c2|
      && (forall k :: 0 <= k < |idx| ==> idx[k] < |r1| && r2[k] == r1[idx[k]] && c2[k] == c1[idx[k]])
      && (forall k, l :: 0 <= k < l < |idx| ==> idx[k] < idx[l])
  {
    var cells1, cells2 := Kept(scores, m1), Kept(scores, m2);
    KeptRaise(scores, m1, m2);
    idx := AtLeastEmbeds(scores, cells1, m2);
    forall k | 0 <= k < |idx|
      ensures idx[k] < |cells1|
      ensures BoxesOf(scores, geo, cos, sin, cells2)[k] == BoxesOf(scores, geo, cos, sin, cells1)[idx[k]]
      ensures ScoresOf(scores, cells2)[k] == ScoresOf(scores, cells1)[idx[k]]
    {
      BoxesOfAt(scores, geo, cos, sin, cells2, k);
      BoxesOfAt(scores, geo, cos, sin, cells1, idx[k]);
      ScoresOfAt(scores, cells2, k);
      ScoresOfAt(scores, cells1, idx[k]);
    }
  }

  /** An all-zero score map with a positive `minConfidence` leaves both lists empty. */
  lemma DecodeSpecEmptyOnZeroScores(scores: Grid, geo: Geometry, cos: real -> real, sin: real -> real,
                                    minConfidence: real)
    requires Consistent(scores, geo)
    requires forall y, x :: 0 <= y < |scores| && 0 <= x < |scores[y]| ==> scores[y][x] == 0.0
    requires 0.0 < minConfidence
    ensures DecodeSpec(scores, geo, cos, sin, minConfidence) == ([], [])
  {
    KeptEmptyOnZeroScores(scores, minConfidence);
  }

  /**
   * The two lists after the inner loop has visited the first `n` columns of
   * row `y`, starting from empty lists.
   */
  function DecodedRow(scores: Grid, geo: Geometry, cos: real -> real, sin: real -> real, minConfidence: real,
                      y: nat, n: nat): (out: (seq<Box>, seq<real>))
    requires Consistent(scores, geo) && y < |scores| && n <= NumCols(scores)
    ensures |out.0| == |out.1| <= n
  {
    if n == 0 then ([], [])
    else
      var (boxes, confidences) := DecodedRow(scores, geo, cos, sin, minConfidence, y, n - 1);
      var c := Cell(y, n - 1);
      ConsistentCovers(scores, geo, c);
      if scores[y][n - 1] < minConfidence then (boxes, confidences)
      else (boxes + [CellBox(geo, cos, sin, c)], confidences + [scores[y][n - 1]])
  }

  /** The two lists after the outer loop has visited the first `n` rows. */
  function DecodedRows(scores: Grid, geo: Geometry, cos: real -> real, sin: real -> real, minConfidence: real,
                       n: nat): (out: (seq<Box>, seq<real>))
    requires Consistent(scores, geo) && n <= |scores|
    ensures |out.0| == |out.1|
  {
    if n == 0 then ([], [])
    else
      var (boxes, confidences) := DecodedRows(scores, geo, cos, sin, minConfidence, n - 1);
      var (rowBoxes, rowConfidences) := DecodedRow(scores, geo, cos, sin, minConfidence, n - 1, NumCols(scores));
      (boxes + rowBoxes, confidences + rowConfidences)
  }

  /** A row's pass emits, for each kept cell of the row in column order, its box and its score. */
  lemma {:induction false} DecodedRowKept(scores: Grid, geo: Geometry, cos: real -> real, sin: real -> real,
                                          minConfidence: real, y: nat, n: nat)
    requires Consistent(scores, geo) && y < |scores| && n <= NumCols(scores)
    ensures var cells := RowKept(scores, minConfidence, y, n);
      DecodedRow(scores, geo, cos, sin, minConfidence, y, n)
      == (BoxesOf(scores, geo, cos, sin, cells), ScoresOf(scores, cells))
  {
    if n > 0 {
      DecodedRowKept(scores, geo, cos, sin, minConfidence, y, n - 1);
      var row := RowKept(scores, minConfidence, y, n - 1);
      var c := Cell(y, n - 1);
      if scores[y][n - 1] < minConfidence {
        assert RowKept(scores, minConfidence, y, n) == row;
      } else {
        var cells := row + [c];
        assert RowKept(scores, minConfidence, y, n) == cells;
        assert cells[..|cells| - 1] == row && cells[|cells| - 1] == c;
        assert BoxesOf(scores, geo, cos, sin, cells) == BoxesOf(scores, geo, cos, sin, row) + [CellBox(geo, cos, sin, c)];
        assert ScoresOf(scores, cells) == ScoresOf(scores, row) + [scores[y][n - 1]];
      }
    }
  }

  /** The first `n` rows' passes emit, for each kept cell of those rows in row-major order, its box and its score. */
  lemma {:induction false} DecodedRowsKept(scores: Grid, geo: Geometry, cos: real -> real, sin: real -> real,
                                           minConfidence: real, n: nat)
    requires Consistent(scores, geo) && n <= |scores|
    ensures var cells := KeptRows(scores, minConfidence, n);
      DecodedRows(scores, geo, cos, sin, minConfidence, n)
      == (BoxesOf(scores, geo, cos, sin, cells), ScoresOf(scores, cells))
  {
    if n > 0 {
      var y: nat := n - 1;
      DecodedRowsKept(scores, geo, cos, sin, minConfidence, y);
      DecodedRowKept(scores, geo, cos, sin, minConfidence, y, NumCols(scores));
      var above := KeptRows(scores, minConfidence, y);
      var row := RowKept(scores, minConfidence, y, NumCols(scores));
      assert KeptRows(scores, minConfidence, n) == above + row;
      BoxesOfAppend(scores, geo, cos, sin, above, row);
      ScoresOfAppend(scores, above, row);
    }
  }

  /**
   * The decode loop: rows top to bottom, and within each row the columns left
   * to right.  A cell whose score is below `minConfidence` is skipped; every
   * other cell appends its box to `rects` and its score to `confidences`.
   */
  method Decode(scores: Grid, geo: Geometry, cos: real -> real, sin: real -> real, minConfidence: real)
    returns (rects: seq<Box>, confidences: seq<real>)
    requires Consistent(scores, geo)
    ensures (rects, confidences) == DecodeSpec(scores, geo, cos, sin, minConfidence)
  {
    var numRows, numCols := |scores|, NumCols(scores);
    rects, confidences := [], [];
    for y := 0 to numRows
      invariant (rects, confidences) == DecodedRows(scores, geo, cos, sin, minConfidence, y)
    {
      ghost var (above, aboveConfidences) := DecodedRows(scores, geo, cos, sin, minConfidence, y);
      var scoresData := scores[y];
      for x := 0 to numCols
        invariant var (row, rowConfidences) := DecodedRow(scores, geo, cos, sin, minConfidence, y, x);
          rects == above + row && confidences == aboveConfidences + rowConfidences
      {
        if scoresData[x] < minConfidence {
          continue;
        }
        var c := Cell(y, x);
        ConsistentCovers(scores, geo, c);
        rects := rects + [CellBox(geo, cos, sin, c)];
        confidences := confidences + [scoresData[x]];
      }
    }
    DecodedRowsKept(scores, geo, cos, sin, minConfidence, numRows);
  }
}
