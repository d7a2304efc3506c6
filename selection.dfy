/**
 * Which cells of the score grid the decode loop turns into candidates, and in
 * what order.  The loop walks rows `y` outermost and columns `x` innermost
 * and skips a cell exactly when its score is below `min_confidence`; `Kept`
 * is that walk written as a function, built one row and one column at a time
 * so that it matches the state of the loop after each step.
 */
module Selection {
  import opened Grid

  /** The cells `(y, 0) .. (y, n - 1)` of row `y` whose score is not below `m`, left to right. */
  function RowKept(scores: Grid, m: real, y: nat, n: nat): (r: seq<Cell>)
    requires y < |scores| && n <= |scores[y]|
    ensures |r| <= n && AllInGrid(scores, r)
    ensures forall i :: 0 <= i < |r| ==> r[i].y == y && r[i].x < n && m <= scores[y][r[i].x]
  {
    if n == 0 then []
    else RowKept(scores, m, y, n - 1) + (if scores[y][n - 1] < m then [] else [Cell(y, n - 1)])
  }

  /** The cells of rows `0 .. n - 1` whose score is not below `m`, in row-major order. */
  function KeptRows(scores: Grid, m: real, n: nat): (r: seq<Cell>)
    requires n <= |scores|
    ensures AllInGrid(scores, r)
    ensures forall i :: 0 <= i < |r| ==> r[i].y < n && m <= scores[r[i].y][r[i].x]
  {
    if n == 0 then [] else KeptRows(scores, m, n - 1) + RowKept(scores, m, n - 1, |scores[n - 1]|)
  }

  /** The cells the decode loop emits a candidate for, in the order it emits them. */
  function Kept(scores: Grid, m: real): (r: seq<Cell>)
    ensures AllInGrid(scores, r)
    ensures forall i :: 0 <= i < |r| ==> m <= scores[r[i].y][r[i].x]
  {
    KeptRows(scores, m, |scores|)
  }

  lemma {:induction false} RowKeptRowMajor(scores: Grid, m: real, y: nat, n: nat)
    requires y < |scores| && n <= |scores[y]|
    ensures RowMajor(RowKept(scores, m, y, n))
  {
    if n > 0 {
      RowKeptRowMajor(scores, m, y, n - 1);
    }
  }

  lemma {:induction false} KeptRowsRowMajor(scores: Grid, m: real, n: nat)
    requires n <= |scores|
    ensures RowMajor(KeptRows(scores, m, n))
  {
    if n > 0 {
      var y: nat := n - 1;
      var front, row := KeptRows(scores, m, y), RowKept(scores, m, y, |scores[y]|);
      KeptRowsRowMajor(scores, m, y);
      RowKeptRowMajor(scores, m, y, |scores[y]|);
      assert forall i, j :: 0 <= i < |front| && 0 <= j < |row| ==> Before(front[i], row[j]);
    }
  }

  /** Candidates come out in row-major order: by row, then by column within a row. */
  lemma KeptRowMajor(scores: Grid, m: real)
    ensures RowMajor(Kept(scores, m))
  {
    KeptRowsRowMajor(scores, m, |scores|);
  }

  lemma {:induction false} RowKeptComplete(scores: Grid, m: real, y: nat, n: nat, c: Cell)
    requires y < |scores| && n <= |scores[y]|
    requires c.y == y && c.x < n && m <= scores[y][c.x]
    ensures c in RowKept(scores, m, y, n)
  {
    if c.x < n - 1 {
      RowKeptComplete(scores, m, y, n - 1, c);
    } else {
      assert RowKept(scores, m, y, n) == RowKept(scores, m, y, n - 1) + [c];
    }
  }

  lemma {:induction false} KeptRowsComplete(scores: Grid, m: real, n: nat, c: Cell)
    requires n <= |scores|
    requires c.y < n && InGrid(scores, c) && m <= scores[c.y][c.x]
    ensures c in KeptRows(scores, m, n)
  {
    if c.y < n - 1 {
      KeptRowsComplete(scores, m, n - 1, c);
    } else {
      RowKeptComplete(scores, m, n - 1, |scores[n - 1]|, c);
    }
  }

  /** A cell contributes a candidate if and only if it lies in the grid and its score is at least `m`. */
  lemma KeptIff(scores: Grid, m: real, c: Cell)
    ensures c in Kept(scores, m) <==> InGrid(scores, c) && m <= scores[c.y][c.x]
  {
    if InGrid(scores, c) && m <= scores[c.y][c.x] {
      KeptRowsComplete(scores, m, |scores|, c);
    }
  }

  /** No cell is emitted twice: row-major order is strict. */
  lemma KeptDistinct(scores: Grid, m: real)
    ensures forall i, j :: 0 <= i < j < |Kept(scores, m)| ==> Kept(scores, m)[i] != Kept(scores, m)[j]
  {
    KeptRowMajor(scores, m);
  }

  lemma {:induction false} KeptRowsSize(scores: Grid, m: real, n: nat, cols: nat)
    requires Shaped(scores, |scores|, cols) && n <= |scores|
    ensures |KeptRows(scores, m, n)| <= n * cols
  {
    if n > 0 {
      KeptRowsSize(scores, m, n - 1, cols);
      assert (n - 1) * cols + cols == n * cols;
    }
  }

  /** At most one candidate per grid cell: never more than `numRows * numCols`. */
  lemma KeptSize(scores: Grid, m: real)
    requires Shaped(scores, |scores|, NumCols(scores))
    ensures |Kept(scores, m)| <= |scores| * NumCols(scores)
  {
    KeptRowsSize(scores, m, |scores|, NumCols(scores));
  }

  /** Every value of `row` is below `m`. */
  predicate AllBelow(row: seq<real>, m: real) {
    forall x :: 0 <= x < |row| ==> row[x] < m
  }

  lemma {:induction false} RowKeptEmpty(scores: Grid, m: real, y: nat, n: nat)
    requires y < |scores| && n <= |scores[y]|
    requires AllBelow(scores[y], m)
    ensures RowKept(scores, m, y, n) == []
  {
    if n > 0 {
      RowKeptEmpty(scores, m, y, n - 1);
    }
  }

  lemma {:induction false} KeptRowsEmpty(scores: Grid, m: real, n: nat)
    requires n <= |scores|
    requires forall y :: 0 <= y < n ==> AllBelow(scores[y], m)
    ensures KeptRows(scores, m, n) == []
  {
    if n > 0 {
      KeptRowsEmpty(scores, m, n - 1);
      var y: nat := n - 1;
      assert AllBelow(scores[y], m);
      RowKeptEmpty(scores, m, y, |scores[y]|);
    }
  }

  /** If no score reaches the threshold, nothing is emitted. */
  lemma KeptEmptyWhenAllBelow(scores: Grid, m: real)
    requires forall y :: 0 <= y < |scores| ==> AllBelow(scores[y], m)
    ensures Kept(scores, m) == []
  {
    KeptRowsEmpty(scores, m, |scores|);
  }

  /** An all-zero score map with a positive threshold yields no candidate. */
  lemma KeptEmptyOnZeroScores(scores: Grid, m: real)
    requires forall y, x :: 0 <= y < |scores| && 0 <= x < |scores[y]| ==> scores[y][x] == 0.0
    requires 0.0 < m
    ensures Kept(scores, m) == []
  {
    forall y | 0 <= y < |scores| ensures AllBelow(scores[y], m) {
    }
    KeptEmptyWhenAllBelow(scores, m);
  }

  // ---- Raising the threshold -------------------------------------------------

  /** The entries of `cells` whose score is at least `m`, in their original order. */
  function AtLeast(scores: Grid, cells: seq<Cell>, m: real): (r: seq<Cell>)
    requires AllInGrid(scores, cells)
    ensures |r| <= |cells| && AllInGrid(scores, r)
    ensures forall i :: 0 <= i < |r| ==> m <= scores[r[i].y][r[i].x]
  {
    if cells == [] then []
    else
      var c := cells[|cells| - 1];
      assert InGrid(scores, c);
      AtLeast(scores, cells[..|cells| - 1], m) + (if scores[c.y][c.x] < m then [] else [c])
  }

  lemma {:induction false} AtLeastAppend(scores: Grid, a: seq<Cell>, b: seq<Cell>, m: real)
    requires AllInGrid(scores, a) && AllInGrid(scores, b)
    ensures AtLeast(scores, a + b, m) == AtLeast(scores, a, m) + AtLeast(scores, b, m)
  {
    if b != [] {
      var b' := b[..|b| - 1];
      assert (a + b)[..|a + b| - 1] == a + b';
      AtLeastAppend(scores, a, b', m);
    } else {
      assert a + b == a;
    }
  }

  /** Filtering a list with one more entry at the end. */
  lemma AtLeastSnoc(scores: Grid, cells: seq<Cell>, c: Cell, m: real)
    requires AllInGrid(scores, cells) && InGrid(scores, c)
    ensures AllInGrid(scores, cells + [c])
    ensures AtLeast(scores, cells + [c], m)
         == if scores[c.y][c.x] < m then AtLeast(scores, cells, m) else AtLeast(scores, cells, m) + [c]
  {
    assert (cells + [c])[..|cells|] == cells;
  }

  /** A column whose score is below `m` leaves the row's kept cells as they were. */
  lemma RowKeptSkip(scores: Grid, m: real, y: nat, n: nat)
    requires y < |scores| && 0 < n <= |scores[y]| && scores[y][n - 1] < m
    ensures RowKept(scores, m, y, n) == RowKept(scores, m, y, n - 1)
  {
    assert RowKept(scores, m, y, n - 1) + [] == RowKept(scores, m, y, n - 1);
  }

  /** A column whose score reaches `m` appends its cell to the row's kept cells. */
  lemma RowKeptKeep(scores: Grid, m: real, y: nat, n: nat)
    requires y < |scores| && 0 < n <= |scores[y]| && m <= scores[y][n - 1]
    ensures RowKept(scores, m, y, n) == RowKept(scores, m, y, n - 1) + [Cell(y, n - 1)]
  {
  }

  lemma {:induction false} RowKeptRaise(scores: Grid, m1: real, m2: real, y: nat, n: nat)
    requires m1 <= m2
    requires y < |scores| && n <= |scores[y]|
    ensures RowKept(scores, m2, y, n) == AtLeast(scores, RowKept(scores, m1, y, n), m2)
  {
    if n > 0 {
      var x: nat := n - 1;
      RowKeptRaise(scores, m1, m2, y, x);
      if scores[y][x] < m1 {
        RowKeptSkip(scores, m1, y, n);
        RowKeptSkip(scores, m2, y, n);
      } else {
        RowKeptKeep(scores, m1, y, n);
        AtLeastSnoc(scores, RowKept(scores, m1, y, x), Cell(y, x), m2);
        if scores[y][x] < m2 {
          RowKeptSkip(scores, m2, y, n);
        } else {
          RowKeptKeep(scores, m2, y, n);
        }
      }
    }
  }

  lemma {:induction false} KeptRowsRaise(scores: Grid, m1: real, m2: real, n: nat)
    requires m1 <= m2
    requires n <= |scores|
    ensures KeptRows(scores, m2, n) == AtLeast(scores, KeptRows(scores, m1, n), m2)
  {
    if n > 0 {
      var y: nat := n - 1;
      var front, row := KeptRows(scores, m1, y), RowKept(scores, m1, y, |scores[y]|);
      assert KeptRows(scores, m1, n) == front + row;
      assert KeptRows(scores, m2, n) == KeptRows(scores, m2, y) + RowKept(scores, m2, y, |scores[y]|);
      KeptRowsRaise(scores, m1, m2, y);
      RowKeptRaise(scores, m1, m2, y, |scores[y]|);
      AtLeastAppend(scores, front, row, m2);
    }
  }

  /**
   * Raising the threshold from `m1` to `m2` keeps exactly those candidates of
   * the `m1` run whose score reaches `m2`, in the same order.
   */
  lemma KeptRaise(scores: Grid, m1: real, m2: real)
    requires m1 <= m2
    ensures Kept(scores, m2) == AtLeast(scores, Kept(scores, m1), m2)
  {
    KeptRowsRaise(scores, m1, m2, |scores|);
  }

  /** Raising the threshold never increases the number of candidates. */
  lemma KeptCountMonotone(scores: Grid, m1: real, m2: real)
    requires m1 <= m2
    ensures |Kept(scores, m2)| <= |Kept(scores, m1)|
  {
    KeptRaise(scores, m1, m2);
  }

  // ---- Subsequences ----------------------------------------------------------

  /** `idx` picks the entries of `a` out of `b` at strictly increasing positions. */
  predicate Embeds(a: seq<Cell>, b: seq<Cell>, idx: seq<nat>) {
    && |idx| == |a|
    && (forall k :: 0 <= k < |idx| ==> idx[k] < |b| && a[k] == b[idx[k]])
    && (forall k, l :: 0 <= k < l < |idx| ==> idx[k] < idx[l])
  }

  /** `a` is obtained from `b` by deleting entries. */
  ghost predicate IsSubsequence(a: seq<Cell>, b: seq<Cell>) {
    exists idx :: Embeds(a, b, idx)
  }

  /** An embedding into a prefix of `b` is an embedding into `b`. */
  lemma EmbedsExtend(a: seq<Cell>, b: seq<Cell>, n: nat, idx: seq<nat>)
    requires n <= |b| && Embeds(a, b[..n], idx)
    ensures Embeds(a, b, idx)
    ensures forall k :: 0 <= k < |idx| ==> idx[k] < n
  {
    forall k | 0 <= k < |idx|
      ensures idx[k] < n && a[k] == b[idx[k]]
    {
      assert b[..n][idx[k]] == b[idx[k]];
    }
  }

  /** Picking one more entry, past every index used so far, extends an embedding. */
  lemma EmbedsSnoc(a: seq<Cell>, b: seq<Cell>, idx: seq<nat>, n: nat)
    requires Embeds(a, b, idx) && n < |b|
    requires forall k :: 0 <= k < |idx| ==> idx[k] < n
    ensures Embeds(a + [b[n]], b, idx + [n])
  {
  }

  lemma {:induction false} AtLeastEmbeds(scores: Grid, cells: seq<Cell>, m: real) returns (idx: seq<nat>)
    requires AllInGrid(scores, cells)
    ensures Embeds(AtLeast(scores, cells, m), cells, idx)
  {
    if cells == [] {
      idx := [];
    } else {
      var n := |cells| - 1;
      var c := cells[n];
      var front := AtLeastEmbeds(scores, cells[..n], m);
      var kept := AtLeast(scores, cells[..n], m);
      EmbedsExtend(kept, cells, n, front);
      if scores[c.y][c.x] < m {
        idx := front;
      } else {
        idx := front + [n];
        EmbedsSnoc(kept, cells, front, n);
      }
    }
  }

  /** The candidates at a higher threshold are a subsequence of those at a lower one. */
  lemma KeptSubsequence(scores: Grid, m1: real, m2: real)
    requires m1 <= m2
    ensures IsSubsequence(Kept(scores, m2), Kept(scores, m1))
  {
    KeptRaise(scores, m1, m2);
    var idx := AtLeastEmbeds(scores, Kept(scores, m1), m2);
  }
}
