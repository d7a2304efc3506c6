# EAST text detector: output decoding

This project models the part of `east-text-detector.py` that decodes the
outputs of the EAST text-detection network into candidate text boxes.

The network produces two tensors:

- a score map: one text probability per cell of an output grid four times
  smaller than the input image;
- a geometry map: five values per cell. These are the distances from the
  cell's anchor to the top, right, bottom and left sides of a box, and the
  box's rotation angle.

The decode loop walks the grid row by row, and within a row column by
column. It skips every cell whose score is below `min_confidence`. For each
other cell it builds a box `(startX, startY, endX, endY)` from the cell's
anchor `(4x, 4y)` and its geometry. Each of the four corners is converted
with Python's truncating `int()`. The box goes onto `rects` and the cell's
score onto `confidences`.

The model has four modules:

- `PyInt` (`numeric.dfy`): `Trunc`, Python's `int()` on a float, which
  truncates toward zero.
- `Grid` (`grid.dfy`): the score grid, the five geometry channels, cells,
  boxes, and the shape precondition. The precondition says that all six grids
  have the same number of rows and columns. The script assumes this and never
  checks it.
- `Selection` (`selection.dfy`): `Kept`, the cells the loop turns into
  candidates, in the order it visits them. Its lemmas cover membership,
  row-major order, the size bound, the effect of raising the threshold, and
  the all-zero case.
- `Decoder` (`decoder.dfy`):
  - `CellBox`, the box built for one cell;
  - `DecodeSpec`, the two output lists stated over `Kept`;
  - `DecodedRow` and `DecodedRows`, the lists after a prefix of the loop;
  - `Decode`, the nested loop itself. It is proved equal to `DecodeSpec`.

Details of the corner arithmetic (`east-text-detector.py:161-164`):

- **Truncation.** Each corner is converted with `int()`, which truncates
  toward zero.
- **The anchor is inside `int()`.** `int()` is applied to the whole sum,
  anchor offset included: `endX` is `int(4x + cos*right + sin*bottom)`.
- **The `endY` formula.** `endY` is `int(4y - sin*right + cos*bottom)`.
- **The start corners.** `startX` and `startY` are `int(endX - w)` and
  `int(endY - h)`, where `w` is `right + left` and `h` is `top + bottom`.

## Model

| member | source | states |
|---|---|---|
| PyInt.TruncSpec | east-text-detector.py:161-164 | `int(r)` drops the fractional part: the result lies between 0 and `r` and is less than 1 away from `r`, on both sides of zero |
| PyInt.TruncUnique | east-text-detector.py:161-164 | any integer with that truncation property equals `Trunc(r)`, so the characterisation pins `int()` down |
| PyInt.TruncOfWhole | east-text-detector.py:163-164 | `int()` of a float holding a whole number gives that number back |
| PyInt.TruncOdd | east-text-detector.py:161-164 | `int(-r) == -int(r)`: truncation is symmetric about zero, unlike flooring |
| PyInt.TruncMagnitude | east-text-detector.py:161-164 | truncation never moves a value away from zero |
| PyInt.TruncMonotone | east-text-detector.py:161-164 | a larger float never converts to a smaller integer |
| Grid.ConsistentCovers | east-text-detector.py:133-138 | with all grids of one shape, every cell of the score grid indexes every geometry channel |
| Selection.RowKept | east-text-detector.py:141-144 | the kept cells of a row prefix lie in that row and in the grid, their columns lie below the prefix length, their scores are at least the threshold, and there are at most as many as the columns visited |
| Selection.KeptRows | east-text-detector.py:130-144 | the kept cells of the first `n` rows lie in those rows and in the grid, and their scores are at least the threshold |
| Selection.Kept | east-text-detector.py:130-144 | every emitted cell is in the grid and its score is at least `min_confidence` |
| Selection.KeptIff | east-text-detector.py:143-144 | a cell contributes an entry if and only if it lies in the grid and its score is not below `min_confidence` |
| Selection.RowKeptRowMajor | east-text-detector.py:141 | within a row, kept cells come out by strictly increasing column |
| Selection.KeptRowsRowMajor | east-text-detector.py:130-141 | kept cells of earlier rows precede those of later rows, and the order is strict row-major |
| Selection.KeptRowMajor | east-text-detector.py:130-141 | the whole output is sorted strictly by `(y, x)` |
| Selection.KeptDistinct | east-text-detector.py:130-141 | no cell is emitted twice |
| Selection.RowKeptComplete | east-text-detector.py:141-144 | every cell of the row prefix that reaches the threshold is kept |
| Selection.KeptRowsComplete | east-text-detector.py:130-144 | every in-grid cell of the first `n` rows that reaches the threshold is kept |
| Selection.KeptRowsSize | east-text-detector.py:125-144 | the first `n` rows give at most `n * numCols` entries |
| Selection.KeptSize | east-text-detector.py:125-144 | there are at most `numRows * numCols` entries |
| Selection.RowKeptEmpty | east-text-detector.py:143-144 | a row whose scores are all below the threshold contributes nothing |
| Selection.KeptRowsEmpty | east-text-detector.py:130-144 | rows whose scores are all below the threshold contribute nothing |
| Selection.KeptEmptyWhenAllBelow | east-text-detector.py:143-144 | if no score reaches the threshold, nothing is emitted |
| Selection.KeptEmptyOnZeroScores | east-text-detector.py:143-144 | an all-zero score map with a positive threshold emits nothing |
| Selection.AtLeast | east-text-detector.py:143-144 | filtering a list of cells by a threshold keeps in-grid cells whose score reaches it, and never lengthens the list |
| Selection.AtLeastAppend | east-text-detector.py:143-144 | filtering distributes over concatenation |
| Selection.RowKeptRaise | east-text-detector.py:141-144 | for one row, the cells kept at a higher threshold are those kept at a lower one, filtered again by the higher threshold |
| Selection.KeptRowsRaise | east-text-detector.py:130-144 | the same relation holds for the first `n` rows |
| Selection.KeptRaise | east-text-detector.py:130-144 | raising `min_confidence` from `m1` to `m2` keeps exactly the `m1` entries whose score reaches `m2`, in the same order |
| Selection.KeptCountMonotone | east-text-detector.py:143-144 | raising `min_confidence` never increases the number of entries |
| Selection.AtLeastEmbeds | east-text-detector.py:143-144 | the filtered list is picked out of the original at strictly increasing positions |
| Selection.KeptSubsequence | east-text-detector.py:130-144 | the entries at a higher threshold are a subsequence of the entries at a lower one |
| Decoder.CellBoxExtent | east-text-detector.py:157-164 | for any angle, the box is `left + right` wide and `top + bottom` tall, up to less than one pixel of truncation error |
| Decoder.CellBoxUnrotated | east-text-detector.py:149-164 | with `cos = 1`, `sin = 0` and whole-pixel distances, the box is `(4x - left, 4y - top, 4x + right, 4y + bottom)` |
| Decoder.CellBoxOrdered | east-text-detector.py:157-164 | non-negative width and height give `startX <= endX` and `startY <= endY` |
| Decoder.BoxesOf | east-text-detector.py:149-167 | one box per cell, in the same order |
| Decoder.ScoresOf | east-text-detector.py:133-168 | one score per cell, in the same order |
| Decoder.BoxesOfAt | east-text-detector.py:149-167 | entry `i` of the boxes is the box computed from cell `i`'s own geometry |
| Decoder.ScoresOfAt | east-text-detector.py:133-168 | entry `i` of the scores is `scores[y][x]` of cell `i` |
| Decoder.BoxesOfAppend | east-text-detector.py:167 | the boxes of a concatenation are the concatenated boxes |
| Decoder.ScoresOfAppend | east-text-detector.py:168 | the scores of a concatenation are the concatenated scores |
| Decoder.DecodeSpecAt | east-text-detector.py:133-168 | `rects[i]` is the box of the i-th kept cell, and `confidences[i]` is that same cell's score, which is at least `min_confidence` |
| Decoder.DecodeSpecSize | east-text-detector.py:125-168 | `rects` and `confidences` have equal lengths: one entry per kept cell, and at most `numRows * numCols` |
| Decoder.DecodeSpecMonotone | east-text-detector.py:143-144 | raising `min_confidence` never lengthens either list |
| Decoder.DecodeSpecSubsequence | east-text-detector.py:130-168 | raising `min_confidence` only deletes entries: the boxes and confidences at the higher threshold are those at the lower one, read at the same strictly increasing positions in both lists |
| Decoder.DecodeSpecEmptyOnZeroScores | east-text-detector.py:143-144 | an all-zero score map with a positive threshold leaves both lists empty |
| Decoder.DecodedRow | east-text-detector.py:141-168 | after `n` columns of a row, both lists have grown by the same number of entries, at most `n` |
| Decoder.DecodedRows | east-text-detector.py:130-168 | after any number of rows, the two lists have equal lengths |
| Decoder.DecodedRowKept | east-text-detector.py:141-168 | one row's pass emits, for each kept cell of the row in column order, its box and its score |
| Decoder.DecodedRowsKept | east-text-detector.py:130-168 | the first `n` rows emit, for each kept cell in row-major order, its box and its score |
| Decoder.Decode | east-text-detector.py:124-168 | the nested loop leaves in `rects` and `confidences` exactly the boxes and scores of the kept cells, in row-major order |

## Left out

- The rest of the script is not part of this model: argument parsing, image
  loading and resizing, loading the network, the forward pass, timing,
  rescaling boxes by `rW`/`rH`, and drawing. These are I/O and library calls.
  The network's output enters the model only as the input grids.
- Non-maximum suppression: it is a call into `imutils`, whose source is not
  part of this model.
- The values of `np.cos` and `np.sin` are not modelled. They are parameters
  `cos` and `sin` of type `real -> real`, applied to the cell's angle.
- Floating-point rounding is not modelled. Tensor values are exact reals, and
  `int()` is exact truncation of a real.
- The tensors' leading batch and channel indices (`scores[0, 0]`,
  `geometry[0, k]`) are not modelled. The model takes the 2-D slices directly.
- The stride is fixed at 4, as in the script. No configurable stride or input
  validation is modelled, because the script has neither.
- Decoder.Decode: the row slices `xData0`..`anglesData` are not copied into
  locals. The model reads the same values through `CellBox`.
