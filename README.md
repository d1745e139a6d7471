# Real-time MNIST digit recogniser: the numeric core

This project models, in Dafny, the numeric core of a desktop app that
recognises hand-drawn digits. Each time the user draws, the app does
three things:

- it reads the 28 x 28 canvas;
- it prepares the grid for the network: invert, cut faint cells to
  zero, then shift so that the centroid of the ink moves to the centre;
- it runs a two-layer, bias-free ReLU network. It reports the first
  index of the largest output as the digit, and that output as the
  confidence.

The app also draws a small picture of the network. The values shown on
its nodes come from the prepared grid and the two activation vectors:

- the input column shows the row profile of the grid, sampled at evenly
  spaced points;
- the hidden and output columns show a prefix of each activation vector,
  divided by its maximum.

The model works on exact reals (`real`).

Modules:

- `Outcomes` (outcomes.dfy): a `Result` type for the steps the program
  abandons with an exception.
- `Numeric` (numeric.dfy): the NumPy and Python primitives the core
  relies on. These are `sum`, scaling, `@` against one column, `np.max`,
  `np.argmax` (the first maximum), `np.linspace`, `np.interp` over
  `np.arange`, `np.mean`, and `int()` on a float (truncation toward zero).
- `Grid` (grid.dfy): the 28 x 28 grid. It holds `center_of_mass`,
  `shift` at an integer offset with `mode='constant'`, and the row-major
  `reshape` between the grid and the 784-vector.
- `Centring` (centring.dfy): how a shift moves the centroid. A shift that
  crops no ink keeps the mass and moves the centroid by the offset.
- `Visualizer` (visualizer.dfy): `positions`, and the projection part of
  `update_view`.
- `Predictor` (predictor.dfy): `MainWindow.predict_digit`.
  - The masked assignment `img[img < 0.2] = 0.0` is a method on an
    `array2`, `ThresholdInPlace`.
  - `Preprocess` runs lines 154-161 on an array in the order the source
    does. It is proved equal to the pure `Preprocessed`.
  - Three exceptions become `Fault` values. They are an empty canvas,
    an empty output vector, and an empty selection in the view.

The code and the description of the program disagree on a blank canvas.
The description says the app must handle it. The code has no guard:
`center_of_mass` of an all-zero grid divides zero by zero, and `int()`
of the resulting NaN raises. The model follows the code. `Classify` and
`PredictDigit` fail with `BlankCanvas`, and `BlankCanvasIff` states
exactly when that happens.

Centring reaches its goal when the shift crops no ink. Then the
centroid moves by exactly the offset and ends within 1 of (14, 14).
A grid with ink at one edge and more ink near the other can have some
of it pushed off the grid. That shift moves the centroid by a different
amount, which may or may not still land near (14, 14).
`CenteringReachesTarget` and `CenterIdempotent` state the result for a
shift that crops no ink.

## Model

| member | source | states |
|---|---|---|
| Predictor.Invert | main.py:154 | `1.0 - resized` keeps the 28 x 28 shape |
| Predictor.Threshold | main.py:155 | every cell becomes 0.0 (when it was below 0.2) or keeps its value, which is then at least 0.2 |
| Predictor.ThresholdInPlace | main.py:155 | the in-place masked write leaves the array equal to the pure threshold of its old contents |
| Predictor.ThresholdIdempotent | main.py:155 | masking twice is masking once |
| Grid.CenterOfMass | main.py:158 | `center_of_mass` of a grid with ink: the first moment of the intensity about the result is zero along both axes |
| Grid.MassByColumns | main.py:158 | the total intensity is the same whether summed by rows or by columns (the denominator of both centroid coordinates) |
| Grid.MassZeroIff | main.py:158 | a non-negative grid has zero mass exactly when every cell is 0.0 |
| Grid.CentroidInGrid | main.py:158 | for a non-negative grid with some ink, both centroid coordinates lie in [0, 27] |
| Numeric.Trunc | main.py:159-160 | `int()` truncates toward zero: the result is within 1 of x, on x's side of 0, and 0 exactly when -1 < x < 1 |
| Predictor.CenteringOffset | main.py:158-160 | fails with BlankCanvas exactly when the mass is 0; otherwise each offset is within 1 of `14 - c` for its centroid coordinate c |
| Predictor.Offset | main.py:159-160 | the offset lies between 0 and `14 - c`, is within 1 of it, and is 0 exactly when 13 < c < 15 |
| Predictor.OffsetRange | main.py:158-160 | the offsets of a masked grid with ink are in [-13, 14] on both axes |
| Predictor.BlankCanvasIff | main.py:154-160 | preprocessing fails exactly when every canvas cell exceeds 0.8 (no cell survives the mask, so there is no centroid) |
| Grid.Translate | main.py:161 | `shift(img, [dy, dx], mode='constant')` yields a 28 x 28 grid (what it does to cells is stated by the lemmas below) |
| Grid.TranslateZero | main.py:161 | a (0, 0) shift returns the grid unchanged |
| Grid.TranslateBack | main.py:161 | shifting back restores every cell the first shift kept and leaves 0.0 where it cropped |
| Grid.TranslateTwice | main.py:161 | two shifts compose into one by the summed offset when the first crops no ink |
| Grid.TranslateKeepsZeroOrWithin | main.py:161 | a shift keeps "every cell is 0.0 or in [lo, hi]" |
| Centring.ShiftedSum | main.py:161 | shifting one axis by d, when no non-zero entry falls off, keeps the total |
| Centring.ShiftedMoment | main.py:158-161 | such a shift adds d times the total to the first moment (coordinate times intensity) |
| Centring.RowMomentMoves | main.py:158-161 | a grid shift that crops no ink keeps the mass and adds dy times it to the row moment |
| Centring.ColumnMomentMoves | main.py:158-161 | the same shift adds dx times the mass to the column moment |
| Centring.CentroidMoves | main.py:158-161 | a shift by (dy, dx) that crops no ink keeps the mass and moves `center_of_mass` by exactly (dy, dx) |
| Predictor.CenteringReachesTarget | main.py:158-161 | when the centring shift crops no ink, the new centroid is within 1 of (14, 14) on both axes, and the offsets computed again are (0, 0) |
| Predictor.CenterIdempotent | main.py:158-161 | under the same condition, centring the centred grid gives it back unchanged |
| Predictor.Center | main.py:158-161 | centring yields a 28 x 28 grid, and it can only fail on a blank canvas |
| Predictor.Preprocessed | main.py:154-161 | preprocessing yields a 28 x 28 grid whenever it succeeds |
| Predictor.Preprocess | main.py:154-161 | the array-based run of lines 154-161 gives exactly the result of the pure `Preprocessed` |
| Predictor.PreprocessedCells | main.py:154-161 | for a canvas in [0, 1], every prepared cell is 0.0 or in [0.2, 1] |
| Grid.Flatten | main.py:164 | `reshape(1, 784)` is row-major: `flat[28 i + j] == img[i][j]` |
| Grid.UnflattenFlatten | main.py:164 | reshaping back to 28 x 28 recovers the grid |
| Grid.FlattenUnflatten | src/visualizer.py:120 | flattening a reshaped 784-vector recovers the vector |
| Numeric.VecMat | main.py:166-169 | `x @ m`: one entry per column of m (its algebra is in the two rows below) |
| Numeric.VecMatScale | main.py:166 | the product with a weight matrix is homogeneous: `(c x) @ m == c (x @ m)` |
| Numeric.VecMatAdd | main.py:166 | the product is additive: `(x + y) @ m == x @ m + y @ m`; with VecMatScale, it is linear |
| Predictor.Relu | main.py:167 | ReLU output is the least value at least both 0 and the input, entry by entry |
| Predictor.ReluScale | main.py:167 | ReLU commutes with multiplication by a non-negative constant |
| Predictor.HiddenLayer | main.py:166-167 | one non-negative hidden activation per column of `W_ih` |
| Predictor.OutputLayer | main.py:169 | one raw output per column of `W_ho` |
| Predictor.NetworkHomogeneous | main.py:164-169 | with no biases, scaling the input by c >= 0 scales every raw output by c |
| Numeric.FirstArgmax | main.py:172 | `np.argmax` returns an index of the vector (ArgmaxIsFirstMax states which one) |
| Numeric.ArgmaxIsFirstMax | main.py:172 | `np.argmax` returns an index whose entry is at least every other, and every earlier entry is strictly smaller |
| Numeric.ArgmaxOrderInvariant | main.py:170-172 | two vectors ordered alike have the same first arg-max |
| Predictor.Classify | main.py:150-173 | the prediction fails only with BlankCanvas or NoClasses; on success the confidence is the output entry at the digit, which is a valid index |
| Predictor.ClassifyIsFirstMax | main.py:172-173 | the digit is the first index of the maximum output, and the confidence is that maximum |
| Predictor.ClassifyFailures | main.py:152-173 | the prediction fails on a blank canvas exactly when every cell exceeds 0.8, and otherwise only when softmax returns nothing |
| Predictor.ClassifyOrderInvariant | main.py:166-173 | when softmax keeps the order of the raw outputs, the digit is the first arg-max of the raw outputs |
| Predictor.PredictDigit | main.py:150-183 | a successful run carries exactly the prediction of Classify; a failure is EmptyDisplay or the failure of Classify |
| Predictor.DisplayedActivations | main.py:177-183 | after a prediction, the view fails exactly when there are no hidden units; every hidden node shows a value in [0, 1], and so does every output node for non-negative softmax values |
| Predictor.DisplayedInputs | main.py:177-183 | for a canvas in [0, 1], every input node of the view after a prediction shows a value in [0, 1] |
| Numeric.Linspace | src/visualizer.py:71 | `np.linspace(start, stop, num)` has num points (their placement is LinspaceShape) |
| Numeric.LinspaceShape | src/visualizer.py:71 | `np.linspace` starts at the start value, ends at the stop value (for n >= 2) and takes equal steps |
| Visualizer.Positions | src/visualizer.py:70-71 | n points, all with abscissa x |
| Visualizer.PositionsLayout | src/visualizer.py:70-71 | the first node is at y_start, the last at y_end, and the spacing is equal |
| Numeric.Mean | src/visualizer.py:121 | `np.mean` lies between the smallest and the largest entry |
| Visualizer.RowMeans | src/visualizer.py:121 | one mean per row, 28 in all |
| Visualizer.RowMeansWithinRows | src/visualizer.py:121 | each row mean lies between the row's smallest and largest cell |
| Numeric.Interp | src/visualizer.py:122 | `np.interp` over `np.arange` lies between the smallest and the largest sample |
| Numeric.InterpAtKnot | src/visualizer.py:122 | `np.interp` at a sample point returns that sample |
| Numeric.InterpBounded | src/visualizer.py:122 | an interpolated value keeps any bounds that hold for every sample |
| Visualizer.ProjectInput | src/visualizer.py:122 | one input value per node |
| Visualizer.InputSamplesEveryThirdRow | src/visualizer.py:122 | with 10 input nodes, node k shows exactly the mean of row 3k |
| Visualizer.InputWithinProfile | src/visualizer.py:122 | every input value lies between the smallest and the largest row mean |
| Visualizer.InputInUnitRange | src/visualizer.py:121-122 | for a grid with every cell in [0, 1], every input node shows a value in [0, 1] |
| Visualizer.Select | src/visualizer.py:125 | `v[:k]` has min(k, len(v)) entries, the first entries of v in order |
| Numeric.SeqMaxIsMax | src/visualizer.py:126 | `np.max` is an entry that is at least every entry |
| Numeric.SeqMaxScale | src/visualizer.py:126 | the maximum of `c * s` is `c` times the maximum, for c > 0 |
| Visualizer.Normalize | src/visualizer.py:126 | `v / np.max(v)` (or v itself when the maximum is 0) has as many entries as v (its range and invariances are the rows below) |
| Visualizer.NormalizeUnitRange | src/visualizer.py:126 | a non-negative selection normalises into [0, 1]; its first maximum shows 1 when some entry is positive, and an all-zero selection is returned as is |
| Visualizer.NormalizeScaleInvariant | src/visualizer.py:126 | multiplying a selection whose maximum is not 0 by c > 0 does not change what is shown |
| Visualizer.NormalizeIdempotent | src/visualizer.py:126 | normalising a non-negative selection twice is normalising it once |
| Visualizer.ProjectLayer | src/visualizer.py:125-129 | a column fails exactly when its selection is empty (`np.max` raises), and otherwise has min(k, len(v)) values |
| Visualizer.ProjectLayerInUnitRange | src/visualizer.py:125-129 | for non-negative activations every node of the column shows a value in [0, 1] |
| Visualizer.UpdateView | src/visualizer.py:118-129 | the view exists exactly when both activation vectors are non-empty, with 10 input values and prefixes of at most 16 and 10 values |

## Left out

- The Qt interface is not modelled. This covers the drawing canvas and
  its mouse handlers, the timer, the window layout and the label text
  with its `:.1f` formatting. It is user-interface code.
- Reading the canvas into an array and `tf.image.resize` are not
  modelled. The resized 28 x 28 grid is the input of the model.
- Loading the model file and `get_weights` are not modelled. The two
  matrices and their column counts are a `Weights` parameter.
- `tf.nn.softmax` needs `exp`, so it is a function parameter.
  `ClassifyOrderInvariant` states what an order-preserving softmax
  implies.
- The model assumes the weights have the shapes the products need
  (`WellShaped`). NumPy would raise on a mismatch; that path is not
  modelled.
- Predictor.PredictDigit: when `update_view` raises (no hidden units), the
  source has already written the prediction to the label. The model
  returns `EmptyDisplay` and does not keep that prediction. The label is
  user interface, and `Classify` still gives the prediction.
- Matplotlib drawing, colour maps, edges and circle recolouring are not
  modelled; they are rendering. The node values that feed them are
  modelled.
- The training and metrics scripts are not part of this model.
- Floating-point rounding is not modelled; every value is an exact real.
  One visible consequence: a resized value of exactly 0.8 is kept by the
  mask here, because 1 - 0.8 equals 0.2 exactly. In binary floating point,
  `1.0 - 0.8` is slightly below 0.2, so the source zeroes that cell.
- `shift` uses a cubic spline, which is modelled only at integer offsets.
  That is the only kind of offset the source passes, and there the
  spline reproduces the samples, so the shift is an exact translation.
