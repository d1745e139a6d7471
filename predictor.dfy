/**
 * MainWindow.predict_digit: from the resized 28 x 28 canvas to the
 * predicted digit, its confidence, and the values handed to the network
 * view. The canvas capture and the resize are outside the model (the
 * resized grid is the input), as are the weight file (the two matrices
 * are a parameter) and the exponentials of softmax (a function parameter).
 */
module Predictor {
  import opened Outcomes
  import opened Numeric
  import opened Grid
  import Centring
  import Visualizer

  /** Inverted cells below this value are treated as background. */
  const Cutoff: real := 0.2

  /** The coordinate the centring moves the centroid towards, on both axes. */
  const Target: real := 14.0

  /** Why a prediction is abandoned (each is an exception in the source). */
  datatype Fault =
    | BlankCanvas   // center_of_mass yields NaN and int() rejects it
    | NoClasses     // np.argmax of an empty output vector
    | EmptyDisplay  // np.max of an empty hidden or output selection

  // ---------------------------------------------------------------------
  // preprocessing
  // ---------------------------------------------------------------------

  /** `1.0 - resized`: dark strokes on white become bright on black. */
  function Invert(g: Image): (r: Image)
    requires IsGrid(g)
    ensures IsGrid(r)
  {
    seq(Side, i requires 0 <= i < Side =>
      seq(Side, j requires 0 <= j < Side => 1.0 - g[i][j]))
  }

  /** The mask assignment applied to one cell. */
  function Cut(v: real): real
  {
    if v < Cutoff then 0.0 else v
  }

  /**
   * `img[img < 0.2] = 0.0`: every cell ends up 0.0 or at least the cut-off,
   * and a cell that is not zeroed keeps its value.
   */
  function Threshold(g: Image): (r: Image)
    requires IsGrid(g)
    ensures IsGrid(r)
    ensures forall i, j :: 0 <= i < Side && 0 <= j < Side ==>
      (r[i][j] == 0.0 && g[i][j] < Cutoff) || (r[i][j] == g[i][j] && Cutoff <= r[i][j])
  {
    seq(Side, i requires 0 <= i < Side =>
      seq(Side, j requires 0 <= j < Side => Cut(g[i][j])))
  }

  /** Applying the mask a second time changes nothing. */
  lemma ThresholdIdempotent(g: Image)
    requires IsGrid(g)
    ensures Threshold(Threshold(g)) == Threshold(g)
  {
    var t := Threshold(g);
    forall i | 0 <= i < Side
      ensures Threshold(t)[i] == t[i]
    {
    }
  }

  /**
   * After inversion and the mask, a cell is 0.0 exactly when the resized
   * canvas was lighter than 1 - 0.2 there, and is 1 - resized otherwise.
   */
  lemma InvertThresholdCells(resized: Image)
    requires IsGrid(resized)
    ensures forall i, j :: 0 <= i < Side && 0 <= j < Side ==>
      Threshold(Invert(resized))[i][j] ==
        if resized[i][j] > 1.0 - Cutoff then 0.0 else 1.0 - resized[i][j]
  {
  }

  /** The reading of a 2-D array as a grid, row by row. */
  function Cells(a: array2<real>): (g: Image)
    reads a
    ensures |g| == a.Length0
    ensures forall i :: 0 <= i < a.Length0 ==> |g[i]| == a.Length1
  {
    seq(a.Length0, i requires 0 <= i < a.Length0 reads a =>
      seq(a.Length1, j requires 0 <= j < a.Length1 reads a => a[i, j]))
  }

  /** The masked assignment of line 155, done in place, cell by cell. */
  method ThresholdInPlace(img: array2<real>)
    requires img.Length0 == Side && img.Length1 == Side
    modifies img
    ensures Cells(img) == Threshold(old(Cells(img)))
  {
    ghost var before := Cells(img);
    var i := 0;
    while i < Side
      invariant 0 <= i <= Side
      invariant forall r, c :: 0 <= r < Side && 0 <= c < Side ==>
        img[r, c] == if r < i then Cut(before[r][c]) else before[r][c]
    {
      var j := 0;
      while j < Side
        invariant 0 <= j <= Side
        invariant forall r, c :: 0 <= r < Side && 0 <= c < Side ==>
          img[r, c] == if r < i || (r == i && c < j) then Cut(before[r][c]) else before[r][c]
      {
        if img[i, j] < Cutoff {
          img[i, j] := 0.0;
        }
        j := j + 1;
      }
      i := i + 1;
    }
    assert IsGrid(before);
    forall r | 0 <= r < Side
      ensures Cells(img)[r] == Threshold(before)[r]
    {
    }
  }

  /** `int(14 - c)`: the offset that moves coordinate c towards the target. */
  function Offset(c: real): (s: int)
    ensures 0.0 <= s as real <= Target - c || Target - c <= s as real <= 0.0
    ensures -1.0 < (Target - c) - s as real < 1.0
    ensures s == 0 <==> Target - 1.0 < c < Target + 1.0
  {
    Trunc(Target - c)
  }

  /**
   * Lines 158-160: the centroid and the integer offsets. A grid with no
   * intensity has no centroid; the source then raises, and so this fails.
   */
  function CenteringOffset(g: Image): (r: Result<(int, int), Fault>)
    requires IsGrid(g)
    ensures r.Failure? <==> Mass(g) == 0.0
    ensures r.Failure? ==> r.error == BlankCanvas
    ensures r.Success? ==>
      -1.0 < (Target - CenterOfMass(g).0) - r.value.0 as real < 1.0 &&
      -1.0 < (Target - CenterOfMass(g).1) - r.value.1 as real < 1.0
  {
    if Mass(g) == 0.0 then Failure(BlankCanvas)
    else
      var (cy, cx) := CenterOfMass(g);
      Success((Offset(cy), Offset(cx)))
  }

  /** Line 161: shift the grid by its centring offset. */
  function Center(g: Image): (r: Result<Image, Fault>)
    requires IsGrid(g)
    ensures r.Success? ==> IsGrid(r.value)
    ensures r.Failure? ==> r.error == BlankCanvas
  {
    match CenteringOffset(g)
    case Failure(e) => Failure(e)
    case Success((dy, dx)) => Success(Translate(g, dy, dx))
  }

  /** Lines 154-161 as one step: invert, mask, centre. */
  function Preprocessed(resized: Image): (r: Result<Image, Fault>)
    requires IsGrid(resized)
    ensures r.Success? ==> IsGrid(r.value)
  {
    Center(Threshold(Invert(resized)))
  }

  /**
   * Lines 154-161 as the source runs them: a fresh array holding the
   * inverted grid, masked in place, then centred.
   */
  method Preprocess(resized: Image) returns (r: Result<Image, Fault>)
    requires IsGrid(resized)
    ensures r == Preprocessed(resized)
  {
    var img := new real[Side, Side]((i, j) requires 0 <= i < Side && 0 <= j < Side => 1.0 - resized[i][j]);
    assert Cells(img) == Invert(resized) by {
      forall i | 0 <= i < Side
        ensures Cells(img)[i] == Invert(resized)[i]
      {
      }
    }
    ThresholdInPlace(img);
    r := Center(Cells(img));
  }

  /**
   * The canvas counts as blank, and the prediction is abandoned, exactly
   * when every resized cell is lighter than 1 - 0.2.
   */
  lemma BlankCanvasIff(resized: Image)
    requires IsGrid(resized)
    ensures Preprocessed(resized).Failure? <==>
      forall i, j :: 0 <= i < Side && 0 <= j < Side ==> resized[i][j] > 1.0 - Cutoff
  {
    var t := Threshold(Invert(resized));
    InvertThresholdCells(resized);
    MassZeroIff(t);
  }

  /**
   * The centring offset of a masked grid with some ink is at most 14 and
   * at least -13 on each axis, since the centroid lies inside the grid.
   */
  lemma OffsetRange(g: Image)
    requires IsGrid(g) && NonNegativeCells(g)
    requires CenteringOffset(g).Success?
    ensures -13 <= CenteringOffset(g).value.0 <= 14
    ensures -13 <= CenteringOffset(g).value.1 <= 14
  {
    MassZeroIff(g);
    CentroidInGrid(g);
  }

  /**
   * When the centring shift crops no ink, it does what it is for: the
   * centroid of the centred grid is within 1 of (14, 14), so the centring
   * offset of the centred grid is (0, 0). (A shift that crops ink, as for
   * a stroke at one edge and a heavier one at the other, moves the
   * centroid by a different amount.)
   */
  lemma CenteringReachesTarget(g: Image)
    requires IsGrid(g) && CenteringOffset(g).Success?
    requires KeepsInk(g, CenteringOffset(g).value.0, CenteringOffset(g).value.1)
    ensures Center(g).Success? && Mass(Center(g).value) == Mass(g)
    ensures Target - 1.0 < CenterOfMass(Center(g).value).0 < Target + 1.0
    ensures Target - 1.0 < CenterOfMass(Center(g).value).1 < Target + 1.0
    ensures CenteringOffset(Center(g).value) == Success((0, 0))
  {
    var (dy, dx) := CenteringOffset(g).value;
    Centring.CentroidMoves(g, dy, dx);
  }

  /** Under the same condition, centring an already centred grid changes nothing. */
  lemma CenterIdempotent(g: Image)
    requires IsGrid(g) && CenteringOffset(g).Success?
    requires KeepsInk(g, CenteringOffset(g).value.0, CenteringOffset(g).value.1)
    ensures Center(g).Success? && Center(Center(g).value) == Center(g)
  {
    CenteringReachesTarget(g);
    TranslateZero(Center(g).value);
  }

  /**
   * For a canvas with values in [0, 1] (what the resize of a 0..255 image
   * divided by 255 yields), each cell of the centred grid is 0.0 or lies
   * in [0.2, 1].
   */
  lemma PreprocessedCells(resized: Image)
    requires IsGrid(resized)
    requires forall i, j :: 0 <= i < Side && 0 <= j < Side ==> 0.0 <= resized[i][j] <= 1.0
    requires Preprocessed(resized).Success?
    ensures ZeroOrWithin(Preprocessed(resized).value, Cutoff, 1.0)
    ensures NonNegativeCells(Preprocessed(resized).value)
  {
    var t := Threshold(Invert(resized));
    InvertThresholdCells(resized);
    assert ZeroOrWithin(t, Cutoff, 1.0);
    var (dy, dx) := CenteringOffset(t).value;
    TranslateKeepsZeroOrWithin(t, dy, dx, Cutoff, 1.0);
  }

  // ---------------------------------------------------------------------
  // forward pass
  // ---------------------------------------------------------------------

  /**
   * The two weight matrices of the dense layers, with their column counts
   * (numpy arrays carry their shape even when a dimension is 0).
   */
  datatype Weights = Weights(
    inputHidden: seq<seq<real>>,
    hiddenOutput: seq<seq<real>>,
    hidden: nat,
    classes: nat)

  /** 784 x hidden and hidden x classes, as the two products need. */
  predicate WellShaped(w: Weights)
  {
    |w.inputHidden| == Pixels && Rectangular(w.inputHidden, w.hidden) &&
    |w.hiddenOutput| == w.hidden && Rectangular(w.hiddenOutput, w.classes)
  }

  /**
   * tf.nn.relu: the least value that is at least both 0 and the input,
   * entry by entry.
   */
  function Relu(v: seq<real>): (r: seq<real>)
    ensures |r| == |v| && NonNegative(r)
    ensures forall i :: 0 <= i < |v| ==> v[i] <= r[i] && (r[i] == 0.0 || r[i] == v[i])
  {
    seq(|v|, i requires 0 <= i < |v| => if v[i] < 0.0 then 0.0 else v[i])
  }

  /** ReLU commutes with multiplication by a non-negative constant. */
  lemma ReluScale(c: real, v: seq<real>)
    requires c >= 0.0
    ensures Relu(Scale(c, v)) == Scale(c, Relu(v))
  {
    forall i | 0 <= i < |v|
      ensures Relu(Scale(c, v))[i] == Scale(c, Relu(v))[i]
    {
      ReluOfProduct(c, v[i]);
    }
  }

  lemma ReluOfProduct(c: real, x: real)
    requires c >= 0.0
    ensures (if c * x < 0.0 then 0.0 else c * x) == c * (if x < 0.0 then 0.0 else x)
  {
    if x < 0.0 {
      MulMono(c, x, 0.0);
    } else {
      MulMono(c, 0.0, x);
    }
  }

  /** Lines 166-167: `relu(flat @ W_ih)`, with no bias term. */
  function HiddenLayer(flat: seq<real>, w: Weights): (r: seq<real>)
    requires WellShaped(w) && |flat| == Pixels
    ensures |r| == w.hidden && NonNegative(r)
  {
    Relu(VecMat(flat, w.inputHidden, w.hidden))
  }

  /** Line 169: `hidden @ W_ho`. */
  function OutputLayer(hidden: seq<real>, w: Weights): (r: seq<real>)
    requires WellShaped(w) && |hidden| == w.hidden
    ensures |r| == w.classes
  {
    VecMat(hidden, w.hiddenOutput, w.classes)
  }

  /** Hidden unit k is the positive part of the flat input dotted with column k of W_ih. */
  lemma HiddenUnit(flat: seq<real>, w: Weights, k: nat)
    requires WellShaped(w) && |flat| == Pixels && k < w.hidden
    ensures var d := Dot(flat, Column(w.inputHidden, k));
      HiddenLayer(flat, w)[k] == if d < 0.0 then 0.0 else d
  {
  }

  /**
   * With no bias in either layer, the network before softmax is positively
   * homogeneous: scaling the input by c >= 0 scales every output by c.
   */
  lemma NetworkHomogeneous(c: real, flat: seq<real>, w: Weights)
    requires c >= 0.0 && WellShaped(w) && |flat| == Pixels
    ensures OutputLayer(HiddenLayer(Scale(c, flat), w), w) ==
      Scale(c, OutputLayer(HiddenLayer(flat, w), w))
  {
    VecMatScale(c, flat, w.inputHidden, w.hidden);
    ReluScale(c, VecMat(flat, w.inputHidden, w.hidden));
    VecMatScale(c, HiddenLayer(flat, w), w.hiddenOutput, w.classes);
  }

  /** The raw outputs (before softmax) for a preprocessed grid. */
  function Logits(img: Image, w: Weights): (r: seq<real>)
    requires IsGrid(img) && WellShaped(w)
    ensures |r| == w.classes
  {
    OutputLayer(HiddenLayer(Flatten(img), w), w)
  }

  // ---------------------------------------------------------------------
  // prediction
  // ---------------------------------------------------------------------

  /** What lines 152-173 compute, and what is passed on to the view. */
  datatype Prediction = Prediction(
    digit: nat,
    confidence: real,
    image: Image,
    hidden: seq<real>,
    output: seq<real>)

  /**
   * Lines 152-173: preprocess, forward pass, softmax (a parameter), then
   * the first index of the maximum and the value there.
   */
  function Classify(resized: Image, w: Weights, softmax: seq<real> -> seq<real>): (r: Result<Prediction, Fault>)
    requires IsGrid(resized) && WellShaped(w)
    ensures r.Failure? ==> r.error == BlankCanvas || r.error == NoClasses
    ensures r.Success? ==>
      r.value.digit < |r.value.output| && r.value.confidence == r.value.output[r.value.digit]
  {
    match Preprocessed(resized)
    case Failure(e) => Failure(e)
    case Success(img) =>
      var hidden := HiddenLayer(Flatten(img), w);
      var output := softmax(OutputLayer(hidden, w));
      if |output| == 0 then Failure(NoClasses)
      else
        var k := FirstArgmax(output);
        Success(Prediction(k, output[k], img, hidden, output))
  }

  /**
   * The predicted digit is the first index at which the output attains its
   * maximum, and the confidence is that maximum.
   */
  lemma ClassifyIsFirstMax(resized: Image, w: Weights, softmax: seq<real> -> seq<real>)
    requires IsGrid(resized) && WellShaped(w)
    requires Classify(resized, w, softmax).Success?
    ensures var p := Classify(resized, w, softmax).value;
      p.digit < |p.output| && p.confidence == p.output[p.digit] &&
      (forall j :: 0 <= j < |p.output| ==> p.output[j] <= p.confidence) &&
      (forall j :: 0 <= j < p.digit ==> p.output[j] < p.confidence)
  {
    var p := Classify(resized, w, softmax).value;
    ArgmaxIsFirstMax(p.output);
  }

  /**
   * The prediction fails on a blank canvas, and otherwise only when softmax
   * returns an empty vector.
   */
  lemma ClassifyFailures(resized: Image, w: Weights, softmax: seq<real> -> seq<real>)
    requires IsGrid(resized) && WellShaped(w)
    ensures Classify(resized, w, softmax) == Failure(BlankCanvas) <==>
      forall i, j :: 0 <= i < Side && 0 <= j < Side ==> resized[i][j] > 1.0 - Cutoff
    ensures Classify(resized, w, softmax) == Failure(NoClasses) <==>
      Preprocessed(resized).Success? &&
      |softmax(Logits(Preprocessed(resized).value, w))| == 0
  {
    BlankCanvasIff(resized);
  }

  /**
   * When softmax keeps the order of the raw outputs (as the exponential
   * does), the digit is the first arg-max of the raw outputs.
   */
  lemma ClassifyOrderInvariant(resized: Image, w: Weights, softmax: seq<real> -> seq<real>)
    requires IsGrid(resized) && WellShaped(w)
    requires Preprocessed(resized).Success?
    requires w.classes > 0
    requires var logits := Logits(Preprocessed(resized).value, w);
      |softmax(logits)| == |logits| && SameOrder(logits, softmax(logits))
    ensures Classify(resized, w, softmax).Success?
    ensures Classify(resized, w, softmax).value.digit ==
      FirstArgmax(Logits(Preprocessed(resized).value, w))
  {
    var logits := Logits(Preprocessed(resized).value, w);
    ClassifyDigit(resized, w, softmax);
    ArgmaxOrderInvariant(logits, softmax(logits));
  }

  lemma ClassifyDigit(resized: Image, w: Weights, softmax: seq<real> -> seq<real>)
    requires IsGrid(resized) && WellShaped(w)
    requires Preprocessed(resized).Success?
    ensures var output := softmax(Logits(Preprocessed(resized).value, w));
      |output| > 0 ==>
        Classify(resized, w, softmax).Success? &&
        Classify(resized, w, softmax).value.digit == FirstArgmax(output)
  {
  }

  /** Everything predict_digit produces: the prediction and the view. */
  datatype Display = Display(prediction: Prediction, view: Visualizer.View)

  /**
   * The whole of predict_digit: the prediction, then update_view on the
   * centred grid, the hidden activations and the softmax output.
   */
  function PredictDigit(resized: Image, w: Weights, softmax: seq<real> -> seq<real>): (r: Result<Display, Fault>)
    requires IsGrid(resized) && WellShaped(w)
    ensures r.Success? ==> Classify(resized, w, softmax) == Success(r.value.prediction)
    ensures r.Failure? ==> r.error == EmptyDisplay || Classify(resized, w, softmax) == Failure(r.error)
  {
    match Classify(resized, w, softmax)
    case Failure(e) => Failure(e)
    case Success(p) =>
      assert IsGrid(p.image);
      match Visualizer.UpdateView(p.image, p.hidden, p.output)
      case Failure(_) => Failure(EmptyDisplay)
      case Success(v) => Success(Display(p, v))
  }

  /**
   * After a successful prediction, the view fails exactly when the network
   * has no hidden units; every hidden node then shows a value in [0, 1],
   * and so does every output node when softmax yields non-negative values.
   */
  lemma DisplayedActivations(resized: Image, w: Weights, softmax: seq<real> -> seq<real>)
    requires IsGrid(resized) && WellShaped(w)
    requires Classify(resized, w, softmax).Success?
    ensures PredictDigit(resized, w, softmax).Success? <==> w.hidden > 0
    ensures PredictDigit(resized, w, softmax).Success? ==>
      var v := PredictDigit(resized, w, softmax).value.view;
      (forall i :: 0 <= i < |v.hidden| ==> 0.0 <= v.hidden[i] <= 1.0) &&
      (NonNegative(Classify(resized, w, softmax).value.output) ==>
        forall i :: 0 <= i < |v.output| ==> 0.0 <= v.output[i] <= 1.0)
  {
    var p := Classify(resized, w, softmax).value;
    if w.hidden > 0 {
      Visualizer.ProjectLayerInUnitRange(p.hidden, Visualizer.HiddenNodes);
      if NonNegative(p.output) {
        Visualizer.ProjectLayerInUnitRange(p.output, Visualizer.OutputNodes);
      }
    }
  }

  /**
   * For a canvas with values in [0, 1], every input node of the view shows
   * a value in [0, 1]: the centred grid's cells are 0.0 or in [0.2, 1], so
   * its row means and their interpolation stay in [0, 1].
   */
  lemma DisplayedInputs(resized: Image, w: Weights, softmax: seq<real> -> seq<real>)
    requires IsGrid(resized) && WellShaped(w)
    requires forall i, j :: 0 <= i < Side && 0 <= j < Side ==> 0.0 <= resized[i][j] <= 1.0
    requires PredictDigit(resized, w, softmax).Success?
    ensures var v := PredictDigit(resized, w, softmax).value.view;
      forall i :: 0 <= i < |v.input| ==> 0.0 <= v.input[i] <= 1.0
  {
    var img := Preprocessed(resized).value;
    PreprocessedCells(resized);
    assert forall i, j :: 0 <= i < Side && 0 <= j < Side ==> 0.0 <= img[i][j] <= 1.0;
    Visualizer.InputInUnitRange(img, Visualizer.InputNodes);
  }
}
