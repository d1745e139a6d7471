/**
 * The numeric side of NeuralNetworkVisualizer: where the nodes of the three
 * columns are placed, and how update_view reduces an image and two
 * activation vectors to one display value per node. Drawing, colour maps
 * and edges are not modelled.
 */
module Visualizer {
  import opened Outcomes
  import opened Numeric
  import opened Grid

  /** Number of nodes drawn in the input column. */
  const InputNodes: nat := 10

  /** Number of nodes drawn in the hidden column. */
  const HiddenNodes: nat := 16

  /** Number of nodes drawn in the output column. */
  const OutputNodes: nat := 10

  // ---------------------------------------------------------------------
  // node layout
  // ---------------------------------------------------------------------

  datatype Point = Point(x: real, y: real)

  /** The nested helper `positions`: n points on the vertical line at x. */
  function Positions(n: nat, x: real, yStart: real, yEnd: real): (r: seq<Point>)
    ensures |r| == n
    ensures forall k :: 0 <= k < n ==> r[k].x == x
  {
    var ys := Linspace(yStart, yEnd, n);
    seq(n, k requires 0 <= k < n => Point(x, ys[k]))
  }

  /**
   * With two nodes or more, the first node sits at yStart, the last at
   * yEnd, and consecutive nodes are one equal step apart.
   */
  lemma PositionsLayout(n: nat, x: real, yStart: real, yEnd: real)
    requires n >= 2
    ensures Positions(n, x, yStart, yEnd)[0].y == yStart
    ensures Positions(n, x, yStart, yEnd)[n - 1].y == yEnd
    ensures forall k :: 0 <= k < n - 1 ==>
      Positions(n, x, yStart, yEnd)[k + 1].y - Positions(n, x, yStart, yEnd)[k].y
        == (yEnd - yStart) / (n - 1) as real
  {
    LinspaceShape(yStart, yEnd, n);
  }

  // ---------------------------------------------------------------------
  // input column: row profile, sampled by interpolation
  // ---------------------------------------------------------------------

  /** np.mean(image, axis=1): the mean intensity of each row. */
  function RowMeans(g: Image): (r: seq<real>)
    requires IsGrid(g)
    ensures |r| == Side
  {
    seq(Side, i requires 0 <= i < Side => Mean(g[i]))
  }

  /** Each row mean lies between the least and the greatest cell of its row. */
  lemma RowMeansWithinRows(g: Image)
    requires IsGrid(g)
    ensures forall i :: 0 <= i < Side ==>
      SeqMin(g[i]) <= RowMeans(g)[i] <= SeqMax(g[i])
  {
    forall i | 0 <= i < Side
      ensures SeqMin(g[i]) <= RowMeans(g)[i] <= SeqMax(g[i])
    {
      assert RowMeans(g)[i] == Mean(g[i]);
    }
  }

  /**
   * The input values: the row profile interpolated at `nodes` evenly spaced
   * points of [0, 27].
   */
  function ProjectInput(g: Image, nodes: nat): (r: seq<real>)
    requires IsGrid(g)
    ensures |r| == nodes
  {
    var avg := RowMeans(g);
    var xs := Linspace(0.0, (Side - 1) as real, nodes);
    seq(nodes, k requires 0 <= k < nodes => Interp(xs[k], avg))
  }

  /**
   * With ten input nodes the sample points are 0, 3, ..., 27, all of them
   * rows, so node k shows exactly the mean of row 3k.
   */
  lemma InputSamplesEveryThirdRow(g: Image)
    requires IsGrid(g)
    ensures forall k :: 0 <= k < InputNodes ==> ProjectInput(g, InputNodes)[k] == RowMeans(g)[3 * k]
  {
    var xs := Linspace(0.0, (Side - 1) as real, InputNodes);
    forall k | 0 <= k < InputNodes
      ensures ProjectInput(g, InputNodes)[k] == RowMeans(g)[3 * k]
    {
      assert xs[k] == (3 * k) as real;
      InterpAtKnot(3 * k, RowMeans(g));
    }
  }

  /**
   * Every input value lies between the least and the greatest row mean,
   * whatever the number of nodes.
   */
  lemma InputWithinProfile(g: Image, nodes: nat)
    requires IsGrid(g)
    ensures forall k :: 0 <= k < nodes ==>
      SeqMin(RowMeans(g)) <= ProjectInput(g, nodes)[k] <= SeqMax(RowMeans(g))
  {
    var xs := Linspace(0.0, (Side - 1) as real, nodes);
    forall k | 0 <= k < nodes
      ensures SeqMin(RowMeans(g)) <= ProjectInput(g, nodes)[k] <= SeqMax(RowMeans(g))
    {
      assert ProjectInput(g, nodes)[k] == Interp(xs[k], RowMeans(g));
    }
  }

  /**
   * A grid with every cell in [0, 1] (what preprocessing yields for a
   * canvas in [0, 1]) shows every input node in [0, 1].
   */
  lemma InputInUnitRange(g: Image, nodes: nat)
    requires IsGrid(g)
    requires forall i, j :: 0 <= i < Side && 0 <= j < Side ==> 0.0 <= g[i][j] <= 1.0
    ensures forall k :: 0 <= k < nodes ==> 0.0 <= ProjectInput(g, nodes)[k] <= 1.0
  {
    var avg := RowMeans(g);
    forall i | 0 <= i < Side
      ensures 0.0 <= avg[i] <= 1.0
    {
      MeanAtLeast(g[i], 0.0);
      MeanAtMost(g[i], 1.0);
    }
    var xs := Linspace(0.0, (Side - 1) as real, nodes);
    forall k | 0 <= k < nodes
      ensures 0.0 <= ProjectInput(g, nodes)[k] <= 1.0
    {
      InterpBounded(xs[k], avg, 0.0, 1.0);
    }
  }

  // ---------------------------------------------------------------------
  // hidden and output columns: prefix, then divide by the maximum
  // ---------------------------------------------------------------------

  function Min(a: nat, b: nat): nat
  {
    if a <= b then a else b
  }

  /** `v[:k]`: the first k entries, or all of them when there are fewer. */
  function Select(v: seq<real>, k: nat): (r: seq<real>)
    ensures |r| == Min(k, |v|)
    ensures forall i :: 0 <= i < |r| ==> r[i] == v[i]
  {
    v[..Min(k, |v|)]
  }

  /** `s / m`, entry by entry. */
  function Divide(s: seq<real>, m: real): (r: seq<real>)
    requires m != 0.0
    ensures |r| == |s|
  {
    seq(|s|, i requires 0 <= i < |s| => s[i] / m)
  }

  /**
   * `s / np.max(s) if np.max(s) != 0 else s` for a non-empty selection
   * (np.max raises on an empty one; ProjectLayer handles that).
   */
  function Normalize(s: seq<real>): (r: seq<real>)
    requires |s| > 0
    ensures |r| == |s|
  {
    var m := SeqMax(s);
    if m != 0.0 then Divide(s, m) else s
  }

  lemma DivideIsScale(s: seq<real>, m: real)
    requires m != 0.0
    ensures Divide(s, m) == Scale(1.0 / m, s)
  {
    forall i | 0 <= i < |s|
      ensures Divide(s, m)[i] == Scale(1.0 / m, s)[i]
    {
      DivideByMultiplying(s[i], m);
    }
  }

  lemma DivideByMultiplying(a: real, m: real)
    requires m != 0.0
    ensures a / m == (1.0 / m) * a
  {
  }

  lemma UnitRatio(a: real, m: real)
    requires 0.0 <= a <= m && m > 0.0
    ensures 0.0 <= a / m <= 1.0
  {
    DivideAtLeast(a, m, 0.0);
    DivideAtMost(a, m, 1.0);
  }

  /**
   * A non-negative selection normalises into [0, 1]; some value is exactly
   * 1 (the first maximum) when some entry is positive, and the selection is
   * returned as it is (all zeros) when none is.
   */
  lemma NormalizeUnitRange(s: seq<real>)
    requires |s| > 0 && NonNegative(s)
    ensures forall i :: 0 <= i < |s| ==> 0.0 <= Normalize(s)[i] <= 1.0
    ensures (exists i :: 0 <= i < |s| && s[i] > 0.0) ==> Normalize(s)[FirstArgmax(s)] == 1.0
    ensures (forall i :: 0 <= i < |s| ==> s[i] == 0.0) ==> Normalize(s) == s
  {
    var m := SeqMax(s);
    SeqMaxIsMax(s);
    ArgmaxIsFirstMax(s);
    if m != 0.0 {
      forall i | 0 <= i < |s|
        ensures 0.0 <= Normalize(s)[i] <= 1.0
      {
        UnitRatio(s[i], m);
      }
      SelfQuotient(m);
    } else {
      forall i | 0 <= i < |s|
        ensures s[i] == 0.0
      {
      }
    }
  }

  /**
   * Multiplying a selection whose maximum is not 0 by a positive constant
   * does not change what is displayed.
   */
  lemma NormalizeScaleInvariant(c: real, s: seq<real>)
    requires c > 0.0 && |s| > 0 && SeqMax(s) != 0.0
    ensures Normalize(Scale(c, s)) == Normalize(s)
  {
    var m := SeqMax(s);
    SeqMaxScale(c, s);
    NonZeroProduct(c, m);
    var t := Scale(c, s);
    assert SeqMax(t) == c * m;
    assert Normalize(t) == Divide(t, SeqMax(t));
    assert Normalize(t) == Divide(t, c * m);
    DivideScaled(c, s, m);
  }

  lemma DivideScaled(c: real, s: seq<real>, m: real)
    requires c > 0.0 && m != 0.0 && c * m != 0.0
    ensures Divide(Scale(c, s), c * m) == Divide(s, m)
  {
    forall i | 0 <= i < |s|
      ensures Divide(Scale(c, s), c * m)[i] == Divide(s, m)[i]
    {
      DivideScaledAt(c, s, m, i);
    }
  }

  lemma DivideScaledAt(c: real, s: seq<real>, m: real, i: nat)
    requires c > 0.0 && m != 0.0 && c * m != 0.0 && i < |s|
    ensures Divide(Scale(c, s), c * m)[i] == Divide(s, m)[i]
  {
    var a := s[i];
    assert Scale(c, s)[i] == c * a;
    CancelFactor(c, a, m);
  }

  lemma NonZeroProduct(c: real, m: real)
    requires c > 0.0 && m != 0.0
    ensures c * m != 0.0
  {
  }

  lemma CancelFactor(c: real, a: real, m: real)
    requires c > 0.0 && m != 0.0
    ensures (c * a) / (c * m) == a / m
  {
  }

  /** Normalising a non-negative selection a second time changes nothing. */
  lemma NormalizeIdempotent(s: seq<real>)
    requires |s| > 0 && NonNegative(s)
    ensures Normalize(Normalize(s)) == Normalize(s)
  {
    var m := SeqMax(s);
    if m != 0.0 {
      SeqMaxIsMax(s);
      var r := Divide(s, m);
      DivideIsScale(s, m);
      PositiveReciprocal(m);
      SeqMaxScale(1.0 / m, s);
      SelfRatio(m);
      assert SeqMax(r) == 1.0;
      forall i | 0 <= i < |r|
        ensures Divide(r, 1.0)[i] == r[i]
      {
      }
    }
  }

  lemma SelfQuotient(m: real)
    requires m != 0.0
    ensures m / m == 1.0
  {
  }

  lemma PositiveReciprocal(m: real)
    requires m > 0.0
    ensures 1.0 / m > 0.0
  {
  }

  lemma SelfRatio(m: real)
    requires m != 0.0
    ensures (1.0 / m) * m == 1.0
  {
  }

  datatype ViewFault = EmptySelection

  /**
   * One activation column: select the first k entries and normalise them.
   * np.max raises on an empty selection, which happens when the vector is
   * empty or k is 0.
   */
  function ProjectLayer(v: seq<real>, k: nat): (r: Result<seq<real>, ViewFault>)
    ensures r.Failure? <==> |v| == 0 || k == 0
    ensures r.Success? ==> |r.value| == Min(k, |v|)
  {
    var sel := Select(v, k);
    if |sel| == 0 then Failure(EmptySelection) else Success(Normalize(sel))
  }

  /** The display value of every node of the three columns. */
  datatype View = View(input: seq<real>, hidden: seq<real>, output: seq<real>)

  /**
   * The projection part of update_view: the input column from the image's
   * row profile, the hidden and output columns from the activations.
   */
  function UpdateView(image: Image, hidden: seq<real>, output: seq<real>): (r: Result<View, ViewFault>)
    requires IsGrid(image)
    ensures r.Success? <==> |hidden| > 0 && |output| > 0
    ensures r.Success? ==>
      |r.value.input| == InputNodes &&
      |r.value.hidden| == Min(HiddenNodes, |hidden|) &&
      |r.value.output| == Min(OutputNodes, |output|)
  {
    var input := ProjectInput(image, InputNodes);
    match ProjectLayer(hidden, HiddenNodes)
    case Failure(e) => Failure(e)
    case Success(h) =>
      match ProjectLayer(output, OutputNodes)
      case Failure(e) => Failure(e)
      case Success(o) => Success(View(input, h, o))
  }

  /**
   * For non-negative activations, as ReLU and softmax produce, every node of
   * a column shows a value in [0, 1].
   */
  lemma ProjectLayerInUnitRange(v: seq<real>, k: nat)
    requires NonNegative(v) && ProjectLayer(v, k).Success?
    ensures forall i :: 0 <= i < |ProjectLayer(v, k).value| ==>
      0.0 <= ProjectLayer(v, k).value[i] <= 1.0
  {
    NormalizeUnitRange(Select(v, k));
  }
}
