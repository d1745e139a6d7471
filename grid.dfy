/**
 * The 28 x 28 grid the digit recogniser works on, and the SciPy and NumPy
 * operations the prediction applies to it as a whole: center_of_mass,
 * shift by an integer offset with constant (zero) fill, and the row-major
 * reshape between the grid and the 784-vector the network reads.
 */
module Grid {
  import opened Numeric

  /** Side of the square grid (the MNIST format). */
  const Side: nat := 28

  /** Number of cells, the length of the flattened network input. */
  const Pixels: nat := Side * Side

  /** A grid as a sequence of rows. */
  type Image = seq<seq<real>>

  predicate IsGrid(g: Image)
  {
    |g| == Side && Rectangular(g, Side)
  }

  predicate NonNegativeCells(g: Image)
  {
    forall i, j :: 0 <= i < |g| && 0 <= j < |g[i]| ==> g[i][j] >= 0.0
  }

  // ---------------------------------------------------------------------
  // center_of_mass
  // ---------------------------------------------------------------------

  /** The total intensity of each row. */
  function RowSums(g: Image): (r: seq<real>)
    ensures |r| == |g|
  {
    seq(|g|, i requires 0 <= i < |g| => Sum(g[i]))
  }

  /** The total intensity of each of the `cols` columns. */
  function ColSums(g: Image, cols: nat): (r: seq<real>)
    requires Rectangular(g, cols)
    ensures |r| == cols
  {
    seq(cols, j requires 0 <= j < cols => Sum(Column(g, j)))
  }

  /** The sum of every cell: the denominator of center_of_mass. */
  function Mass(g: Image): real
  {
    Sum(RowSums(g))
  }

  /** The coordinates 0, 1, ..., n - 1 along one axis. */
  function Indices(n: nat): (r: seq<real>)
    ensures |r| == n
  {
    seq(n, i requires 0 <= i < n => i as real)
  }

  /**
   * scipy.ndimage.center_of_mass of a grid: along each axis, the sum of
   * coordinate times intensity divided by the total intensity, which is
   * the point about which the first moment of the intensity is zero. Grouping
   * the cells by row (or by column) first gives the same sums.
   * SciPy divides by zero on a grid of zero total intensity and returns
   * NaN; the precondition keeps that case out (see Predictor).
   */
  function CenterOfMass(g: Image): (c: (real, real))
    requires IsGrid(g) && Mass(g) != 0.0
    ensures Dot(Plus(-c.0, Indices(Side)), RowSums(g)) == 0.0
    ensures Dot(Plus(-c.1, Indices(Side)), ColSums(g, Side)) == 0.0
  {
    var mass := Mass(g);
    var rowMoment := Dot(Indices(Side), RowSums(g));
    var colMoment := Dot(Indices(Side), ColSums(g, Side));
    DotPlus(-(rowMoment / mass), Indices(Side), RowSums(g));
    DotPlus(-(colMoment / mass), Indices(Side), ColSums(g, Side));
    MassByColumns(g, Side);
    Balanced(rowMoment, mass);
    Balanced(colMoment, mass);
    (rowMoment / mass, colMoment / mass)
  }

  /** Taking the quotient times the divisor away leaves nothing. */
  lemma Balanced(moment: real, mass: real)
    requires mass != 0.0
    ensures moment + -(moment / mass) * mass == 0.0
  {
  }

  /** Summing the column totals gives the same mass as summing the row totals. */
  lemma {:induction false} MassByColumns(g: Image, cols: nat)
    requires Rectangular(g, cols)
    ensures Sum(ColSums(g, cols)) == Mass(g)
  {
    if |g| == 0 {
      SumOfZeros(ColSums(g, cols));
    } else {
      var rest := g[1..];
      assert ColSums(g, cols) == Add(g[0], ColSums(rest, cols)) by {
        forall j | 0 <= j < cols
          ensures ColSums(g, cols)[j] == Add(g[0], ColSums(rest, cols))[j]
        {
          assert Column(g, j)[1..] == Column(rest, j);
        }
      }
      SumAdd(g[0], ColSums(rest, cols));
      assert RowSums(g)[1..] == RowSums(rest);
      MassByColumns(rest, cols);
    }
  }

  lemma RowSumsNonNegative(g: Image)
    requires NonNegativeCells(g)
    ensures NonNegative(RowSums(g))
  {
    forall i | 0 <= i < |g|
      ensures RowSums(g)[i] >= 0.0
    {
      SumDominatesTerms(g[i]);
    }
  }

  lemma ColSumsNonNegative(g: Image, cols: nat)
    requires Rectangular(g, cols) && NonNegativeCells(g)
    ensures NonNegative(ColSums(g, cols))
  {
    forall j | 0 <= j < cols
      ensures ColSums(g, cols)[j] >= 0.0
    {
      SumDominatesTerms(Column(g, j));
    }
  }

  /**
   * A non-negative grid has zero mass exactly when every cell is zero,
   * which is the case in which center_of_mass has no value.
   */
  lemma MassZeroIff(g: Image)
    requires NonNegativeCells(g)
    ensures Mass(g) >= 0.0
    ensures Mass(g) == 0.0 <==>
      forall i, j :: 0 <= i < |g| && 0 <= j < |g[i]| ==> g[i][j] == 0.0
  {
    RowSumsNonNegative(g);
    SumZeroIff(RowSums(g));
    SumDominatesTerms(RowSums(g));
    forall i | 0 <= i < |g|
      ensures RowSums(g)[i] == 0.0 <==> forall j :: 0 <= j < |g[i]| ==> g[i][j] == 0.0
    {
      SumZeroIff(g[i]);
    }
  }

  /**
   * For a non-negative grid with some intensity, the centroid lies inside
   * the grid: both coordinates are in [0, 27].
   */
  lemma CentroidInGrid(g: Image)
    requires IsGrid(g) && NonNegativeCells(g) && Mass(g) > 0.0
    ensures 0.0 <= CenterOfMass(g).0 <= (Side - 1) as real
    ensures 0.0 <= CenterOfMass(g).1 <= (Side - 1) as real
  {
    var top := (Side - 1) as real;
    RowSumsNonNegative(g);
    DotAtLeast(Indices(Side), RowSums(g), 0.0);
    DotAtMost(Indices(Side), RowSums(g), top);
    DivideAtLeast(Dot(Indices(Side), RowSums(g)), Mass(g), 0.0);
    DivideAtMost(Dot(Indices(Side), RowSums(g)), Mass(g), top);
    ColSumsNonNegative(g, Side);
    MassByColumns(g, Side);
    DotAtLeast(Indices(Side), ColSums(g, Side), 0.0);
    DotAtMost(Indices(Side), ColSums(g, Side), top);
    DivideAtLeast(Dot(Indices(Side), ColSums(g, Side)), Mass(g), 0.0);
    DivideAtMost(Dot(Indices(Side), ColSums(g, Side)), Mass(g), top);
  }

  // ---------------------------------------------------------------------
  // shift with an integer offset and mode='constant'
  // ---------------------------------------------------------------------

  /** Whether (i, j) is a cell of the grid. */
  predicate InGrid(i: int, j: int)
  {
    0 <= i < Side && 0 <= j < Side
  }

  /**
   * scipy.ndimage.shift at an integer offset (dy, dx) with constant fill:
   * the cell (i, j) takes the value of (i - dy, j - dx) when that cell is
   * inside the grid and 0.0 otherwise. At integer offsets the spline of
   * order 3 passes through the samples, so the result is this exact
   * translation.
   */
  function Translate(g: Image, dy: int, dx: int): (r: Image)
    requires IsGrid(g)
    ensures IsGrid(r)
  {
    seq(Side, i requires 0 <= i < Side =>
      seq(Side, j requires 0 <= j < Side =>
        if InGrid(i - dy, j - dx) then g[i - dy][j - dx] else 0.0))
  }

  lemma TranslateAt(g: Image, dy: int, dx: int, i: nat, j: nat)
    requires IsGrid(g) && InGrid(i, j)
    ensures Translate(g, dy, dx)[i][j] ==
      if InGrid(i - dy, j - dx) then g[i - dy][j - dx] else 0.0
  {
  }

  /** A shift by (0, 0) returns the grid unchanged. */
  lemma TranslateZero(g: Image)
    requires IsGrid(g)
    ensures Translate(g, 0, 0) == g
  {
    forall i | 0 <= i < Side
      ensures Translate(g, 0, 0)[i] == g[i]
    {
      forall j | 0 <= j < Side
        ensures Translate(g, 0, 0)[i][j] == g[i][j]
      {
        TranslateAt(g, 0, 0, i, j);
      }
    }
  }

  /**
   * Shifting back by the opposite offset restores every cell that the
   * first shift kept inside the grid, and leaves 0.0 where it cropped.
   */
  lemma TranslateBack(g: Image, dy: int, dx: int)
    requires IsGrid(g)
    ensures forall i, j :: InGrid(i, j) ==>
      Translate(Translate(g, dy, dx), -dy, -dx)[i][j] ==
        if InGrid(i + dy, j + dx) then g[i][j] else 0.0
  {
  }

  /** No cell with ink leaves the grid when it moves by (dy, dx). */
  predicate KeepsInk(g: Image, dy: int, dx: int)
    requires IsGrid(g)
  {
    forall i, j :: 0 <= i < Side && 0 <= j < Side && !InGrid(i + dy, j + dx) ==> g[i][j] == 0.0
  }

  /** Translating twice is translating once by the sum of the offsets, when the first pass crops no ink. */
  lemma TranslateTwice(g: Image, a: int, b: int, c: int, d: int)
    requires IsGrid(g) && KeepsInk(g, a, b)
    ensures Translate(Translate(g, a, b), c, d) == Translate(g, a + c, b + d)
  {
    var once := Translate(g, a, b);
    forall i | 0 <= i < Side
      ensures Translate(once, c, d)[i] == Translate(g, a + c, b + d)[i]
    {
      forall j | 0 <= j < Side
        ensures Translate(once, c, d)[i][j] == Translate(g, a + c, b + d)[i][j]
      {
        TranslateAt(once, c, d, i, j);
        TranslateAt(g, a + c, b + d, i, j);
        if InGrid(i - c, j - d) {
          TranslateAt(g, a, b, i - c, j - d);
        } else if InGrid(i - a - c, j - b - d) {
          assert g[i - a - c][j - b - d] == 0.0;
        }
      }
    }
  }

  /**
   * Every cell of a shifted grid is either fill or a cell of the original,
   * so a property "zero, or within [lo, hi]" of all cells survives it.
   */
  predicate ZeroOrWithin(g: Image, lo: real, hi: real)
  {
    forall i, j :: 0 <= i < |g| && 0 <= j < |g[i]| ==> g[i][j] == 0.0 || lo <= g[i][j] <= hi
  }

  lemma TranslateKeepsZeroOrWithin(g: Image, dy: int, dx: int, lo: real, hi: real)
    requires IsGrid(g) && ZeroOrWithin(g, lo, hi)
    ensures ZeroOrWithin(Translate(g, dy, dx), lo, hi)
  {
    forall i, j | 0 <= i < Side && 0 <= j < Side
      ensures var c := Translate(g, dy, dx)[i][j]; c == 0.0 || lo <= c <= hi
    {
      TranslateAt(g, dy, dx, i, j);
    }
  }

  // ---------------------------------------------------------------------
  // reshape between the grid and the flat input
  // ---------------------------------------------------------------------

  /** img.reshape(1, 784): the cells in row-major order. */
  function Flatten(g: Image): (r: seq<real>)
    requires IsGrid(g)
    ensures |r| == Pixels
    ensures forall i, j :: 0 <= i < Side && 0 <= j < Side ==> r[Side * i + j] == g[i][j]
  {
    seq(Pixels, p requires 0 <= p < Pixels => g[p / Side][p % Side])
  }

  /** reshape(28, 28) of a flat vector of 784 cells. */
  function Unflatten(v: seq<real>): (g: Image)
    requires |v| == Pixels
    ensures IsGrid(g)
    ensures forall i, j :: 0 <= i < Side && 0 <= j < Side ==> g[i][j] == v[Side * i + j]
  {
    seq(Side, i requires 0 <= i < Side => v[Side * i .. Side * i + Side])
  }

  lemma {:induction false} UnflattenFlatten(g: Image)
    requires IsGrid(g)
    ensures Unflatten(Flatten(g)) == g
  {
    var h := Unflatten(Flatten(g));
    forall i | 0 <= i < Side
      ensures h[i] == g[i]
    {
    }
  }

  lemma {:induction false} FlattenUnflatten(v: seq<real>)
    requires |v| == Pixels
    ensures Flatten(Unflatten(v)) == v
  {
    var w := Flatten(Unflatten(v));
    forall p | 0 <= p < Pixels
      ensures w[p] == v[p]
    {
      FlattenUnflattenAt(v, p);
    }
  }

  lemma FlattenUnflattenAt(v: seq<real>, p: nat)
    requires |v| == Pixels && p < Pixels
    ensures Flatten(Unflatten(v))[p] == v[p]
  {
    var i, j := p / Side, p % Side;
    assert 0 <= i < Side && 0 <= j < Side && p == Side * i + j;
    var g := Unflatten(v);
    assert g[i] == v[Side * i .. Side * i + Side];
    assert g[i][j] == v[p];
  }
}
