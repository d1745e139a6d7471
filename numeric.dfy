/**
 * The numeric primitives the digit pipeline borrows from NumPy and from
 * Python itself, over exact reals: sum, scaling, dot product, maximum and
 * minimum, first arg-max, linspace, interp, mean and int() truncation.
 * Floating-point rounding is not modelled.
 */
module Numeric {

  /** numpy's sum of a vector. */
  function Sum(s: seq<real>): real
  {
    if |s| == 0 then 0.0 else s[0] + Sum(s[1..])
  }

  /** The array expression `c * s`. */
  function Scale(c: real, s: seq<real>): (r: seq<real>)
    ensures |r| == |s|
  {
    seq(|s|, i requires 0 <= i < |s| => c * s[i])
  }

  /** Element-wise product of two vectors of the same length. */
  function Products(x: seq<real>, y: seq<real>): (r: seq<real>)
    requires |x| == |y|
    ensures |r| == |x|
  {
    seq(|x|, p requires 0 <= p < |x| => x[p] * y[p])
  }

  /** The inner product that `@` computes for one output column. */
  function Dot(x: seq<real>, y: seq<real>): real
    requires |x| == |y|
  {
    Sum(Products(x, y))
  }

  predicate NonNegative(s: seq<real>)
  {
    forall i :: 0 <= i < |s| ==> s[i] >= 0.0
  }

  lemma {:induction false} SumScale(c: real, s: seq<real>)
    ensures Sum(Scale(c, s)) == c * Sum(s)
  {
    if |s| > 0 {
      var t := Scale(c, s);
      assert t[1..] == Scale(c, s[1..]) by {
        forall i | 0 <= i < |s| - 1
          ensures t[1..][i] == Scale(c, s[1..])[i]
        {
        }
      }
      SumScale(c, s[1..]);
    }
  }

  lemma {:induction false} SumMono(a: seq<real>, b: seq<real>)
    requires |a| == |b|
    requires forall i :: 0 <= i < |a| ==> a[i] <= b[i]
    ensures Sum(a) <= Sum(b)
  {
    if |a| > 0 {
      SumMono(a[1..], b[1..]);
    }
  }

  /** A sum of non-negative terms is non-negative and bounds each term. */
  lemma {:induction false} SumDominatesTerms(a: seq<real>)
    requires NonNegative(a)
    ensures Sum(a) >= 0.0
    ensures forall k :: 0 <= k < |a| ==> a[k] <= Sum(a)
  {
    if |a| > 0 {
      var rest := a[1..];
      SumDominatesTerms(rest);
      forall k | 0 <= k < |a|
        ensures a[k] <= Sum(a)
      {
        if k > 0 {
          assert a[k] == rest[k - 1];
        }
      }
    }
  }

  lemma {:induction false} SumOfZeros(a: seq<real>)
    requires forall i :: 0 <= i < |a| ==> a[i] == 0.0
    ensures Sum(a) == 0.0
  {
    if |a| > 0 {
      SumOfZeros(a[1..]);
    }
  }

  /** For non-negative terms, the sum is zero exactly when every term is. */
  lemma SumZeroIff(a: seq<real>)
    requires NonNegative(a)
    ensures Sum(a) == 0.0 <==> forall i :: 0 <= i < |a| ==> a[i] == 0.0
  {
    SumDominatesTerms(a);
    if forall i :: 0 <= i < |a| ==> a[i] == 0.0 {
      SumOfZeros(a);
    }
  }

  lemma {:induction false} SumConstant(n: nat, c: real)
    ensures Sum(seq(n, _ => c)) == n as real * c
  {
    if n > 0 {
      var t := seq(n, _ => c);
      assert t[1..] == seq(n - 1, _ => c) by {
        forall i | 0 <= i < n - 1
          ensures t[1..][i] == c
        {
        }
      }
      SumConstant(n - 1, c);
    }
  }

  /** The dot product is linear in its first argument. */
  lemma DotScale(c: real, x: seq<real>, y: seq<real>)
    requires |x| == |y|
    ensures Dot(Scale(c, x), y) == c * Dot(x, y)
  {
    assert Products(Scale(c, x), y) == Scale(c, Products(x, y)) by {
      forall p | 0 <= p < |x|
        ensures Products(Scale(c, x), y)[p] == Scale(c, Products(x, y))[p]
      {
        assert Scale(c, x)[p] == c * x[p];
      }
    }
    SumScale(c, Products(x, y));
  }

  /** Element-wise sum of two vectors of the same length. */
  function Add(a: seq<real>, b: seq<real>): (r: seq<real>)
    requires |a| == |b|
    ensures |r| == |a|
  {
    seq(|a|, i requires 0 <= i < |a| => a[i] + b[i])
  }

  lemma {:induction false} SumAdd(a: seq<real>, b: seq<real>)
    requires |a| == |b|
    ensures Sum(Add(a, b)) == Sum(a) + Sum(b)
  {
    if |a| > 0 {
      assert Add(a, b)[1..] == Add(a[1..], b[1..]) by {
        forall i | 0 <= i < |a| - 1
          ensures Add(a, b)[1..][i] == Add(a[1..], b[1..])[i]
        {
        }
      }
      SumAdd(a[1..], b[1..]);
    }
  }

  lemma {:induction false} SumConcat(x: seq<real>, y: seq<real>)
    ensures Sum(x + y) == Sum(x) + Sum(y)
  {
    if |x| > 0 {
      assert (x + y)[1..] == x[1..] + y;
      SumConcat(x[1..], y);
    } else {
      assert x + y == y;
    }
  }

  /** The inner product splits over matching concatenations. */
  lemma DotConcat(u: seq<real>, v: seq<real>, x: seq<real>, y: seq<real>)
    requires |u| == |x| && |v| == |y|
    ensures Dot(u + v, x + y) == Dot(u, x) + Dot(v, y)
  {
    assert Products(u + v, x + y) == Products(u, x) + Products(v, y) by {
      forall i | 0 <= i < |u| + |v|
        ensures Products(u + v, x + y)[i] == (Products(u, x) + Products(v, y))[i]
      {
        if i >= |u| {
          assert (u + v)[i] == v[i - |u|] && (x + y)[i] == y[i - |u|];
        }
      }
    }
    SumConcat(Products(u, x), Products(v, y));
  }

  /** Against a vector of zeros the inner product is zero. */
  lemma DotZeros(u: seq<real>, z: seq<real>)
    requires |u| == |z|
    requires forall i :: 0 <= i < |z| ==> z[i] == 0.0
    ensures Dot(u, z) == 0.0
  {
    SumOfZeros(Products(u, z));
  }

  /** `c + s`, entry by entry. */
  function Plus(c: real, s: seq<real>): (r: seq<real>)
    ensures |r| == |s|
  {
    seq(|s|, i requires 0 <= i < |s| => c + s[i])
  }

  /** Moving every position by c moves the moment by c times the total weight. */
  lemma DotPlus(c: real, u: seq<real>, b: seq<real>)
    requires |u| == |b|
    ensures Dot(Plus(c, u), b) == Dot(u, b) + c * Sum(b)
  {
    ProductsPlus(c, u, b);
    SumAdd(Products(u, b), Scale(c, b));
    SumScale(c, b);
  }

  lemma ProductsPlus(c: real, u: seq<real>, b: seq<real>)
    requires |u| == |b|
    ensures Products(Plus(c, u), b) == Add(Products(u, b), Scale(c, b))
  {
    forall i | 0 <= i < |u|
      ensures Products(Plus(c, u), b)[i] == Add(Products(u, b), Scale(c, b))[i]
    {
      ProductsPlusAt(c, u, b, i);
    }
  }

  lemma ProductsPlusAt(c: real, u: seq<real>, b: seq<real>, i: nat)
    requires |u| == |b| && i < |u|
    ensures Products(Plus(c, u), b)[i] == Add(Products(u, b), Scale(c, b))[i]
  {
    var x, y := u[i], b[i];
    assert Plus(c, u)[i] == c + x;
    Distribute(c, x, y);
  }

  lemma Distribute(c: real, x: real, y: real)
    ensures (c + x) * y == x * y + c * y
  {
  }

  /** Weights all non-negative and positions all at least lo: the moment is at least lo times the total weight. */
  lemma DotAtLeast(x: seq<real>, w: seq<real>, lo: real)
    requires |x| == |w| && NonNegative(w)
    requires forall i :: 0 <= i < |x| ==> lo <= x[i]
    ensures lo * Sum(w) <= Dot(x, w)
  {
    forall i | 0 <= i < |x|
      ensures Scale(lo, w)[i] <= Products(x, w)[i]
    {
      MulMono(w[i], lo, x[i]);
    }
    SumMono(Scale(lo, w), Products(x, w));
    SumScale(lo, w);
  }

  /** Weights all non-negative and positions all at most hi: the moment is at most hi times the total weight. */
  lemma DotAtMost(x: seq<real>, w: seq<real>, hi: real)
    requires |x| == |w| && NonNegative(w)
    requires forall i :: 0 <= i < |x| ==> x[i] <= hi
    ensures Dot(x, w) <= hi * Sum(w)
  {
    forall i | 0 <= i < |x|
      ensures Products(x, w)[i] <= Scale(hi, w)[i]
    {
      MulMono(w[i], x[i], hi);
    }
    SumMono(Products(x, w), Scale(hi, w));
    SumScale(hi, w);
  }

  /** Column j of a matrix given as a sequence of rows. */
  function Column(m: seq<seq<real>>, j: nat): (c: seq<real>)
    requires forall i :: 0 <= i < |m| ==> j < |m[i]|
    ensures |c| == |m|
    ensures forall i :: 0 <= i < |m| ==> c[i] == m[i][j]
  {
    seq(|m|, i requires 0 <= i < |m| => m[i][j])
  }

  /** A matrix with `cols` columns: every row has that length. */
  predicate Rectangular(m: seq<seq<real>>, cols: nat)
  {
    forall i :: 0 <= i < |m| ==> |m[i]| == cols
  }

  /**
   * The row-vector-times-matrix product `x @ m` of NumPy, for a matrix of
   * |x| rows and `cols` columns: entry k is x dotted with column k.
   */
  function VecMat(x: seq<real>, m: seq<seq<real>>, cols: nat): (r: seq<real>)
    requires |m| == |x| && Rectangular(m, cols)
    ensures |r| == cols
  {
    seq(cols, k requires 0 <= k < cols => Dot(x, Column(m, k)))
  }

  /** `(c * x) @ m == c * (x @ m)`: the product is homogeneous in the vector. */
  lemma VecMatScale(c: real, x: seq<real>, m: seq<seq<real>>, cols: nat)
    requires |m| == |x| && Rectangular(m, cols)
    ensures VecMat(Scale(c, x), m, cols) == Scale(c, VecMat(x, m, cols))
  {
    forall k | 0 <= k < cols
      ensures VecMat(Scale(c, x), m, cols)[k] == Scale(c, VecMat(x, m, cols))[k]
    {
      DotScale(c, x, Column(m, k));
    }
  }

  /** `(x + y) @ m == x @ m + y @ m`: with VecMatScale, the product is linear. */
  lemma VecMatAdd(x: seq<real>, y: seq<real>, m: seq<seq<real>>, cols: nat)
    requires |x| == |y| && |m| == |x| && Rectangular(m, cols)
    ensures VecMat(Add(x, y), m, cols) == Add(VecMat(x, m, cols), VecMat(y, m, cols))
  {
    forall k | 0 <= k < cols
      ensures VecMat(Add(x, y), m, cols)[k] == Add(VecMat(x, m, cols), VecMat(y, m, cols))[k]
    {
      DotAdd(x, y, Column(m, k));
    }
  }

  /** The dot product distributes over a sum of vectors. */
  lemma DotAdd(x: seq<real>, y: seq<real>, z: seq<real>)
    requires |x| == |y| == |z|
    ensures Dot(Add(x, y), z) == Dot(x, z) + Dot(y, z)
  {
    assert Products(Add(x, y), z) == Add(Products(x, z), Products(y, z)) by {
      forall p | 0 <= p < |x|
        ensures Products(Add(x, y), z)[p] == Add(Products(x, z), Products(y, z))[p]
      {
        assert (x[p] + y[p]) * z[p] == x[p] * z[p] + y[p] * z[p];
      }
    }
    SumAdd(Products(x, z), Products(y, z));
  }

  /**
   * np.argmax: the FIRST index at which the vector attains its maximum
   * (ArgmaxIsFirstMax states it).
   */
  function FirstArgmax(v: seq<real>): (k: nat)
    requires |v| > 0
    ensures k < |v|
  {
    if |v| == 1 then 0
    else
      var k := FirstArgmax(v[..|v| - 1]);
      if v[|v| - 1] > v[k] then |v| - 1 else k
  }

  /** No entry exceeds the arg-max entry, and every entry before it is smaller. */
  lemma {:induction false} ArgmaxIsFirstMax(v: seq<real>)
    requires |v| > 0
    ensures forall j :: 0 <= j < |v| ==> v[j] <= v[FirstArgmax(v)]
    ensures forall j :: 0 <= j < FirstArgmax(v) ==> v[j] < v[FirstArgmax(v)]
  {
    if |v| > 1 {
      ArgmaxIsFirstMax(v[..|v| - 1]);
    }
  }

  /** np.max: the entry at np.argmax. */
  function SeqMax(s: seq<real>): real
    requires |s| > 0
  {
    s[FirstArgmax(s)]
  }

  lemma SeqMaxIsMax(s: seq<real>)
    requires |s| > 0
    ensures forall i :: 0 <= i < |s| ==> s[i] <= SeqMax(s)
    ensures SeqMax(s) in s
  {
    ArgmaxIsFirstMax(s);
  }

  /** np.min, as a scan from the front. */
  function SeqMin(s: seq<real>): real
    requires |s| > 0
  {
    if |s| == 1 then s[0]
    else
      var rest := SeqMin(s[1..]);
      if s[0] <= rest then s[0] else rest
  }

  lemma {:induction false} SeqMinIsMin(s: seq<real>)
    requires |s| > 0
    ensures forall i :: 0 <= i < |s| ==> SeqMin(s) <= s[i]
    ensures SeqMin(s) in s
  {
    if |s| > 1 {
      SeqMinIsMin(s[1..]);
      forall i | 1 <= i < |s|
        ensures SeqMin(s) <= s[i]
      {
        assert s[i] == s[1..][i - 1];
      }
    }
  }

  /** Multiplying by a positive constant keeps the order of two reals. */
  lemma ScaleKeepsOrder(c: real, a: real, b: real)
    requires c > 0.0
    ensures a <= b <==> c * a <= c * b
  {
    if a <= b {
      assert c * (b - a) >= 0.0;
    } else {
      assert c * (a - b) > 0.0;
    }
  }

  /** `u` and `v` rank their entries alike. */
  predicate SameOrder(u: seq<real>, v: seq<real>)
    requires |u| == |v|
  {
    forall i, j :: 0 <= i < |u| && 0 <= j < |u| ==> (u[i] <= u[j] <==> v[i] <= v[j])
  }

  lemma ScaleSameOrder(c: real, s: seq<real>)
    requires c > 0.0
    ensures SameOrder(Scale(c, s), s)
  {
    var t := Scale(c, s);
    forall i, j | 0 <= i < |s| && 0 <= j < |s|
      ensures t[i] <= t[j] <==> s[i] <= s[j]
    {
      ScaleKeepsOrder(c, s[i], s[j]);
    }
  }

  /**
   * Two vectors that rank their entries alike have the same first arg-max:
   * an order-preserving transformation (a positive rescaling, softmax)
   * leaves the predicted index unchanged.
   */
  lemma ArgmaxOrderInvariant(u: seq<real>, v: seq<real>)
    requires |u| == |v| > 0
    requires SameOrder(u, v)
    ensures FirstArgmax(u) == FirstArgmax(v)
  {
    ArgmaxIsFirstMax(u);
    ArgmaxIsFirstMax(v);
  }

  lemma ArgmaxScale(c: real, v: seq<real>)
    requires c > 0.0
    requires |v| > 0
    ensures FirstArgmax(Scale(c, v)) == FirstArgmax(v)
  {
    ScaleSameOrder(c, v);
    ArgmaxOrderInvariant(Scale(c, v), v);
  }

  /** Scaling by a positive constant scales the maximum. */
  lemma SeqMaxScale(c: real, s: seq<real>)
    requires c > 0.0
    requires |s| > 0
    ensures SeqMax(Scale(c, s)) == c * SeqMax(s)
  {
    ArgmaxScale(c, s);
  }

  /** np.linspace(start, stop, num) with the end point included. */
  function Linspace(start: real, stop: real, num: nat): (r: seq<real>)
    ensures |r| == num
  {
    if num == 1 then [start]
    else seq(num, i requires 0 <= i < num => start + i as real * ((stop - start) / (num - 1) as real))
  }

  /** linspace starts at `start`, ends at `stop` and takes equal steps. */
  lemma LinspaceShape(start: real, stop: real, num: nat)
    ensures num >= 1 ==> Linspace(start, stop, num)[0] == start
    ensures num >= 2 ==> Linspace(start, stop, num)[num - 1] == stop
    ensures forall i :: 0 <= i < num - 1 ==>
      Linspace(start, stop, num)[i + 1] - Linspace(start, stop, num)[i] == (stop - start) / (num - 1) as real
  {
    if num >= 2 {
      var d := (num - 1) as real;
      assert d * ((stop - start) / d) == stop - start;
    }
  }

  /**
   * np.interp(x, np.arange(|fp|), fp): the piecewise-linear curve through
   * the points (k, fp[k]), clamped to fp's first and last value outside
   * [0, |fp| - 1].
   */
  function Interp(x: real, fp: seq<real>): (r: real)
    requires |fp| > 0
    ensures SeqMin(fp) <= r <= SeqMax(fp)
  {
    if x <= 0.0 then
      EntryWithinRange(fp, 0);
      fp[0]
    else if x >= (|fp| - 1) as real then
      EntryWithinRange(fp, |fp| - 1);
      fp[|fp| - 1]
    else
      var j := x.Floor;
      EntryWithinRange(fp, j);
      EntryWithinRange(fp, j + 1);
      BetweenNeighbours(x - j as real, fp[j], fp[j + 1], SeqMin(fp), SeqMax(fp));
      Lerp(fp[j], fp[j + 1], x - j as real)
  }

  /** The point a fraction t of the way from a to b. */
  function Lerp(a: real, b: real, t: real): real
  {
    a + t * (b - a)
  }

  lemma EntryWithinRange(s: seq<real>, i: nat)
    requires i < |s|
    ensures SeqMin(s) <= s[i] <= SeqMax(s)
  {
    SeqMinIsMin(s);
    SeqMaxIsMax(s);
  }

  /** At a sample point the interpolation returns the sample itself. */
  lemma InterpAtKnot(k: nat, fp: seq<real>)
    requires k < |fp|
    ensures Interp(k as real, fp) == fp[k]
  {
    if 0 < k < |fp| - 1 {
      assert (k as real).Floor == k;
    }
  }

  /**
   * Every interpolated value stays within any bounds that hold for all
   * samples, since it lies between the least and the greatest sample.
   */
  lemma InterpBounded(x: real, fp: seq<real>, lo: real, hi: real)
    requires |fp| > 0
    requires forall i :: 0 <= i < |fp| ==> lo <= fp[i] <= hi
    ensures lo <= Interp(x, fp) <= hi
  {
    SeqMinIsMin(fp);
    SeqMaxIsMax(fp);
  }

  /** A point on the segment from `a` to `b` stays within bounds of both. */
  lemma BetweenNeighbours(t: real, a: real, b: real, lo: real, hi: real)
    requires 0.0 <= t <= 1.0
    requires lo <= a <= hi && lo <= b <= hi
    ensures lo <= Lerp(a, b, t) <= hi
  {
    SegmentAbove(t, a, b, lo);
    SegmentBelow(t, a, b, hi);
  }

  lemma SegmentAbove(t: real, a: real, b: real, lo: real)
    requires 0.0 <= t <= 1.0
    requires lo <= a && lo <= b
    ensures lo <= a + t * (b - a)
  {
    MulMono(1.0 - t, lo, a);
    MulMono(t, lo, b);
    CombineAbove(t, a, b, lo);
  }

  lemma SegmentBelow(t: real, a: real, b: real, hi: real)
    requires 0.0 <= t <= 1.0
    requires a <= hi && b <= hi
    ensures a + t * (b - a) <= hi
  {
    MulMono(1.0 - t, a, hi);
    MulMono(t, b, hi);
    CombineBelow(t, a, b, hi);
  }

  /** Multiplying by a non-negative factor keeps an inequality. */
  lemma MulMono(k: real, x: real, y: real)
    requires k >= 0.0 && x <= y
    ensures k * x <= k * y
  {
    assert k * (y - x) >= 0.0;
  }

  lemma CombineAbove(t: real, a: real, b: real, lo: real)
    requires (1.0 - t) * lo <= (1.0 - t) * a && t * lo <= t * b
    ensures lo <= a + t * (b - a)
  {
  }

  lemma CombineBelow(t: real, a: real, b: real, hi: real)
    requires (1.0 - t) * a <= (1.0 - t) * hi && t * b <= t * hi
    ensures a + t * (b - a) <= hi
  {
  }

  /** np.mean of a non-empty vector: it lies between the least and the greatest entry. */
  function Mean(s: seq<real>): (r: real)
    requires |s| > 0
    ensures SeqMin(s) <= r <= SeqMax(s)
  {
    SeqMinIsMin(s);
    SeqMaxIsMax(s);
    SumAtLeast(s, SeqMin(s));
    SumAtMost(s, SeqMax(s));
    DivideAtLeast(Sum(s), |s| as real, SeqMin(s));
    DivideAtMost(Sum(s), |s| as real, SeqMax(s));
    Sum(s) / |s| as real
  }

  lemma MeanAtLeast(s: seq<real>, lo: real)
    requires |s| > 0
    requires forall i :: 0 <= i < |s| ==> lo <= s[i]
    ensures lo <= Mean(s)
  {
    SumAtLeast(s, lo);
    DivideAtLeast(Sum(s), |s| as real, lo);
  }

  lemma MeanAtMost(s: seq<real>, hi: real)
    requires |s| > 0
    requires forall i :: 0 <= i < |s| ==> s[i] <= hi
    ensures Mean(s) <= hi
  {
    SumAtMost(s, hi);
    DivideAtMost(Sum(s), |s| as real, hi);
  }

  /** A sum of n terms, none below lo, is at least n * lo. */
  lemma SumAtLeast(s: seq<real>, lo: real)
    requires forall i :: 0 <= i < |s| ==> lo <= s[i]
    ensures |s| as real * lo <= Sum(s)
  {
    SumMono(seq(|s|, _ => lo), s);
    SumConstant(|s|, lo);
  }

  /** A sum of n terms, none above hi, is at most n * hi. */
  lemma SumAtMost(s: seq<real>, hi: real)
    requires forall i :: 0 <= i < |s| ==> s[i] <= hi
    ensures Sum(s) <= |s| as real * hi
  {
    SumMono(s, seq(|s|, _ => hi));
    SumConstant(|s|, hi);
  }

  lemma DivideAtLeast(total: real, n: real, lo: real)
    requires n > 0.0 && n * lo <= total
    ensures lo <= total / n
  {
  }

  lemma DivideAtMost(total: real, n: real, hi: real)
    requires n > 0.0 && total <= n * hi
    ensures total / n <= hi
  {
  }

  /** Python's int() on a float: truncation toward zero. */
  function Trunc(x: real): (n: int)
    ensures x >= 0.0 ==> 0.0 <= n as real <= x < n as real + 1.0
    ensures x < 0.0 ==> n as real - 1.0 < x <= n as real <= 0.0
    ensures n == 0 <==> -1.0 < x < 1.0
  {
    if x >= 0.0 then x.Floor else -((-x).Floor)
  }
}
