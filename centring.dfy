/**
 * How scipy.ndimage.shift moves the centroid that
 * scipy.ndimage.center_of_mass computes: a shift by an integer offset
 * that crops no ink keeps the mass and moves the centroid by the offset.
 */
module Centring {
  import opened Numeric
  import opened Grid

  /** n zeros: the fill value of mode='constant'. */
  function Zeros(n: nat): (r: seq<real>)
    ensures |r| == n && forall i :: 0 <= i < n ==> r[i] == 0.0
  {
    seq(n, _ => 0.0)
  }

  /** One axis of the shift: a vector moved by d places, zeros moved in. */
  function Shifted(a: seq<real>, d: int): (r: seq<real>)
    ensures |r| == |a|
  {
    seq(|a|, i requires 0 <= i < |a| => if 0 <= i - d < |a| then a[i - d] else 0.0)
  }

  /** No non-zero entry of the vector falls off when it moves by d. */
  predicate StaysInside(a: seq<real>, d: int)
  {
    forall k :: 0 <= k < |a| && !(0 <= k + d < |a|) ==> a[k] == 0.0
  }

  /** The coordinates split at k: the first k, then the rest moved up by k. */
  lemma IndicesSplit(n: nat, k: nat)
    requires k <= n
    ensures Indices(n) == Indices(k) + Plus(k as real, Indices(n - k))
  {
  }

  lemma ShiftedForward(a: seq<real>, d: nat)
    requires d <= |a|
    ensures Shifted(a, d) == Zeros(d) + a[..|a| - d]
  {
  }

  lemma ShiftedBackward(a: seq<real>, d: int)
    requires -|a| <= d < 0
    ensures Shifted(a, d) == a[-d..] + Zeros(-d)
  {
  }

  /** A vector whose every entry would fall off is all zeros, and so is its shift. */
  lemma ShiftedFar(a: seq<real>, d: int)
    requires StaysInside(a, d) && (d >= |a| || d <= -|a|)
    ensures forall k :: 0 <= k < |a| ==> a[k] == 0.0
    ensures Shifted(a, d) == Zeros(|a|)
  {
  }

  /** A shift that drops no ink keeps the total. */
  lemma {:induction false} ShiftedSum(a: seq<real>, d: int)
    requires StaysInside(a, d)
    ensures Sum(Shifted(a, d)) == Sum(a)
  {
    var n := |a|;
    if d >= n || d <= -n {
      ShiftedFar(a, d);
      SumOfZeros(a);
      SumOfZeros(Shifted(a, d));
    } else if d >= 0 {
      ShiftedForward(a, d);
      SumConcat(Zeros(d), a[..n - d]);
      SumOfZeros(Zeros(d));
      assert a == a[..n - d] + a[n - d..];
      SumConcat(a[..n - d], a[n - d..]);
      SumOfZeros(a[n - d..]);
    } else {
      var e := -d;
      ShiftedBackward(a, d);
      SumConcat(a[e..], Zeros(e));
      SumOfZeros(Zeros(e));
      assert a == a[..e] + a[e..];
      SumConcat(a[..e], a[e..]);
      SumOfZeros(a[..e]);
    }
  }

  /**
   * The first moment of a vector split at k: the moment of the first k
   * entries, plus that of the rest counted from k.
   */
  lemma {:induction false} MomentSplit(a: seq<real>, k: nat)
    requires k <= |a|
    ensures Dot(Indices(|a|), a) ==
      Dot(Indices(k), a[..k]) + Dot(Indices(|a| - k), a[k..]) + k as real * Sum(a[k..])
  {
    var n := |a|;
    assert a == a[..k] + a[k..];
    IndicesSplit(n, k);
    DotConcat(Indices(k), Plus(k as real, Indices(n - k)), a[..k], a[k..]);
    DotPlus(k as real, Indices(n - k), a[k..]);
  }

  /** Zero entries add nothing to a sum or a moment. */
  lemma {:induction false} ZeroPart(u: seq<real>, z: seq<real>)
    requires |u| == |z| && forall i :: 0 <= i < |z| ==> z[i] == 0.0
    ensures Sum(z) == 0.0 && Dot(u, z) == 0.0
  {
    SumOfZeros(z);
    DotZeros(u, z);
  }

  /**
   * A shift by d that drops no ink moves the first moment by d times the
   * total: the weighted coordinate sum of center_of_mass.
   */
  lemma {:induction false} ShiftedMoment(a: seq<real>, d: int)
    requires StaysInside(a, d)
    ensures Dot(Indices(|a|), Shifted(a, d)) == Dot(Indices(|a|), a) + d as real * Sum(a)
  {
    var n := |a|;
    ShiftedSum(a, d);
    if d >= n || d <= -n {
      ShiftedFar(a, d);
      ZeroPart(Indices(n), a);
      ZeroPart(Indices(n), Shifted(a, d));
    } else if d >= 0 {
      ShiftedMomentForward(a, d);
    } else {
      ShiftedMomentBackward(a, d);
    }
  }

  lemma {:induction false} ShiftedMomentForward(a: seq<real>, d: nat)
    requires d < |a| && StaysInside(a, d)
    ensures Dot(Indices(|a|), Shifted(a, d)) == Dot(Indices(|a|), a) + d as real * Sum(a)
  {
    var n := |a|;
    var head := a[..n - d];
    ShiftedForwardMoment(a, d);
    HeadMoment(a, n - d);
    AddMoment(Dot(Indices(n), Shifted(a, d)), Dot(Indices(n), a), d as real, Sum(a), Sum(head));
  }

  /** The moment of the forward shift, counted on the part that was kept. */
  lemma {:induction false} ShiftedForwardMoment(a: seq<real>, d: nat)
    requires d < |a|
    ensures Dot(Indices(|a|), Shifted(a, d)) ==
      Dot(Indices(|a| - d), a[..|a| - d]) + d as real * Sum(a[..|a| - d])
  {
    var b := Shifted(a, d);
    assert b[..d] == Zeros(d);
    assert b[d..] == a[..|a| - d];
    MomentSplit(b, d);
    ZeroPart(Indices(d), b[..d]);
  }

  /** A vector whose entries from k on are zero has the moment and the total of its first k entries. */
  lemma {:induction false} HeadMoment(a: seq<real>, k: nat)
    requires k <= |a| && forall i :: k <= i < |a| ==> a[i] == 0.0
    ensures Dot(Indices(|a|), a) == Dot(Indices(k), a[..k])
    ensures Sum(a) == Sum(a[..k])
  {
    MomentSplit(a, k);
    ZeroPart(Indices(|a| - k), a[k..]);
    DropZeroTail(Dot(Indices(|a|), a), Dot(Indices(k), a[..k]),
      Dot(Indices(|a| - k), a[k..]), k as real, Sum(a[k..]));
    SumSplit(a, k);
  }

  lemma DropZeroTail(whole: real, head: real, tail: real, k: real, total: real)
    requires whole == head + tail + k * total
    requires tail == 0.0 && total == 0.0
    ensures whole == head
  {
  }

  /** A total splits at k into the totals of the two parts. */
  lemma {:induction false} SumSplit(a: seq<real>, k: nat)
    requires k <= |a|
    ensures Sum(a) == Sum(a[..k]) + Sum(a[k..])
  {
    assert a == a[..k] + a[k..];
    SumConcat(a[..k], a[k..]);
  }

  lemma {:induction false} ShiftedMomentBackward(a: seq<real>, d: int)
    requires -|a| < d < 0 && StaysInside(a, d)
    ensures Dot(Indices(|a|), Shifted(a, d)) == Dot(Indices(|a|), a) + d as real * Sum(a)
  {
    var n, e := |a|, -d;
    var b := Shifted(a, d);
    assert b[..n - e] == a[e..];
    HeadMoment(b, n - e);
    TailMoment(a, e);
    SubtractMoment(Dot(Indices(n), b), Dot(Indices(n), a), Dot(Indices(n - e), a[e..]),
      e as real, Sum(a), Sum(a[e..]));
  }

  /** A vector whose first k entries are zero: its moment is that of the rest, counted from k. */
  lemma {:induction false} TailMoment(a: seq<real>, k: nat)
    requires k <= |a| && forall i :: 0 <= i < k ==> a[i] == 0.0
    ensures Dot(Indices(|a|), a) == Dot(Indices(|a| - k), a[k..]) + k as real * Sum(a[k..])
    ensures Sum(a) == Sum(a[k..])
  {
    MomentSplit(a, k);
    ZeroPart(Indices(k), a[..k]);
    SumSplit(a, k);
  }

  lemma SubtractMoment(shifted: real, original: real, kept: real, e: real, total: real, rest: real)
    requires total == rest
    requires shifted == kept && original == kept + e * rest
    ensures shifted == original + (-e) * total
  {
  }

  lemma AddMoment(shifted: real, original: real, d: real, total: real, kept: real)
    requires total == kept
    requires shifted == original + d * kept
    ensures shifted == original + d * total
  {
  }

  /** Row i of a shifted grid is a shifted row of the original, or zeros. */
  lemma {:induction false} TranslateRow(g: Image, dy: int, dx: int, i: nat)
    requires IsGrid(g) && i < Side
    ensures Translate(g, dy, dx)[i] ==
      if 0 <= i - dy < Side then Shifted(g[i - dy], dx) else Zeros(Side)
  {
    var t := Translate(g, dy, dx);
    if 0 <= i - dy < Side {
      var row := g[i - dy];
      forall j | 0 <= j < Side
        ensures t[i][j] == Shifted(row, dx)[j]
      {
        TranslateAt(g, dy, dx, i, j);
      }
    } else {
      forall j | 0 <= j < Side
        ensures t[i][j] == 0.0
      {
        TranslateAt(g, dy, dx, i, j);
      }
    }
  }

  /** Column j of a shifted grid is a shifted column of the original, or zeros. */
  lemma {:induction false} TranslateColumn(g: Image, dy: int, dx: int, j: nat)
    requires IsGrid(g) && j < Side
    ensures Column(Translate(g, dy, dx), j) ==
      if 0 <= j - dx < Side then Shifted(Column(g, j - dx), dy) else Zeros(Side)
  {
    var t := Translate(g, dy, dx);
    if 0 <= j - dx < Side {
      var col := Column(g, j - dx);
      forall i | 0 <= i < Side
        ensures Column(t, j)[i] == Shifted(col, dy)[i]
      {
        TranslateAt(g, dy, dx, i, j);
      }
    } else {
      forall i | 0 <= i < Side
        ensures Column(t, j)[i] == 0.0
      {
        TranslateAt(g, dy, dx, i, j);
      }
    }
  }

  /** When no ink is cropped, the row totals move with the rows. */
  lemma {:induction false} TranslateRowSums(g: Image, dy: int, dx: int)
    requires IsGrid(g) && KeepsInk(g, dy, dx)
    ensures StaysInside(RowSums(g), dy)
    ensures RowSums(Translate(g, dy, dx)) == Shifted(RowSums(g), dy)
  {
    var t := Translate(g, dy, dx);
    forall i | 0 <= i < Side
      ensures RowSums(t)[i] == Shifted(RowSums(g), dy)[i]
    {
      TranslateRow(g, dy, dx, i);
      if 0 <= i - dy < Side {
        var src := i - dy;
        var row := g[src];
        assert StaysInside(row, dx) by {
          forall k | 0 <= k < Side && !(0 <= k + dx < Side)
            ensures row[k] == 0.0
          {
            assert !InGrid(src + dy, k + dx);
          }
        }
        ShiftedSum(row, dx);
      } else {
        SumOfZeros(Zeros(Side));
      }
    }
    forall k | 0 <= k < Side && !(0 <= k + dy < Side)
      ensures RowSums(g)[k] == 0.0
    {
      forall j | 0 <= j < Side
        ensures g[k][j] == 0.0
      {
        assert !InGrid(k + dy, j + dx);
      }
      SumOfZeros(g[k]);
    }
  }

  /** When no ink is cropped, the column totals move with the columns. */
  lemma {:induction false} TranslateColSums(g: Image, dy: int, dx: int)
    requires IsGrid(g) && KeepsInk(g, dy, dx)
    ensures StaysInside(ColSums(g, Side), dx)
    ensures ColSums(Translate(g, dy, dx), Side) == Shifted(ColSums(g, Side), dx)
  {
    var t := Translate(g, dy, dx);
    forall j | 0 <= j < Side
      ensures ColSums(t, Side)[j] == Shifted(ColSums(g, Side), dx)[j]
    {
      TranslateColumn(g, dy, dx, j);
      if 0 <= j - dx < Side {
        var src := j - dx;
        var col := Column(g, src);
        assert StaysInside(col, dy) by {
          forall k | 0 <= k < Side && !(0 <= k + dy < Side)
            ensures col[k] == 0.0
          {
            assert !InGrid(k + dy, src + dx);
          }
        }
        ShiftedSum(col, dy);
      } else {
        SumOfZeros(Zeros(Side));
      }
    }
    forall k | 0 <= k < Side && !(0 <= k + dx < Side)
      ensures ColSums(g, Side)[k] == 0.0
    {
      forall i | 0 <= i < Side
        ensures Column(g, k)[i] == 0.0
      {
        assert !InGrid(i + dy, k + dx);
      }
      SumOfZeros(Column(g, k));
    }
  }

  /** Along the rows, a shift that crops no ink keeps the mass and moves the moment by dy times it. */
  lemma {:induction false} RowMomentMoves(g: Image, dy: int, dx: int)
    requires IsGrid(g) && KeepsInk(g, dy, dx)
    ensures Mass(Translate(g, dy, dx)) == Mass(g)
    ensures Dot(Indices(Side), RowSums(Translate(g, dy, dx))) ==
      Dot(Indices(Side), RowSums(g)) + dy as real * Mass(g)
  {
    var rows := RowSums(g);
    assert |rows| == Side;
    TranslateRowSums(g, dy, dx);
    ShiftedSum(rows, dy);
    ShiftedMoment(rows, dy);
  }

  /** Along the columns, the moment moves by dx times the mass. */
  lemma {:induction false} ColumnMomentMoves(g: Image, dy: int, dx: int)
    requires IsGrid(g) && KeepsInk(g, dy, dx)
    ensures Dot(Indices(Side), ColSums(Translate(g, dy, dx), Side)) ==
      Dot(Indices(Side), ColSums(g, Side)) + dx as real * Mass(g)
  {
    var cols := ColSums(g, Side);
    TranslateColSums(g, dy, dx);
    ShiftedMoment(cols, dx);
    MassByColumns(g, Side);
  }

  /**
   * A shift that crops no ink keeps the mass and moves the centroid by
   * exactly the offset.
   */
  lemma {:induction false} CentroidMoves(g: Image, dy: int, dx: int)
    requires IsGrid(g) && KeepsInk(g, dy, dx) && Mass(g) != 0.0
    ensures Mass(Translate(g, dy, dx)) == Mass(g)
    ensures CenterOfMass(Translate(g, dy, dx)) ==
      (CenterOfMass(g).0 + dy as real, CenterOfMass(g).1 + dx as real)
  {
    var t := Translate(g, dy, dx);
    var mass := Mass(g);
    var rowMoment, colMoment := Dot(Indices(Side), RowSums(g)), Dot(Indices(Side), ColSums(g, Side));
    RowMomentMoves(g, dy, dx);
    ColumnMomentMoves(g, dy, dx);
    MovedQuotient(rowMoment, mass, dy as real);
    MovedQuotient(colMoment, mass, dx as real);
    assert CenterOfMass(t).0 == CenterOfMass(g).0 + dy as real;
    assert CenterOfMass(t).1 == CenterOfMass(g).1 + dx as real;
  }

  /** Adding d times the mass to a moment adds d to the quotient. */
  lemma MovedQuotient(moment: real, mass: real, d: real)
    requires mass != 0.0
    ensures (moment + d * mass) / mass == moment / mass + d
  {
  }
}
