/** The scaling stage (src/suite/core/scaling.py): every feature (column) is
    centred on its mean and, depending on the method, divided by its
    standard deviation or its square root, or mapped linearly onto a target
    range; a dispatcher picks the method by name. */
module Scaling {
  import opened Common

  /** `a[a == 0] = 1.0` on one entry. */
  function OneIfZero(d: real): (g: real)
    ensures g != 0.0
    ensures d != 0.0 ==> g == d
  {
    if d == 0.0 then 1.0 else d
  }

  /** `np.mean(X, axis=0)` at column j. */
  function ColumnMean(X: Matrix, j: nat): real
    requires IsMatrix(X) && |X| > 0 && j < |X[0]|
  {
    Sum(Column(X, j)) / (|X| as real)
  }

  /** Column j minus its mean. */
  function Centered(X: Matrix, j: nat): (c: seq<real>)
    requires IsMatrix(X) && |X| > 0 && j < |X[0]|
    ensures |c| == |X|
    ensures forall i :: 0 <= i < |X| ==> c[i] == X[i][j] - ColumnMean(X, j)
  {
    seq(|X|, i requires 0 <= i < |X| => X[i][j] - ColumnMean(X, j))
  }

  /** `np.std(X, axis=0)` at column j: the root of the population variance. */
  function ColumnStd(X: Matrix, j: nat, fp: FloatOps): real
    requires IsMatrix(X) && |X| > 0 && j < |X[0]|
  {
    fp.sqrt(SumSquares(Centered(X, j)) / (|X| as real))
  }

  /** The matrix built entrywise from column statistics by `f(x, j)`. */
  function MapEntries(X: Matrix, f: (real, nat) -> real): (Y: Matrix)
    requires IsMatrix(X)
    ensures SameShape(Y, X) && IsMatrix(Y)
    ensures forall i, j :: 0 <= i < |X| && 0 <= j < |X[i]| ==> Y[i][j] == f(X[i][j], j)
  {
    seq(|X|, i requires 0 <= i < |X| => seq(|X[i]|, j requires 0 <= j < |X[i]| => f(X[i][j], j)))
  }

  // ---------------------------------------------------------------- centring

  /** `mean_centering`: rejects the empty matrix; otherwise every entry
      minus its column's mean. */
  function MeanCentering(X: Matrix): (r: Result<Matrix>)
    requires IsMatrix(X)
    ensures IsEmpty(X) <==> r == Err(EmptyInput)
    ensures r.Ok? <==> !IsEmpty(X)
    ensures r.Ok? ==>
      SameShape(r.value, X) && IsMatrix(r.value) &&
      forall i, j :: 0 <= i < |X| && 0 <= j < |X[i]| ==> r.value[i][j] == X[i][j] - ColumnMean(X, j)
  {
    if IsEmpty(X) then Err(EmptyInput)
    else Ok(MapEntries(X, (x: real, j: nat) => if j < Cols(X) then x - ColumnMean(X, j) else 0.0))
  }

  /** A centred column sums to zero. */
  lemma CenteredSumZero(X: Matrix, j: nat)
    requires IsMatrix(X) && |X| > 0 && j < |X[0]|
    ensures Sum(Centered(X, j)) == 0.0
  {
    var col := Column(X, j);
    var m := ColumnMean(X, j);
    SumAffine(col, Centered(X, j), 1.0, -m);
    MeanTimesCount(Sum(col), |X| as real);
  }

  lemma MeanTimesCount(s: real, n: real)
    requires n > 0.0
    ensures s * 1.0 + n * -(s / n) == 0.0
  {
    MulDivCancel(s, n);
  }

  /** Every column of the centred matrix sums to zero. */
  lemma MeanCenteringColumnSums(X: Matrix, j: nat)
    requires IsMatrix(X) && !IsEmpty(X) && j < |X[0]|
    ensures Sum(Column(MeanCentering(X).value, j)) == 0.0
  {
    CenteredSumZero(X, j);
    assert Column(MeanCentering(X).value, j) == Centered(X, j);
  }

  // ---------------------------------------------------------------- auto / pareto

  /** `autoscaling`: rejects the empty matrix; otherwise every entry centred
      and divided by its column's standard deviation, 1.0 standing in for a
      zero deviation. */
  function Autoscaling(X: Matrix, fp: FloatOps): (r: Result<Matrix>)
    requires IsMatrix(X)
    ensures IsEmpty(X) <==> r == Err(EmptyInput)
    ensures r.Ok? <==> !IsEmpty(X)
    ensures r.Ok? ==>
      SameShape(r.value, X) && IsMatrix(r.value) &&
      forall i, j :: 0 <= i < |X| && 0 <= j < |X[i]| ==>
        r.value[i][j] == (X[i][j] - ColumnMean(X, j)) / OneIfZero(ColumnStd(X, j, fp))
  {
    if IsEmpty(X) then Err(EmptyInput)
    else Ok(MapEntries(X, (x: real, j: nat) =>
      if j < Cols(X) then (x - ColumnMean(X, j)) / OneIfZero(ColumnStd(X, j, fp)) else 0.0))
  }

  /** Every autoscaled column sums to zero. */
  lemma AutoscalingColumnSums(X: Matrix, fp: FloatOps, j: nat)
    requires IsMatrix(X) && !IsEmpty(X) && j < |X[0]|
    ensures Sum(Column(Autoscaling(X, fp).value, j)) == 0.0
  {
    var Y := Autoscaling(X, fp).value;
    var d := OneIfZero(ColumnStd(X, j, fp));
    assert forall i :: 0 <= i < |X| ==> Y[i][j] == Centered(X, j)[i] / d;
    DividedCenteredSumZero(X, Y, j, d);
  }

  /** A column of Y that is column j of X centred and divided by a non-zero d sums to zero. */
  lemma DividedCenteredSumZero(X: Matrix, Y: Matrix, j: nat, d: real)
    requires IsMatrix(X) && |X| > 0 && j < |X[0]|
    requires IsMatrix(Y) && |Y| == |X| && j < |Y[0]| && d != 0.0
    requires forall i :: 0 <= i < |X| ==> Y[i][j] == Centered(X, j)[i] / d
    ensures Sum(Column(Y, j)) == 0.0
  {
    var col := Column(Y, j);
    CenteredSumZero(X, j);
    SumDivided(Centered(X, j), col, d);
    ZeroFactor(Sum(col), d);
  }

  /** A column whose standard deviation is zero is only centred. */
  lemma AutoscalingZeroStd(X: Matrix, fp: FloatOps, j: nat)
    requires IsMatrix(X) && !IsEmpty(X) && j < |X[0]| && ColumnStd(X, j, fp) == 0.0
    ensures forall i :: 0 <= i < |X| ==> Autoscaling(X, fp).value[i][j] == X[i][j] - ColumnMean(X, j)
  {
    forall i | 0 <= i < |X|
      ensures Autoscaling(X, fp).value[i][j] == X[i][j] - ColumnMean(X, j)
    {
      DivOne(X[i][j] - ColumnMean(X, j));
    }
  }

  /** With a real square root every column whose standard deviation is not
      zero has standard deviation one after autoscaling. */
  lemma AutoscalingUnitStd(X: Matrix, fp: FloatOps, j: nat)
    requires SqrtSound(fp.sqrt)
    requires IsMatrix(X) && !IsEmpty(X) && j < |X[0]| && ColumnStd(X, j, fp) != 0.0
    ensures ColumnStd(Autoscaling(X, fp).value, j, fp) == 1.0
  {
    var Y := Autoscaling(X, fp).value;
    var d := ColumnStd(X, j, fp);
    assert forall i :: 0 <= i < |X| ==> Y[i][j] == Centered(X, j)[i] / d;
    DividedStd(X, Y, j, fp, d);
  }

  /** Column j of X centred and divided by its own non-zero standard
      deviation has standard deviation one. */
  lemma DividedStd(X: Matrix, Y: Matrix, j: nat, fp: FloatOps, d: real)
    requires SqrtSound(fp.sqrt)
    requires IsMatrix(X) && |X| > 0 && j < |X[0]|
    requires IsMatrix(Y) && |Y| == |X| && j < |Y[0]|
    requires d == ColumnStd(X, j, fp) && d != 0.0
    requires forall i :: 0 <= i < |X| ==> Y[i][j] == Centered(X, j)[i] / d
    ensures ColumnStd(Y, j, fp) == 1.0
  {
    var n := |X| as real;
    var cx, cy := Centered(X, j), Centered(Y, j);
    DividedCentered(X, Y, j, d);
    ScaledStdOne(fp.sqrt, cx, cy, d, n);
  }

  /** Values divided by the root of their mean square have mean square one. */
  lemma ScaledStdOne(sqrt: real -> real, cx: seq<real>, cy: seq<real>, d: real, n: real)
    requires SqrtSound(sqrt) && n > 0.0 && d != 0.0 && |cx| == |cy|
    requires forall k :: 0 <= k < |cx| ==> cy[k] == cx[k] / d
    requires d == sqrt(SumSquares(cx) / n)
    ensures sqrt(SumSquares(cy) / n) == 1.0
  {
    SumSquaresScaled(cx, cy, d);
    RootOfScaledVariance(sqrt, SumSquares(cy), SumSquares(cx), d, n);
  }

  /** Centring Y, whose column j is already centred and divided by d, divides the centred X by d. */
  lemma DividedCentered(X: Matrix, Y: Matrix, j: nat, d: real)
    requires IsMatrix(X) && |X| > 0 && j < |X[0]|
    requires IsMatrix(Y) && |Y| == |X| && j < |Y[0]| && d != 0.0
    requires forall i :: 0 <= i < |X| ==> Y[i][j] == Centered(X, j)[i] / d
    ensures forall i :: 0 <= i < |X| ==> Centered(Y, j)[i] == Centered(X, j)[i] / d
  {
    DividedCenteredSumZero(X, Y, j, d);
    assert ColumnMean(Y, j) == 0.0;
  }

  /** d = sqrt(sx / n) and sy * d^2 == sx give sqrt(sy / n) == 1. */
  lemma RootOfScaledVariance(sqrt: real -> real, sy: real, sx: real, d: real, n: real)
    requires SqrtSound(sqrt) && n > 0.0 && sx >= 0.0 && d != 0.0
    requires d == sqrt(sx / n) && sy * (d * d) == sx
    ensures sqrt(sy / n) == 1.0
  {
    VarianceNonNeg(sx, n);
    assert d * d == sx / n;
    SquareNonZero(d);
    UnitVariance(sy, sx, d * d, n);
    SqrtOne(sqrt);
  }

  lemma VarianceNonNeg(s: real, n: real)
    requires s >= 0.0 && n > 0.0
    ensures s / n >= 0.0
  {
  }

  /** sy * v == sx with v == sx / n and v non-zero forces sy / n == 1. */
  lemma UnitVariance(sy: real, sx: real, v: real, n: real)
    requires n > 0.0 && v != 0.0 && sy * v == sx && v == sx / n
    ensures sy / n == 1.0
  {
    DivTimes(sx, n);
    assert v * n == sx;
    assert sy * v == n * v;
    MulDivCancel(sy, v);
    MulDivCancel(n, v);
    assert sy == n;
    DivSelf(n);
  }

  lemma SquareNonZero(d: real)
    requires d != 0.0
    ensures d * d != 0.0
  {
    if d > 0.0 {
      ProductPositive(d, d);
    } else {
      ProductPositive(-d, -d);
    }
  }

  /** A real square root of one is one. */
  lemma SqrtOne(sqrt: real -> real)
    requires SqrtSound(sqrt)
    ensures sqrt(1.0) == 1.0
  {
    var s := sqrt(1.0);
    assert s >= 0.0 && s * s == 1.0;
    assert (s - 1.0) * (s + 1.0) == 0.0;
    ZeroFactor(s - 1.0, s + 1.0);
  }

  /** With a real square root a column whose standard deviation is zero is
      only centred by Pareto scaling: the divisor is sqrt(1) = 1. */
  lemma ParetoZeroStd(X: Matrix, fp: FloatOps, j: nat)
    requires SqrtSound(fp.sqrt)
    requires IsMatrix(X) && !IsEmpty(X) && j < |X[0]| && ColumnStd(X, j, fp) == 0.0
    ensures forall i :: 0 <= i < |X| ==> ParetoScaling(X, fp).value[i][j] == X[i][j] - ColumnMean(X, j)
  {
    SqrtOne(fp.sqrt);
    forall i | 0 <= i < |X|
      ensures ParetoScaling(X, fp).value[i][j] == X[i][j] - ColumnMean(X, j)
    {
      DivOne(X[i][j] - ColumnMean(X, j));
    }
  }

  /** With a real square root a constant column has standard deviation zero. */
  lemma ConstantColumnStd(X: Matrix, j: nat, fp: FloatOps)
    requires SqrtSound(fp.sqrt)
    requires IsMatrix(X) && |X| > 0 && j < |X[0]|
    requires forall i :: 0 <= i < |X| ==> X[i][j] == X[0][j]
    ensures ColumnStd(X, j, fp) == 0.0
  {
    var m := ColumnMean(X, j);
    SumConst(Column(X, j), X[0][j]);
    MeanOfConstant(X[0][j], |X| as real);
    assert m == X[0][j];
    var c := Centered(X, j);
    ZerosSumSquares(c);
  }

  lemma MeanOfConstant(v: real, n: real)
    requires n > 0.0
    ensures (n * v) / n == v
  {
    MulDivCancel(v, n);
  }

  lemma {:induction false} ZerosSumSquares(s: seq<real>)
    requires forall k :: 0 <= k < |s| ==> s[k] == 0.0
    ensures SumSquares(s) == 0.0
  {
    if |s| > 0 {
      ZerosSumSquares(s[..|s| - 1]);
    }
  }

  /** `pareto_scaling`: rejects the empty matrix; otherwise every entry
      centred and divided by the square root of its column's standard
      deviation, 1.0 standing in for a zero deviation. The square root is not
      assumed non-zero, so the division is numpy's. */
  function ParetoScaling(X: Matrix, fp: FloatOps): (r: Result<Matrix>)
    requires IsMatrix(X)
    ensures IsEmpty(X) <==> r == Err(EmptyInput)
    ensures r.Ok? <==> !IsEmpty(X)
    ensures r.Ok? ==>
      SameShape(r.value, X) && IsMatrix(r.value) &&
      forall i, j :: 0 <= i < |X| && 0 <= j < |X[i]| ==>
        r.value[i][j] == Div(fp, X[i][j] - ColumnMean(X, j), fp.sqrt(OneIfZero(ColumnStd(X, j, fp))))
  {
    if IsEmpty(X) then Err(EmptyInput)
    else Ok(MapEntries(X, (x: real, j: nat) =>
      if j < Cols(X) then Div(fp, x - ColumnMean(X, j), fp.sqrt(OneIfZero(ColumnStd(X, j, fp)))) else 0.0))
  }

  /** Every Pareto-scaled column whose divisor is non-zero sums to zero;
      with a real square root the divisor is never zero. */
  lemma ParetoColumnSums(X: Matrix, fp: FloatOps, j: nat)
    requires IsMatrix(X) && !IsEmpty(X) && j < |X[0]|
    requires fp.sqrt(OneIfZero(ColumnStd(X, j, fp))) != 0.0
    ensures Sum(Column(ParetoScaling(X, fp).value, j)) == 0.0
  {
    var Y := ParetoScaling(X, fp).value;
    var d := fp.sqrt(OneIfZero(ColumnStd(X, j, fp)));
    assert forall i :: 0 <= i < |X| ==> Y[i][j] == Centered(X, j)[i] / d;
    DividedCenteredSumZero(X, Y, j, d);
  }

  // ---------------------------------------------------------------- range

  function ColumnMin(X: Matrix, j: nat): real
    requires IsMatrix(X) && |X| > 0 && j < |X[0]|
  {
    SeqMin(Column(X, j))
  }

  function ColumnMax(X: Matrix, j: nat): real
    requires IsMatrix(X) && |X| > 0 && j < |X[0]|
  {
    SeqMax(Column(X, j))
  }

  /** The position of x inside its column's range, a zero range replaced by 1.0. */
  function UnitPosition(X: Matrix, j: nat, x: real): real
    requires IsMatrix(X) && |X| > 0 && j < |X[0]|
  {
    (x - ColumnMin(X, j)) / OneIfZero(ColumnMax(X, j) - ColumnMin(X, j))
  }

  /** `range_scaling`'s value for an entry x of column j. */
  function RangeAt(X: Matrix, j: nat, x: real, minTarget: real, maxTarget: real): real
    requires IsMatrix(X) && |X| > 0 && j < |X[0]|
  {
    Stretch(UnitPosition(X, j, x), maxTarget - minTarget) + minTarget
  }

  /** A unit position stretched to a width w. */
  function Stretch(q: real, w: real): real
  {
    q * w
  }

  /** `range_scaling`: rejects the empty matrix; otherwise every entry's
      position in its column's range, mapped linearly onto
      [minTarget, maxTarget]. */
  function RangeScaling(X: Matrix, minTarget: real, maxTarget: real): (r: Result<Matrix>)
    requires IsMatrix(X)
    ensures IsEmpty(X) <==> r == Err(EmptyInput)
    ensures r.Ok? <==> !IsEmpty(X)
    ensures r.Ok? ==>
      SameShape(r.value, X) && IsMatrix(r.value) &&
      forall i, j :: 0 <= i < |X| && 0 <= j < |X[i]| ==>
        r.value[i][j] == RangeAt(X, j, X[i][j], minTarget, maxTarget)
  {
    if IsEmpty(X) then Err(EmptyInput)
    else Ok(MapEntries(X, (x: real, j: nat) =>
      if j < Cols(X) then RangeAt(X, j, x, minTarget, maxTarget) else 0.0))
  }

  /** A column's minimum goes to minTarget, and when the column is not
      constant its maximum goes to maxTarget. */
  lemma RangeScalingEnds(X: Matrix, minTarget: real, maxTarget: real, i: nat, j: nat)
    requires IsMatrix(X) && !IsEmpty(X) && i < |X| && j < |X[0]|
    ensures X[i][j] == ColumnMin(X, j) ==> RangeScaling(X, minTarget, maxTarget).value[i][j] == minTarget
    ensures X[i][j] == ColumnMax(X, j) && ColumnMax(X, j) != ColumnMin(X, j) ==>
      RangeScaling(X, minTarget, maxTarget).value[i][j] == maxTarget
  {
    var q := UnitPosition(X, j, X[i][j]);
    var w := maxTarget - minTarget;
    assert RangeScaling(X, minTarget, maxTarget).value[i][j] == Stretch(q, w) + minTarget;
    var rg := ColumnMax(X, j) - ColumnMin(X, j);
    if X[i][j] == ColumnMin(X, j) {
      assert q == 0.0;
    }
    if X[i][j] == ColumnMax(X, j) && rg != 0.0 {
      DivSelf(rg);
      assert q == 1.0;
    }
  }

  /** Every entry of a constant column goes to minTarget. */
  lemma RangeScalingConstantColumn(X: Matrix, minTarget: real, maxTarget: real, j: nat)
    requires IsMatrix(X) && !IsEmpty(X) && j < |X[0]|
    requires ColumnMax(X, j) == ColumnMin(X, j)
    ensures forall i :: 0 <= i < |X| ==> RangeScaling(X, minTarget, maxTarget).value[i][j] == minTarget
  {
    forall i | 0 <= i < |X|
      ensures RangeScaling(X, minTarget, maxTarget).value[i][j] == minTarget
    {
      assert Column(X, j)[i] == X[i][j];
      RangeScalingEnds(X, minTarget, maxTarget, i, j);
    }
  }

  /** With minTarget <= maxTarget every entry lands inside the target range. */
  lemma RangeScalingBounds(X: Matrix, minTarget: real, maxTarget: real, i: nat, j: nat)
    requires IsMatrix(X) && !IsEmpty(X) && i < |X| && j < |X[0]| && minTarget <= maxTarget
    ensures minTarget <= RangeScaling(X, minTarget, maxTarget).value[i][j] <= maxTarget
  {
    var lo := ColumnMin(X, j);
    var hi := ColumnMax(X, j);
    assert Column(X, j)[i] == X[i][j];
    var q := UnitPosition(X, j, X[i][j]);
    if hi == lo {
      assert q == 0.0;
    } else {
      QuotientInUnit(X[i][j] - lo, hi - lo);
    }
    ScaledInRange(q, minTarget, maxTarget);
  }

  lemma QuotientInUnit(a: real, b: real)
    requires 0.0 <= a <= b && b > 0.0
    ensures 0.0 <= a / b <= 1.0
  {
    DivSelf(b);
    DivMonotone(a, b, b);
  }

  lemma DivMonotone(a: real, c: real, b: real)
    requires 0.0 <= a <= c && b > 0.0
    ensures 0.0 <= a / b <= c / b
  {
  }

  lemma ScaledInRange(q: real, lo: real, hi: real)
    requires 0.0 <= q <= 1.0 && lo <= hi
    ensures lo <= Stretch(q, hi - lo) + lo <= hi
  {
    StretchBounds(q, hi - lo);
  }

  lemma StretchBounds(q: real, w: real)
    requires 0.0 <= q <= 1.0 && w >= 0.0
    ensures 0.0 <= Stretch(q, w) <= w
  {
    ProductBounds(q, w);
  }

  lemma ProductBounds(q: real, w: real)
    requires 0.0 <= q <= 1.0 && w >= 0.0
    ensures 0.0 <= q * w && q * w <= w
  {
  }

  /** With the default range (0, 1) every entry lies in [0, 1]. */
  lemma RangeScalingDefaultInUnit(X: Matrix, i: nat, j: nat)
    requires IsMatrix(X) && !IsEmpty(X) && i < |X| && j < |X[0]|
    ensures 0.0 <= RangeScaling(X, 0.0, 1.0).value[i][j] <= 1.0
  {
    RangeScalingBounds(X, 0.0, 1.0, i, j);
  }

  // ---------------------------------------------------------------- dispatcher

  /** `scale`: lower-cases the method name; 'range' forwards the optional
      target range (default (0, 1)), the other methods take no keywords;
      any other name is rejected. */
  function Scale(X: Matrix, name: string, featureRange: Option<(real, real)>, fp: FloatOps): (r: Result<Matrix>)
    requires IsMatrix(X)
    ensures Lower(name) == "auto" ==> r == Autoscaling(X, fp)
    ensures Lower(name) == "pareto" ==> r == ParetoScaling(X, fp)
    ensures Lower(name) == "range" ==>
      r == RangeScaling(X, GetOr(featureRange, (0.0, 1.0)).0, GetOr(featureRange, (0.0, 1.0)).1)
    ensures Lower(name) == "center" ==> r == MeanCentering(X)
    ensures Lower(name) !in {"auto", "pareto", "range", "center"} ==> r == Err(UnknownMethod(Lower(name)))
    ensures r.Ok? ==> SameShape(r.value, X) && !IsEmpty(X)
  {
    var m := Lower(name);
    if m == "auto" then Autoscaling(X, fp)
    else if m == "pareto" then ParetoScaling(X, fp)
    else if m == "range" then
      var range := GetOr(featureRange, (0.0, 1.0));
      RangeScaling(X, range.0, range.1)
    else if m == "center" then MeanCentering(X)
    else Err(UnknownMethod(m))
  }
}
