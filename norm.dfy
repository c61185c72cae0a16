/** The normalisation stage (src/suite/core/norm.py): every spectrum (row) is
    divided by a per-row factor — its total area, its PQN quotient median,
    its Euclidean norm or the area of a reference window — each guarded
    against zero, and a dispatcher picks the method by name. */
module Norm {
  import opened Common

  /** The replacement numpy writes over a zero (or non-positive) divisor. */
  const Tiny: real := 0.0000000001
  const DefaultScaleTo: real := 100.0

  /** `a[a == 0] = 1e-10` on one entry. */
  function NonZero(d: real): (g: real)
    ensures g != 0.0
    ensures d != 0.0 ==> g == d
  {
    if d == 0.0 then Tiny else d
  }

  /** `a[a <= 0] = 1e-10` on one entry. */
  function Positive(d: real): (g: real)
    ensures g > 0.0
    ensures d > 0.0 ==> g == d
  {
    if d <= 0.0 then Tiny else d
  }

  /** Every row divided by its own divisor. */
  function DivideRows(X: Matrix, d: seq<real>): (Y: Matrix)
    requires |d| == |X| && forall i :: 0 <= i < |d| ==> d[i] != 0.0
    ensures SameShape(Y, X)
    ensures forall i, j :: 0 <= i < |X| && 0 <= j < |X[i]| ==> Y[i][j] == X[i][j] / d[i]
  {
    seq(|X|, i requires 0 <= i < |X| => seq(|X[i]|, j requires 0 <= j < |X[i]| => X[i][j] / d[i]))
  }

  // ---------------------------------------------------------------- total area

  function TotalAreaDivisors(X: Matrix): (d: seq<real>)
    ensures |d| == |X|
    ensures forall i :: 0 <= i < |X| ==> d[i] == NonZero(Sum(X[i])) && d[i] != 0.0
  {
    seq(|X|, i requires 0 <= i < |X| => NonZero(Sum(X[i])))
  }

  /** `total_area_normalization`: rejects the empty matrix; otherwise each
      row divided by its sum (1e-10 for a zero sum) and multiplied by `scaleTo`. */
  function TotalArea(X: Matrix, scaleTo: real): (r: Result<Matrix>)
    requires IsMatrix(X)
    ensures IsEmpty(X) <==> r == Err(EmptyInput)
    ensures r.Ok? <==> !IsEmpty(X)
    ensures r.Ok? ==>
      SameShape(r.value, X) &&
      forall i, j :: 0 <= i < |X| && 0 <= j < |X[i]| ==>
        r.value[i][j] == X[i][j] / NonZero(Sum(X[i])) * scaleTo
  {
    if IsEmpty(X) then Err(EmptyInput)
    else
      var d := TotalAreaDivisors(X);
      var Q := DivideRows(X, d);
      Ok(seq(|X|, i requires 0 <= i < |X| => seq(|X[i]|, j requires 0 <= j < |X[i]| => Q[i][j] * scaleTo)))
  }

  /** Each row with a non-zero sum sums to `scaleTo` afterwards; a zero-sum
      row stays a zero-sum row. */
  lemma TotalAreaRowSum(X: Matrix, scaleTo: real, i: nat)
    requires IsMatrix(X) && !IsEmpty(X) && i < |X|
    ensures Sum(X[i]) != 0.0 ==> Sum(TotalArea(X, scaleTo).value[i]) == scaleTo
    ensures Sum(X[i]) == 0.0 ==> Sum(TotalArea(X, scaleTo).value[i]) == 0.0
  {
    var row := TotalArea(X, scaleTo).value[i];
    var d := NonZero(Sum(X[i]));
    var q := seq(|X[i]|, j requires 0 <= j < |X[i]| => X[i][j] / d);
    SumDivided(X[i], q, d);
    SumScaled(q, row, scaleTo);
    RowSumArithmetic(Sum(q), Sum(row), d, Sum(X[i]), scaleTo);
  }

  lemma RowSumArithmetic(sq: real, sr: real, d: real, sx: real, s: real)
    requires d != 0.0 && sq * d == sx && sr == sq * s && (sx != 0.0 ==> d == sx)
    ensures sx != 0.0 ==> sr == s
    ensures sx == 0.0 ==> sr == 0.0
  {
  }

  /** The matrix [[1,2,3],[4,5,6]] scaled to 100 per row. */
  lemma TotalAreaExample()
    ensures TotalArea([[1.0, 2.0, 3.0], [4.0, 5.0, 6.0]], 100.0)
         == Ok([[50.0 / 3.0, 100.0 / 3.0, 50.0], [80.0 / 3.0, 100.0 / 3.0, 40.0]])
  {
    var X := [[1.0, 2.0, 3.0], [4.0, 5.0, 6.0]];
    SumOfThree(1.0, 2.0, 3.0);
    SumOfThree(4.0, 5.0, 6.0);
    var r := TotalArea(X, 100.0);
    assert NonZero(Sum(X[0])) == 6.0 && NonZero(Sum(X[1])) == 15.0;
    assert |r.value| == 2 && |r.value[0]| == 3 && |r.value[1]| == 3;
    assert r.value[0][0] == 50.0 / 3.0 && r.value[0][1] == 100.0 / 3.0 && r.value[0][2] == 50.0;
    assert r.value[1][0] == 80.0 / 3.0 && r.value[1][1] == 100.0 / 3.0 && r.value[1][2] == 40.0;
    assert r.value[0] == [50.0 / 3.0, 100.0 / 3.0, 50.0];
    assert r.value[1] == [80.0 / 3.0, 100.0 / 3.0, 40.0];
    assert r.value == [[50.0 / 3.0, 100.0 / 3.0, 50.0], [80.0 / 3.0, 100.0 / 3.0, 40.0]];
  }

  lemma SumOfThree(a: real, b: real, c: real)
    ensures Sum([a, b, c]) == a + b + c
  {
    assert [a][..0] == [];
    assert Sum([a]) == a;
    assert [a, b][..1] == [a];
    assert Sum([a, b]) == a + b;
    assert [a, b, c][..2] == [a, b];
  }

  // ---------------------------------------------------------------- median

  predicate IsSorted(t: seq<real>)
  {
    forall i, j :: 0 <= i < j < |t| ==> t[i] <= t[j]
  }

  function Insert(x: real, t: seq<real>): (r: seq<real>)
    requires IsSorted(t)
    ensures IsSorted(r) && multiset(r) == multiset(t) + multiset{x} && |r| == |t| + 1
  {
    if |t| == 0 then [x]
    else if x <= t[0] then [x] + t
    else
      var rest := Insert(x, t[1..]);
      InsertStep(x, t, rest);
      [t[0]] + rest
  }

  /** Putting the head of t back in front of x inserted into the tail of t. */
  lemma InsertStep(x: real, t: seq<real>, rest: seq<real>)
    requires IsSorted(t) && |t| > 0 && t[0] < x
    requires IsSorted(rest) && multiset(rest) == multiset(t[1..]) + multiset{x}
    ensures IsSorted([t[0]] + rest)
    ensures multiset([t[0]] + rest) == multiset(t) + multiset{x}
  {
    assert t == [t[0]] + t[1..];
    forall k | 0 <= k < |rest|
      ensures t[0] <= rest[k]
    {
      assert rest[k] in multiset(rest);
      assert rest[k] == x || rest[k] in multiset(t[1..]);
    }
  }

  /** The values of `s` in ascending order (insertion sort). */
  function SortSeq(s: seq<real>): (r: seq<real>)
    ensures IsSorted(r) && multiset(r) == multiset(s) && |r| == |s|
  {
    if |s| == 0 then []
    else
      assert s == s[..|s| - 1] + [s[|s| - 1]];
      Insert(s[|s| - 1], SortSeq(s[..|s| - 1]))
  }

  /** `np.median` of a non-empty sequence: the middle value of the sorted
      copy, or the mean of the two middle values when the length is even. */
  function Median(s: seq<real>): real
    requires |s| > 0
  {
    Middle(SortSeq(s))
  }

  function Middle(t: seq<real>): real
    requires |t| > 0
  {
    var h := |t| / 2;
    if |t| % 2 == 1 then t[h] else (t[h - 1] + t[h]) / 2.0
  }

  /** The median lies between the smallest and the largest value. */
  lemma MedianBetween(s: seq<real>)
    requires |s| > 0
    ensures SeqMin(s) <= Median(s) <= SeqMax(s)
  {
    MiddleBetween(s, SortSeq(s));
  }

  lemma MiddleBetween(s: seq<real>, t: seq<real>)
    requires |s| > 0 && multiset(t) == multiset(s) && |t| == |s|
    ensures SeqMin(s) <= Middle(t) <= SeqMax(s)
  {
    var h := |t| / 2;
    MemberOfSorted(s, t, h);
    if |t| % 2 == 0 {
      MemberOfSorted(s, t, h - 1);
    }
  }

  lemma MemberOfSorted(s: seq<real>, t: seq<real>, k: nat)
    requires |s| > 0 && multiset(t) == multiset(s) && k < |t|
    ensures SeqMin(s) <= t[k] <= SeqMax(s)
  {
    assert t[k] in multiset(s);
    var i :| 0 <= i < |s| && s[i] == t[k];
  }

  /** The median of a sequence whose entries all equal c is c. */
  lemma MedianConstant(s: seq<real>, c: real)
    requires |s| > 0 && forall k :: 0 <= k < |s| ==> s[k] == c
    ensures Median(s) == c
  {
    MedianBetween(s);
    assert SeqMin(s) == c && SeqMax(s) == c by {
      assert s[0] == c;
    }
  }

  // ---------------------------------------------------------------- PQN

  /** The per-point reference: the median of every column over the samples. */
  function PqnReference(X: Matrix): (ref: seq<real>)
    requires IsMatrix(X) && |X| > 0
    ensures |ref| == |X[0]|
    ensures forall j :: 0 <= j < |ref| ==> ref[j] == Median(Column(X, j))
  {
    seq(|X[0]|, j requires 0 <= j < |X[0]| => Median(Column(X, j)))
  }

  /** One row divided point by point by the reference, a zero reference
      value replaced by 1e-10. */
  function Quotients(row: seq<real>, ref: seq<real>): (q: seq<real>)
    requires |row| == |ref|
    ensures |q| == |row|
    ensures forall j :: 0 <= j < |row| ==> q[j] == row[j] / NonZero(ref[j])
  {
    seq(|row|, j requires 0 <= j < |row| => row[j] / NonZero(ref[j]))
  }

  /** The per-row factor: the median of the row's quotients, a zero median
      replaced by 1e-10. */
  function PqnFactors(X: Matrix): (f: seq<real>)
    requires IsMatrix(X) && !IsEmpty(X)
    ensures |f| == |X|
    ensures forall i :: 0 <= i < |X| ==> f[i] == RowFactor(X[i], PqnReference(X)) && f[i] != 0.0
  {
    var ref := PqnReference(X);
    assert forall i :: 0 <= i < |X| ==> |X[i]| == |ref| > 0;
    seq(|X|, i requires 0 <= i < |X| => RowFactor(X[i], ref))
  }

  function RowFactor(row: seq<real>, ref: seq<real>): (f: real)
    requires |row| == |ref| && |row| > 0
    ensures f != 0.0
  {
    NonZero(Median(Quotients(row, ref)))
  }

  /** `pqn_normalization`: rejects the empty matrix; otherwise each row
      divided by its PQN factor. */
  function Pqn(X: Matrix): (r: Result<Matrix>)
    requires IsMatrix(X)
    ensures IsEmpty(X) <==> r == Err(EmptyInput)
    ensures r.Ok? <==> !IsEmpty(X)
    ensures r.Ok? ==>
      var f := PqnFactors(X);
      SameShape(r.value, X) &&
      forall i, j :: 0 <= i < |X| && 0 <= j < |X[i]| ==> r.value[i][j] == X[i][j] / f[i]
  {
    if IsEmpty(X) then Err(EmptyInput)
    else Ok(DivideRows(X, PqnFactors(X)))
  }

  /** Identical rows without zero entries are left as they are: the reference
      is the row itself, every quotient is 1 and so is every factor. */
  lemma PqnIdenticalRows(X: Matrix, v: seq<real>)
    requires |X| > 0 && |v| > 0 && forall i :: 0 <= i < |X| ==> X[i] == v
    requires forall j :: 0 <= j < |v| ==> v[j] != 0.0
    ensures Pqn(X) == Ok(X)
  {
    assert IsMatrix(X) && !IsEmpty(X);
    FactorsOfIdenticalRows(X, v);
    DividedByOnes(X, PqnFactors(X), Pqn(X).value);
  }

  lemma DividedByOnes(X: Matrix, f: seq<real>, Y: Matrix)
    requires |f| == |X| && forall i :: 0 <= i < |X| ==> f[i] == 1.0
    requires SameShape(Y, X)
    requires forall i, j :: 0 <= i < |X| && 0 <= j < |X[i]| ==> Y[i][j] == X[i][j] / f[i]
    ensures Y == X
  {
    forall i | 0 <= i < |X|
      ensures Y[i] == X[i]
    {
      forall j | 0 <= j < |X[i]|
        ensures Y[i][j] == X[i][j]
      {
        DivOne(X[i][j]);
      }
    }
  }

  lemma FactorsOfIdenticalRows(X: Matrix, v: seq<real>)
    requires |X| > 0 && |v| > 0 && forall i :: 0 <= i < |X| ==> X[i] == v
    requires forall j :: 0 <= j < |v| ==> v[j] != 0.0
    ensures forall i :: 0 <= i < |X| ==> PqnFactors(X)[i] == 1.0
  {
    ReferenceOfIdenticalRows(X, v);
    SelfQuotientFactor(v);
  }

  lemma ReferenceOfIdenticalRows(X: Matrix, v: seq<real>)
    requires |X| > 0 && forall i :: 0 <= i < |X| ==> X[i] == v
    ensures PqnReference(X) == v
  {
    var ref := PqnReference(X);
    forall j | 0 <= j < |v|
      ensures ref[j] == v[j]
    {
      MedianConstant(Column(X, j), v[j]);
    }
  }

  lemma SelfQuotientFactor(v: seq<real>)
    requires |v| > 0 && forall j :: 0 <= j < |v| ==> v[j] != 0.0
    ensures RowFactor(v, v) == 1.0
  {
    var q := Quotients(v, v);
    forall j | 0 <= j < |v|
      ensures q[j] == 1.0
    {
      DivSelf(v[j]);
    }
    MedianConstant(q, 1.0);
  }

  // ---------------------------------------------------------------- vector

  /** The Euclidean norm of every row, a zero norm replaced by 1e-10. */
  function VectorNorms(X: Matrix, fp: FloatOps): (n: seq<real>)
    ensures |n| == |X|
    ensures forall i :: 0 <= i < |X| ==> n[i] == NonZero(fp.sqrt(SumSquares(X[i]))) && n[i] != 0.0
  {
    seq(|X|, i requires 0 <= i < |X| => NonZero(fp.sqrt(SumSquares(X[i]))))
  }

  /** `vector_normalization`: rejects the empty matrix; otherwise each row
      divided by its Euclidean norm. */
  function Vector(X: Matrix, fp: FloatOps): (r: Result<Matrix>)
    requires IsMatrix(X)
    ensures IsEmpty(X) <==> r == Err(EmptyInput)
    ensures r.Ok? <==> !IsEmpty(X)
    ensures r.Ok? ==>
      SameShape(r.value, X) &&
      forall i, j :: 0 <= i < |X| && 0 <= j < |X[i]| ==>
        r.value[i][j] == X[i][j] / NonZero(fp.sqrt(SumSquares(X[i])))
  {
    if IsEmpty(X) then Err(EmptyInput)
    else Ok(DivideRows(X, VectorNorms(X, fp)))
  }

  /** With a real square root every non-zero row has unit norm afterwards. */
  lemma VectorUnitNorm(X: Matrix, fp: FloatOps, i: nat)
    requires SqrtSound(fp.sqrt)
    requires IsMatrix(X) && !IsEmpty(X) && i < |X| && SumSquares(X[i]) != 0.0
    ensures SumSquares(Vector(X, fp).value[i]) == 1.0
  {
    var ss := SumSquares(X[i]);
    var n := fp.sqrt(ss);
    assert n * n == ss;
    if n == 0.0 {
      assert false;
    }
    var row := Vector(X, fp).value[i];
    SumSquaresScaled(X[i], row, n);
    UnitFactor(SumSquares(row), n * n, ss);
  }

  // ---------------------------------------------------------------- internal standard

  /** `(ppm >= ppm_min) & (ppm <= ppm_max)` at one point. */
  predicate InWindow(p: real, ppmMin: real, ppmMax: real)
  {
    ppmMin <= p && p <= ppmMax
  }

  /** `np.sum(row[mascara])`: the sum of the row's values inside the window. */
  function WindowSum(row: seq<real>, ppm: seq<real>, ppmMin: real, ppmMax: real): real
    requires |row| == |ppm|
  {
    if |row| == 0 then 0.0
    else
      var n := |row| - 1;
      WindowSum(row[..n], ppm[..n], ppmMin, ppmMax)
        + (if InWindow(ppm[n], ppmMin, ppmMax) then row[n] else 0.0)
  }

  /** The reference area of every row, non-positive areas replaced by 1e-10. */
  function ReferenceAreas(X: Matrix, ppm: seq<real>, ppmMin: real, ppmMax: real): (a: seq<real>)
    requires IsMatrix(X) && |X| > 0 && |ppm| == |X[0]|
    ensures |a| == |X|
    ensures forall i :: 0 <= i < |X| ==> a[i] == Positive(WindowSum(X[i], ppm, ppmMin, ppmMax)) && a[i] != 0.0
  {
    seq(|X|, i requires 0 <= i < |X| => Positive(WindowSum(X[i], ppm, ppmMin, ppmMax)))
  }

  /** `internal_standard_normalization`: rejects, in this order, the empty
      matrix, an axis whose length is not the column count, an empty or
      reversed window and a window holding no axis value; otherwise each row
      divided by its area inside the window. The integration method is ignored. */
  function InternalStandard(X: Matrix, ppm: seq<real>, ppmMin: real, ppmMax: real): (r: Result<Matrix>)
    requires IsMatrix(X)
    ensures IsEmpty(X) ==> r == Err(EmptyInput)
    ensures !IsEmpty(X) && |ppm| != Cols(X) ==> r == Err(ShapeMismatch)
    ensures !IsEmpty(X) && |ppm| == Cols(X) && ppmMin >= ppmMax ==> r == Err(InvalidRange)
    ensures r == Err(EmptyRange) <==>
      !IsEmpty(X) && |ppm| == Cols(X) && ppmMin < ppmMax &&
      forall j :: 0 <= j < |ppm| ==> !InWindow(ppm[j], ppmMin, ppmMax)
    ensures r.Ok? <==>
      !IsEmpty(X) && |ppm| == Cols(X) && ppmMin < ppmMax &&
      exists j :: 0 <= j < |ppm| && InWindow(ppm[j], ppmMin, ppmMax)
    ensures r.Ok? ==>
      |ppm| == Cols(X) && SameShape(r.value, X) &&
      (exists j :: 0 <= j < |ppm| && InWindow(ppm[j], ppmMin, ppmMax)) &&
      forall i, j :: 0 <= i < |X| && 0 <= j < |X[i]| ==>
        r.value[i][j] == X[i][j] / Positive(WindowSum(X[i], ppm, ppmMin, ppmMax))
  {
    if IsEmpty(X) then Err(EmptyInput)
    else if |ppm| != |X[0]| then Err(ShapeMismatch)
    else if ppmMin >= ppmMax then Err(InvalidRange)
    else if forall j :: 0 <= j < |ppm| ==> !InWindow(ppm[j], ppmMin, ppmMax) then Err(EmptyRange)
    else Ok(DivideRows(X, ReferenceAreas(X, ppm, ppmMin, ppmMax)))
  }

  /** Window sum of y when every y[k] is x[k] / d. */
  lemma {:induction false} WindowSumDivided(x: seq<real>, y: seq<real>, ppm: seq<real>, lo: real, hi: real, d: real)
    requires d != 0.0 && |x| == |y| == |ppm|
    requires forall k :: 0 <= k < |x| ==> y[k] == x[k] / d
    ensures WindowSum(y, ppm, lo, hi) * d == WindowSum(x, ppm, lo, hi)
  {
    if |x| > 0 {
      var n := |x| - 1;
      WindowSumDivided(x[..n], y[..n], ppm[..n], lo, hi, d);
      var ty := if InWindow(ppm[n], lo, hi) then y[n] else 0.0;
      var tx := if InWindow(ppm[n], lo, hi) then x[n] else 0.0;
      TermDivided(InWindow(ppm[n], lo, hi), x[n], y[n], d);
      Distribute(WindowSum(y[..n], ppm[..n], lo, hi), ty, d);
    }
  }

  lemma TermDivided(inside: bool, xn: real, yn: real, d: real)
    requires d != 0.0 && yn == xn / d
    ensures (if inside then yn else 0.0) * d == (if inside then xn else 0.0)
  {
  }

  /** A row whose reference area is positive has area exactly 1 afterwards. */
  lemma InternalStandardUnitArea(X: Matrix, ppm: seq<real>, ppmMin: real, ppmMax: real, i: nat)
    requires IsMatrix(X) && InternalStandard(X, ppm, ppmMin, ppmMax).Ok? && i < |X|
    requires WindowSum(X[i], ppm, ppmMin, ppmMax) > 0.0
    ensures WindowSum(InternalStandard(X, ppm, ppmMin, ppmMax).value[i], ppm, ppmMin, ppmMax) == 1.0
  {
    var a := WindowSum(X[i], ppm, ppmMin, ppmMax);
    var row := InternalStandard(X, ppm, ppmMin, ppmMax).value[i];
    WindowSumDivided(X[i], row, ppm, ppmMin, ppmMax, a);
    UnitFactor(WindowSum(row, ppm, ppmMin, ppmMax), a, WindowSum(X[i], ppm, ppmMin, ppmMax));
  }

  /** A row whose reference area is not positive is divided by 1e-10. */
  lemma InternalStandardNonPositiveArea(X: Matrix, ppm: seq<real>, ppmMin: real, ppmMax: real, i: nat)
    requires IsMatrix(X) && InternalStandard(X, ppm, ppmMin, ppmMax).Ok? && i < |X|
    requires WindowSum(X[i], ppm, ppmMin, ppmMax) <= 0.0
    ensures forall j :: 0 <= j < |X[i]| ==> InternalStandard(X, ppm, ppmMin, ppmMax).value[i][j] == X[i][j] / Tiny
  {
  }

  // ---------------------------------------------------------------- dispatcher

  /** The keyword arguments `normalize` forwards; None means not given. */
  datatype NormalizeArgs = NormalizeArgs(
    scaleTo: Option<real>, ppmMin: Option<real>, ppmMax: Option<real>, metodoIntegral: Option<string>)

  /** `normalize`: lower-cases the method name. 'total_area' forwards its
      keywords (only scale_to is accepted), 'pqn' and 'vector' drop them,
      'internal_standard' first demands the axis, then its keywords (ppm_min
      and ppm_max required, scale_to refused); any other name is rejected. */
  function Normalize(X: Matrix, name: string, ppm: Option<seq<real>>, args: NormalizeArgs, fp: FloatOps): (r: Result<Matrix>)
    requires IsMatrix(X)
    ensures Lower(name) == "total_area" && args.ppmMin.None? && args.ppmMax.None? && args.metodoIntegral.None? ==>
      r == TotalArea(X, GetOr(args.scaleTo, DefaultScaleTo))
    ensures Lower(name) == "total_area" && args.ppmMin.Some? ==> r == Err(UnexpectedArgument("ppm_min"))
    ensures Lower(name) == "total_area" && args.ppmMin.None? && args.ppmMax.Some? ==>
      r == Err(UnexpectedArgument("ppm_max"))
    ensures Lower(name) == "total_area" && args.ppmMin.None? && args.ppmMax.None? && args.metodoIntegral.Some? ==>
      r == Err(UnexpectedArgument("metodo_integral"))
    ensures Lower(name) == "pqn" ==> r == Pqn(X)
    ensures Lower(name) == "vector" ==> r == Vector(X, fp)
    ensures Lower(name) == "internal_standard" && ppm.None? ==> r == Err(MissingAxis)
    ensures Lower(name) == "internal_standard" && ppm.Some? && args.scaleTo.None?
            && args.ppmMin.Some? && args.ppmMax.Some? ==>
      r == InternalStandard(X, ppm.value, args.ppmMin.value, args.ppmMax.value)
    ensures Lower(name) == "internal_standard" && ppm.Some? && args.scaleTo.None? && args.ppmMin.None? ==>
      r == Err(MissingArgument("ppm_min"))
    ensures Lower(name) == "internal_standard" && ppm.Some? && args.scaleTo.Some? ==>
      r == Err(UnexpectedArgument("scale_to"))
    ensures Lower(name) == "internal_standard" && ppm.Some? && args.scaleTo.None? && args.ppmMin.Some?
            && args.ppmMax.None? ==>
      r == Err(MissingArgument("ppm_max"))
    ensures Lower(name) !in {"total_area", "pqn", "vector", "internal_standard"} ==>
      r == Err(UnknownMethod(Lower(name)))
    ensures r.Ok? ==> SameShape(r.value, X) && !IsEmpty(X)
  {
    var m := Lower(name);
    if m == "total_area" then
      if args.ppmMin.Some? then Err(UnexpectedArgument("ppm_min"))
      else if args.ppmMax.Some? then Err(UnexpectedArgument("ppm_max"))
      else if args.metodoIntegral.Some? then Err(UnexpectedArgument("metodo_integral"))
      else TotalArea(X, GetOr(args.scaleTo, DefaultScaleTo))
    else if m == "pqn" then Pqn(X)
    else if m == "vector" then Vector(X, fp)
    else if m == "internal_standard" then
      if ppm.None? then Err(MissingAxis)
      else if args.scaleTo.Some? then Err(UnexpectedArgument("scale_to"))
      else if args.ppmMin.None? then Err(MissingArgument("ppm_min"))
      else if args.ppmMax.None? then Err(MissingArgument("ppm_max"))
      else InternalStandard(X, ppm.value, args.ppmMin.value, args.ppmMax.value)
    else Err(UnknownMethod(m))
  }
}
