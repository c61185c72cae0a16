/** The transform stage (src/suite/core/trnsf.py): elementwise re-expression
    of the intensities by a logarithm, the generalised logarithm or a square
    root, each on a shifted copy, and the dispatcher that picks one by name.
    The logarithms and the square root themselves are the uninterpreted
    fields of `FloatOps`; the model covers the checks, shifts and dispatch. */
module Trnsf {
  import opened Common

  const DefaultEpsilon: real := 0.000001
  const DefaultLambda: real := 1.0

  /** `np.min(X)`: the smallest entry of a non-empty matrix. */
  function MatrixMin(X: Matrix): (m: real)
    requires IsMatrix(X) && !IsEmpty(X)
    ensures forall i, j :: 0 <= i < |X| && 0 <= j < |X[i]| ==> m <= X[i][j]
    ensures exists i, j :: 0 <= i < |X| && 0 <= j < |X[i]| && X[i][j] == m
  {
    var rowMins := seq(|X|, i requires 0 <= i < |X| => SeqMin(X[i]));
    var m := SeqMin(rowMins);
    assert forall i, j :: 0 <= i < |X| && 0 <= j < |X[i]| ==> m <= rowMins[i] <= X[i][j];
    var k :| 0 <= k < |X| && rowMins[k] == m;
    var j :| 0 <= j < |X[k]| && X[k][j] == rowMins[k];
    m
  }

  /** Every entry moved by the same amount `c`. */
  function Shift(X: Matrix, c: real): (Y: Matrix)
    ensures SameShape(Y, X)
    ensures forall i, j :: 0 <= i < |X| && 0 <= j < |X[i]| ==> Y[i][j] == X[i][j] + c
  {
    seq(|X|, i requires 0 <= i < |X| => seq(|X[i]|, j requires 0 <= j < |X[i]| => X[i][j] + c))
  }

  /** A function applied to every entry. */
  function Apply(X: Matrix, f: real -> real): (Y: Matrix)
    ensures SameShape(Y, X)
    ensures forall i, j :: 0 <= i < |X| && 0 <= j < |X[i]| ==> Y[i][j] == f(X[i][j])
  {
    seq(|X|, i requires 0 <= i < |X| => seq(|X[i]|, j requires 0 <= j < |X[i]| => f(X[i][j])))
  }

  lemma SameShapeMatrix(X: Matrix, Y: Matrix)
    requires IsMatrix(X) && SameShape(Y, X)
    ensures IsMatrix(Y)
  {
  }

  /** The copy `log_transform` takes the logarithm of: shifted by
      `epsilon - min` when the minimum is not positive, left as it is otherwise. */
  function LogShifted(X: Matrix, epsilon: real): (S: Matrix)
    requires IsMatrix(X) && !IsEmpty(X)
    ensures SameShape(S, X)
    ensures MatrixMin(X) > 0.0 ==> S == X
    ensures MatrixMin(X) <= 0.0 ==>
      forall i, j :: 0 <= i < |X| && 0 <= j < |X[i]| ==>
        S[i][j] == X[i][j] - MatrixMin(X) + epsilon && S[i][j] >= epsilon
    ensures epsilon > 0.0 ==> forall i, j :: 0 <= i < |S| && 0 <= j < |S[i]| ==> S[i][j] > 0.0
  {
    var m := MatrixMin(X);
    if m <= 0.0 then Shift(X, epsilon - m) else X
  }

  predicate IsLogBase(base: string)
  {
    base == "e" || base == "2" || base == "10"
  }

  function LogIn(fp: FloatOps, base: string): real -> real
    requires IsLogBase(base)
  {
    if base == "e" then fp.ln else if base == "2" then fp.log2 else fp.log10
  }

  /** `log_transform`: rejects the empty matrix, then a non-positive epsilon,
      then an unknown base; otherwise the logarithm of every shifted entry,
      each of which is strictly positive. */
  function LogTransform(X: Matrix, epsilon: real, base: string, fp: FloatOps): (r: Result<Matrix>)
    requires IsMatrix(X)
    ensures IsEmpty(X) ==> r == Err(EmptyInput)
    ensures !IsEmpty(X) && epsilon <= 0.0 ==> r == Err(InvalidParameter("epsilon"))
    ensures !IsEmpty(X) && epsilon > 0.0 && !IsLogBase(base) ==> r == Err(UnsupportedBase(base))
    ensures r.Ok? <==> !IsEmpty(X) && epsilon > 0.0 && IsLogBase(base)
    ensures r.Ok? ==>
      var S := LogShifted(X, epsilon);
      SameShape(r.value, X) &&
      forall i, j :: 0 <= i < |X| && 0 <= j < |X[i]| ==>
        S[i][j] > 0.0 && r.value[i][j] == LogIn(fp, base)(S[i][j])
  {
    if IsEmpty(X) then Err(EmptyInput)
    else if epsilon <= 0.0 then Err(InvalidParameter("epsilon"))
    else
      var S := LogShifted(X, epsilon);
      if IsLogBase(base) then Ok(Apply(S, LogIn(fp, base)))
      else Err(UnsupportedBase(base))
  }

  /** The quantity under the square root of the generalised logarithm. */
  function GlogInside(x: real, lambdaVal: real, epsilon: real): real
  {
    x * x + lambdaVal * lambdaVal + epsilon
  }

  function GlogAt(fp: FloatOps, x: real, lambdaVal: real, epsilon: real): real
    requires lambdaVal > 0.0
  {
    fp.ln((x + fp.sqrt(GlogInside(x, lambdaVal, epsilon))) / (2.0 * lambdaVal))
  }

  /** `glog_transform`: rejects the empty matrix and a non-positive lambda;
      otherwise log((x + sqrt(x^2 + lambda^2 + epsilon)) / (2 lambda)) entrywise.
      epsilon is not checked (see `GlogArgumentPositive` for when the
      logarithm's argument is positive). */
  function GlogTransform(X: Matrix, lambdaVal: real, epsilon: real, fp: FloatOps): (r: Result<Matrix>)
    requires IsMatrix(X)
    ensures IsEmpty(X) ==> r == Err(EmptyInput)
    ensures !IsEmpty(X) && lambdaVal <= 0.0 ==> r == Err(InvalidParameter("lambda_val"))
    ensures r.Ok? <==> !IsEmpty(X) && lambdaVal > 0.0
    ensures r.Ok? ==>
      SameShape(r.value, X) &&
      forall i, j :: 0 <= i < |X| && 0 <= j < |X[i]| ==>
        r.value[i][j] == GlogAt(fp, X[i][j], lambdaVal, epsilon)
  {
    if IsEmpty(X) then Err(EmptyInput)
    else if lambdaVal <= 0.0 then Err(InvalidParameter("lambda_val"))
    else
      Ok(Apply(X, x => GlogAt(fp, x, lambdaVal, epsilon)))
  }

  /** With a real square root the argument of glog's logarithm is positive for
      every x, negative ones included, once lambda^2 + epsilon > 0. */
  lemma GlogArgumentPositive(fp: FloatOps, x: real, lambdaVal: real, epsilon: real)
    requires SqrtSound(fp.sqrt)
    requires lambdaVal > 0.0 && lambdaVal * lambdaVal + epsilon > 0.0
    ensures (x + fp.sqrt(GlogInside(x, lambdaVal, epsilon))) / (2.0 * lambdaVal) > 0.0
  {
    var y := GlogInside(x, lambdaVal, epsilon);
    var s := fp.sqrt(y);
    assert y > x * x;
    assert 0.0 <= s && s * s == y;
    assert x + s > 0.0;
  }

  /** The copy `sqrt_transform` takes the root of: shifted by `epsilon - min`
      only when the minimum is strictly negative. */
  function SqrtShifted(X: Matrix, epsilon: real): (S: Matrix)
    requires IsMatrix(X) && !IsEmpty(X)
    ensures SameShape(S, X)
    ensures MatrixMin(X) >= 0.0 ==> S == X
    ensures MatrixMin(X) < 0.0 ==>
      forall i, j :: 0 <= i < |X| && 0 <= j < |X[i]| ==>
        S[i][j] == X[i][j] - MatrixMin(X) + epsilon && S[i][j] >= epsilon
    ensures epsilon >= 0.0 ==> forall i, j :: 0 <= i < |S| && 0 <= j < |S[i]| ==> S[i][j] >= 0.0
  {
    var m := MatrixMin(X);
    if m < 0.0 then Shift(X, epsilon - m) else X
  }

  /** `sqrt_transform`: rejects the empty matrix; otherwise the square root of
      every entry of the shifted copy. epsilon is not checked. */
  function SqrtTransform(X: Matrix, epsilon: real, fp: FloatOps): (r: Result<Matrix>)
    requires IsMatrix(X)
    ensures IsEmpty(X) <==> r == Err(EmptyInput)
    ensures r.Ok? <==> !IsEmpty(X)
    ensures r.Ok? ==>
      var S := SqrtShifted(X, epsilon);
      SameShape(r.value, X) &&
      forall i, j :: 0 <= i < |X| && 0 <= j < |X[i]| ==> r.value[i][j] == fp.sqrt(S[i][j])
  {
    if IsEmpty(X) then Err(EmptyInput)
    else Ok(Apply(SqrtShifted(X, epsilon), fp.sqrt))
  }

  /** The keyword arguments `transform` forwards; None means not given. */
  datatype TransformArgs = TransformArgs(epsilon: Option<real>, base: Option<string>, lambdaVal: Option<real>)

  /** `transform`: lower-cases the method name; 'none' returns the matrix
      unchanged (even an empty one); the three methods are called with the
      given keywords, a keyword the method does not take being a TypeError;
      any other name is rejected with the lower-cased name. */
  function Transform(X: Matrix, name: string, args: TransformArgs, fp: FloatOps): (r: Result<Matrix>)
    requires IsMatrix(X)
    ensures Lower(name) == "none" ==> r == Ok(X)
    ensures Lower(name) !in {"none", "log", "glog", "sqrt"} ==> r == Err(UnknownMethod(Lower(name)))
    ensures Lower(name) == "log" && args.lambdaVal.None? ==>
      r == LogTransform(X, GetOr(args.epsilon, DefaultEpsilon), GetOr(args.base, "e"), fp)
    ensures Lower(name) == "glog" && args.base.None? ==>
      r == GlogTransform(X, GetOr(args.lambdaVal, DefaultLambda), GetOr(args.epsilon, DefaultEpsilon), fp)
    ensures Lower(name) == "sqrt" && args.base.None? && args.lambdaVal.None? ==>
      r == SqrtTransform(X, GetOr(args.epsilon, DefaultEpsilon), fp)
    ensures Lower(name) == "log" && args.lambdaVal.Some? ==> r == Err(UnexpectedArgument("lambda_val"))
    ensures Lower(name) == "glog" && args.base.Some? ==> r == Err(UnexpectedArgument("base"))
    ensures Lower(name) == "sqrt" && args.base.Some? ==> r == Err(UnexpectedArgument("base"))
    ensures Lower(name) == "sqrt" && args.base.None? && args.lambdaVal.Some? ==>
      r == Err(UnexpectedArgument("lambda_val"))
    ensures r.Err? && r.error.UnexpectedArgument? ==> Lower(name) in {"log", "glog", "sqrt"}
    ensures r.Ok? ==> SameShape(r.value, X)
    ensures r.Ok? && Lower(name) != "none" ==> !IsEmpty(X)
  {
    var m := Lower(name);
    if m == "none" then Ok(X)
    else if m == "log" then
      if args.lambdaVal.Some? then Err(UnexpectedArgument("lambda_val"))
      else LogTransform(X, GetOr(args.epsilon, DefaultEpsilon), GetOr(args.base, "e"), fp)
    else if m == "glog" then
      if args.base.Some? then Err(UnexpectedArgument("base"))
      else GlogTransform(X, GetOr(args.lambdaVal, DefaultLambda), GetOr(args.epsilon, DefaultEpsilon), fp)
    else if m == "sqrt" then
      if args.base.Some? then Err(UnexpectedArgument("base"))
      else if args.lambdaVal.Some? then Err(UnexpectedArgument("lambda_val"))
      else SqrtTransform(X, GetOr(args.epsilon, DefaultEpsilon), fp)
    else Err(UnknownMethod(m))
  }

  /** With the default parameters every method except 'none' runs on any non-empty matrix. */
  lemma DefaultsAccepted(X: Matrix, name: string, fp: FloatOps)
    requires IsMatrix(X) && !IsEmpty(X) && Lower(name) in {"log", "glog", "sqrt"}
    ensures Transform(X, name, TransformArgs(None, None, None), fp).Ok?
  {
    assert DefaultEpsilon > 0.0 && DefaultLambda > 0.0 && IsLogBase("e");
  }
}
