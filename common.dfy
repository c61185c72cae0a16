/** Shared vocabulary of the spectroscopy pipeline: results and error kinds,
    table cells, the floating-point operations the model leaves uninterpreted,
    matrices as sequences of rows, and sums over sequences. */
module Common {

  datatype Option<T> = None | Some(value: T)

  /** A keyword argument's value, or its default when it was not given. */
  function GetOr<T>(o: Option<T>, default: T): T
  {
    if o.Some? then o.value else default
  }

  /** The error kinds the pipeline raises; each constructor stands for one
      raise site (the Python code raises ValueError, TypeError, IndexError or
      IOError with the message the constructor names). */
  datatype Error =
    | EmptyInput                       // "La matriz de entrada está vacía"
    | InvalidParameter(name: string)   // epsilon / lambda_val / protons out of domain
    | UnsupportedBase(base: string)    // log base other than 'e', '2', '10'
    | UnknownMethod(name: string)      // dispatcher got an unrecognised method name
    | UnexpectedArgument(name: string) // keyword the selected method does not take (TypeError)
    | MissingArgument(name: string)    // required keyword not given (TypeError)
    | MissingAxis                      // internal_standard without the ppm vector
    | ShapeMismatch                    // len(ppm) differs from the column count
    | InvalidRange                     // ppm_min >= ppm_max
    | EmptyRange                       // no axis value inside [ppm_min, ppm_max]
    | IoError(path: string)            // load/save failure, wrapped with the path
    | UnsupportedFormat                // extension other than csv / txt
    | ReadFailed(path: string)         // the table reader itself raised
    | CastFailed                       // astype(float) met a non-numeric cell
    | NotLoaded                        // session field is None
    | LengthMismatch                   // pandas column / index length disagreement
    | IndexOutOfRange                  // a position past the end of a sequence (IndexError)
    | DivisionByZero                   // Python float division by 0.0 (ZeroDivisionError)
    | NoCalibration                    // neither an external nor an internal factor is set

  datatype Result<T> = Ok(value: T) | Err(error: Error)

  /** A table cell: a number, a string that float() rejects, or None. */
  datatype Cell = Num(v: real) | Text(s: string) | Null

  /** The floating-point operations the model does not interpret. `overZero(x)`
      is what an unguarded numpy division x / 0.0 yields (inf, -inf or nan),
      `round9` is rounding to 9 decimals and `fmt4` the ':.4f' formatting. */
  datatype FloatOps = FloatOps(
    ln: real -> real,
    log2: real -> real,
    log10: real -> real,
    sqrt: real -> real,
    overZero: real -> real,
    round9: real -> real,
    fmt4: real -> string,
    nan: real)

  /** The laws of the real square root, assumed of `sqrt` by the lemmas that need them. */
  ghost predicate SqrtSound(sqrt: real -> real)
  {
    && sqrt(0.0) == 0.0
    && forall y :: 0.0 <= y ==> 0.0 <= sqrt(y) && sqrt(y) * sqrt(y) == y
  }

  /** Numpy division: exact when the divisor is non-zero, otherwise the IEEE result. */
  function Div(fp: FloatOps, a: real, b: real): (r: real)
    ensures b != 0.0 ==> r * b == a
    ensures b == 0.0 ==> r == fp.overZero(a)
  {
    if b != 0.0 then a / b else fp.overZero(a)
  }

  /** A numpy 2-D array: every row has the width of the first. */
  type Matrix = seq<seq<real>>

  predicate IsMatrix(X: Matrix)
  {
    forall i :: 0 <= i < |X| ==> |X[i]| == |X[0]|
  }

  function Cols(X: Matrix): nat
  {
    if |X| == 0 then 0 else |X[0]|
  }

  /** `X.size == 0`. */
  predicate IsEmpty(X: Matrix)
  {
    |X| == 0 || |X[0]| == 0
  }

  predicate SameShape(X: Matrix, Y: Matrix)
  {
    |X| == |Y| && forall i :: 0 <= i < |X| ==> |X[i]| == |Y[i]|
  }

  function Column(X: Matrix, j: nat): (c: seq<real>)
    requires IsMatrix(X) && j < Cols(X)
    ensures |c| == |X| && forall i :: 0 <= i < |X| ==> c[i] == X[i][j]
  {
    seq(|X|, i requires 0 <= i < |X| => X[i][j])
  }

  /** Sum of a sequence, folded from the left (with exact reals the order does not matter). */
  function Sum(s: seq<real>): real
  {
    if |s| == 0 then 0.0 else Sum(s[..|s| - 1]) + s[|s| - 1]
  }

  lemma {:induction false} SumConcat(a: seq<real>, b: seq<real>)
    ensures Sum(a + b) == Sum(a) + Sum(b)
  {
    if |b| == 0 {
      assert a + b == a;
    } else {
      assert (a + b)[..|a + b| - 1] == a + b[..|b| - 1];
      SumConcat(a, b[..|b| - 1]);
    }
  }

  /** Sum of x[k] * c + d over the sequence. */
  lemma {:induction false} SumAffine(x: seq<real>, y: seq<real>, c: real, d: real)
    requires |x| == |y|
    requires forall k :: 0 <= k < |x| ==> y[k] == x[k] * c + d
    ensures Sum(y) == Sum(x) * c + (|x| as real) * d
  {
    if |x| > 0 {
      var n := |x| - 1;
      SumAffine(x[..n], y[..n], c, d);
    }
  }

  lemma {:induction false} SumScaled(x: seq<real>, y: seq<real>, c: real)
    requires |x| == |y|
    requires forall k :: 0 <= k < |x| ==> y[k] == x[k] * c
    ensures Sum(y) == Sum(x) * c
  {
    if |x| > 0 {
      var n := |x| - 1;
      SumScaled(x[..n], y[..n], c);
      Distribute(Sum(x[..n]), x[n], c);
    }
  }

  lemma Distribute(a: real, b: real, c: real)
    ensures (a + b) * c == a * c + b * c
  {
  }

  lemma {:induction false} SumConst(s: seq<real>, c: real)
    requires forall k :: 0 <= k < |s| ==> s[k] == c
    ensures Sum(s) == (|s| as real) * c
  {
    if |s| > 0 {
      SumConst(s[..|s| - 1], c);
    }
  }

  lemma {:induction false} SumNonNeg(s: seq<real>)
    requires forall k :: 0 <= k < |s| ==> 0.0 <= s[k]
    ensures 0.0 <= Sum(s)
  {
    if |s| > 0 {
      SumNonNeg(s[..|s| - 1]);
    }
  }

  /** A sum that is positive has a positive term. */
  lemma {:induction false} PositiveSumHasPositiveTerm(s: seq<real>) returns (k: nat)
    requires Sum(s) > 0.0
    ensures k < |s| && s[k] > 0.0
  {
    if s[|s| - 1] > 0.0 {
      k := |s| - 1;
    } else {
      k := PositiveSumHasPositiveTerm(s[..|s| - 1]);
    }
  }

  /** Sum of the squares, the quantity under numpy's Euclidean norm. */
  function SumSquares(s: seq<real>): (r: real)
    ensures r >= 0.0
  {
    if |s| == 0 then 0.0 else SumSquares(s[..|s| - 1]) + s[|s| - 1] * s[|s| - 1]
  }

  lemma {:induction false} SumSquaresScaled(x: seq<real>, y: seq<real>, d: real)
    requires d != 0.0 && |x| == |y|
    requires forall k :: 0 <= k < |x| ==> y[k] == x[k] / d
    ensures SumSquares(y) * (d * d) == SumSquares(x)
  {
    if |x| > 0 {
      var n := |x| - 1;
      SumSquaresScaled(x[..n], y[..n], d);
      var a, v := SumSquares(y[..n]), y[n];
      DivTimes(x[n], d);
      ProductScaled(v, v, d, x[n], x[n]);
      Distribute(a, v * v, d * d);
      assert SumSquares(y) == a + v * v;
      assert SumSquares(x) == SumSquares(x[..n]) + x[n] * x[n];
    }
  }

  lemma DivTimes(a: real, d: real)
    requires d != 0.0
    ensures (a / d) * d == a
  {
  }

  lemma ProductScaled(a: real, b: real, d: real, p: real, q: real)
    requires a * d == p && b * d == q
    ensures (a * b) * (d * d) == p * q
  {
  }

  /** Sum of y when every y[k] is x[k] / d. */
  lemma {:induction false} SumDivided(x: seq<real>, y: seq<real>, d: real)
    requires d != 0.0 && |x| == |y|
    requires forall k :: 0 <= k < |x| ==> y[k] == x[k] / d
    ensures Sum(y) * d == Sum(x)
  {
    if |x| > 0 {
      var n := |x| - 1;
      SumDivided(x[..n], y[..n], d);
      assert y[n] * d == x[n];
      calc {
        Sum(y) * d;
        (Sum(y[..n]) + y[n]) * d;
        Sum(y[..n]) * d + y[n] * d;
        Sum(x);
      }
    }
  }

  lemma DivSelf(x: real)
    requires x != 0.0
    ensures x / x == 1.0
  {
  }

  lemma DivOne(x: real)
    ensures x / 1.0 == x
  {
  }

  /** a * d == s with d == s non-zero forces a == 1. */
  lemma UnitFactor(a: real, d: real, s: real)
    requires s != 0.0 && a * d == s && d == s
    ensures a == 1.0
  {
    MulDivCancel(a, d);
    DivSelf(d);
  }

  lemma MulDivCancel(a: real, d: real)
    requires d != 0.0
    ensures (a * d) / d == a
  {
  }

  /** a * d == 0 with d non-zero forces a == 0. */
  lemma ZeroFactor(a: real, d: real)
    requires d != 0.0 && a * d == 0.0
    ensures a == 0.0
  {
    MulDivCancel(a, d);
  }

  lemma ProductPositive(a: real, b: real)
    requires a > 0.0 && b > 0.0
    ensures a * b > 0.0
  {
  }

  /** Smallest and largest entry of a non-empty sequence. */
  function SeqMin(s: seq<real>): (m: real)
    requires |s| > 0
    ensures forall k :: 0 <= k < |s| ==> m <= s[k]
    ensures exists k :: 0 <= k < |s| && s[k] == m
  {
    if |s| == 1 then s[0]
    else
      var m' := SeqMin(s[..|s| - 1]);
      assert forall k :: 0 <= k < |s| - 1 ==> s[..|s| - 1][k] == s[k];
      if s[|s| - 1] < m' then s[|s| - 1] else m'
  }

  function SeqMax(s: seq<real>): (m: real)
    requires |s| > 0
    ensures forall k :: 0 <= k < |s| ==> s[k] <= m
    ensures exists k :: 0 <= k < |s| && s[k] == m
  {
    if |s| == 1 then s[0]
    else
      var m' := SeqMax(s[..|s| - 1]);
      assert forall k :: 0 <= k < |s| - 1 ==> s[..|s| - 1][k] == s[k];
      if s[|s| - 1] > m' then s[|s| - 1] else m'
  }

  /** numpy's slice `s[lo:hi + 1]` for 0 <= lo: the bounds are clamped to the length. */
  function Slice<T>(s: seq<T>, lo: nat, hi: nat): (r: seq<T>)
    ensures |s| <= lo ==> r == []
    ensures hi < |s| && lo <= hi ==> r == s[lo..hi + 1]
    ensures lo < |s| <= hi + 1 ==> r == s[lo..]
    ensures hi < lo ==> r == []
  {
    var a := if lo < |s| then lo else |s|;
    var b := if hi + 1 < |s| then hi + 1 else |s|;
    if a <= b then s[a..b] else []
  }

  /** ASCII lower-casing, standing for str.lower(). */
  function Lower(s: string): (r: string)
    ensures |r| == |s|
    ensures forall k :: 0 <= k < |s| ==> r[k] == LowerChar(s[k])
  {
    seq(|s|, k requires 0 <= k < |s| => LowerChar(s[k]))
  }

  function LowerChar(c: char): char
  {
    if 'A' <= c <= 'Z' then (c as int + 32) as char else c
  }
}
