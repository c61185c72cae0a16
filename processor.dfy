/** The integration session (src/suite/core/processor.py): one loaded
    spectrum table, the per-sample totals derived from it, and a table of
    region integrals that accumulates across calls (and across loads) until
    the session is reset. The table reader is not modelled: a read file is
    the grid of cells the reader yields, or None when it raises. */
module Processor {
  import opened Common
  import Handler

  /** What `read_csv(header=None)` yields: a rectangular grid of cells. */
  type Grid = seq<seq<Cell>>

  predicate IsGrid(g: Grid)
  {
    forall r :: 0 <= r < |g| ==> |g[r]| == |g[0]|
  }

  /** `DataFrame.T`: row c of the transpose is column c of the grid. */
  function Transpose(g: Grid): (t: Grid)
    requires IsGrid(g) && |g| > 0
    ensures |t| == |g[0]| && IsGrid(t)
    ensures forall c :: 0 <= c < |t| ==> |t[c]| == |g|
    ensures forall c, r :: 0 <= c < |t| && 0 <= r < |g| ==> t[c][r] == g[r][c]
  {
    seq(|g[0]|, c requires 0 <= c < |g[0]| => seq(|g|, r requires 0 <= r < |g| => g[r][c]))
  }

  /** Transposing twice gives the grid back. */
  lemma TransposeTwice(g: Grid)
    requires IsGrid(g) && |g| > 0 && |g[0]| > 0
    ensures Transpose(Transpose(g)) == g
  {
    var t := Transpose(g);
    var tt := Transpose(t);
    assert |tt| == |g|;
    forall r | 0 <= r < |g|
      ensures tt[r] == g[r]
    {
      assert |tt[r]| == |g[r]|;
      forall c | 0 <= c < |g[r]|
        ensures tt[r][c] == g[r][c]
      {
        assert tt[r][c] == t[c][r];
      }
    }
  }

  /** `path.split('.')[-1].lower()`: the lower-cased text after the last dot,
      or the whole lower-cased path when it has no dot. */
  function Extension(path: string): (e: string)
    ensures '.' !in path ==> e == Lower(path)
    ensures '.' in path ==> exists k :: 0 <= k < |path| && path[k] == '.' && e == Lower(path[k + 1..])
    ensures forall k :: 0 <= k < |e| ==> e[k] != '.'
  {
    var k := Handler.RFind(path, '.');
    if k < 0 then
      assert forall j :: 0 <= j < |path| ==> path[j] != '.';
      Lower(path)
    else
      var tail := path[k + 1..];
      assert forall j :: 0 <= j < |tail| ==> tail[j] == path[k + 1 + j];
      Lower(tail)
  }

  /** `load_file` reads csv and txt (in any letter case) and nothing else. */
  predicate Supported(path: string)
  {
    Extension(path) == "csv" || Extension(path) == "txt"
  }

  /** A name, a dot and a dot-free extension: the extension is what is read. */
  lemma ExtensionOfName(stem: string, ext: string)
    requires '.' !in ext
    ensures Extension(stem + "." + ext) == Lower(ext)
  {
    Handler.RFindAppend(stem + ".", ext, '.');
    Handler.RFindAppend(stem, ".", '.');
    var path := stem + "." + ext;
    assert path[|stem| + 1..] == ext;
  }

  /** Upper-case extensions are accepted too. */
  lemma UpperCaseCsvSupported(stem: string)
    ensures Supported(stem + ".CSV")
  {
    var path := stem + ".CSV";
    assert path == stem + "." + "CSV";
    ExtensionOfName(stem, "CSV");
    LowerCsv();
    assert Extension(path) == "csv";
  }

  lemma LowerCsv()
    ensures Lower("CSV") == "csv"
  {
    assert LowerChar('C') == 'c' && LowerChar('S') == 's' && LowerChar('V') == 'v';
  }

  /** `astype(float)` on a row: every cell must be a number. */
  function CastRow(cs: seq<Cell>): (r: Option<seq<real>>)
    ensures r.Some? <==> forall k :: 0 <= k < |cs| ==> cs[k].Num?
    ensures r.Some? ==> |r.value| == |cs| && forall k :: 0 <= k < |cs| ==> r.value[k] == cs[k].v
  {
    if forall k :: 0 <= k < |cs| ==> cs[k].Num? then Some(seq(|cs|, k requires 0 <= k < |cs| => cs[k].v))
    else None
  }

  /** `astype(float)` on a block of rows. */
  function CastRows(g: Grid): (r: Option<Matrix>)
    ensures r.Some? <==> forall s, p :: 0 <= s < |g| && 0 <= p < |g[s]| ==> g[s][p].Num?
    ensures r.Some? ==> SameShapeCells(r.value, g)
    ensures r.Some? ==> forall s, p :: 0 <= s < |g| && 0 <= p < |g[s]| ==> r.value[s][p] == g[s][p].v
  {
    if forall s, p :: 0 <= s < |g| && 0 <= p < |g[s]| ==> g[s][p].Num? then
      Some(seq(|g|, s requires 0 <= s < |g| => seq(|g[s]|, p requires 0 <= p < |g[s]| => g[s][p].v)))
    else None
  }

  predicate SameShapeCells(X: Matrix, g: Grid)
  {
    |X| == |g| && forall s :: 0 <= s < |g| ==> |X[s]| == |g[s]|
  }

  /** `df.iloc[0, 1:]`, `df.iloc[1:, 1:]` and `df.iloc[1:, 0]` of the transposed table. */
  function AxisCells(t: Grid): seq<Cell>
    requires |t| > 0 && |t[0]| > 0
  {
    t[0][1..]
  }

  function BodyCells(t: Grid): (b: Grid)
    requires IsGrid(t) && |t| > 0 && |t[0]| > 0
    ensures |b| == |t| - 1 && IsGrid(b)
    ensures forall s :: 0 <= s < |b| ==> |b[s]| == |t[0]| - 1
  {
    seq(|t| - 1, s requires 0 <= s < |t| - 1 => t[s + 1][1..])
  }

  function NameCells(t: Grid): (n: seq<Cell>)
    requires IsGrid(t) && |t| > 0 && |t[0]| > 0
    ensures |n| == |t| - 1
  {
    seq(|t| - 1, s requires 0 <= s < |t| - 1 => t[s + 1][0])
  }

  /** After the transpose, the axis is column 0 of the read grid below its first row. */
  lemma AxisOfTranspose(g: Grid)
    requires IsGrid(g) && |g| > 0 && |g[0]| > 0
    ensures var xs := CastRow(AxisCells(Transpose(g)));
      && (xs.Some? <==> forall p :: 1 <= p < |g| ==> g[p][0].Num?)
      && (xs.Some? ==> |xs.value| == |g| - 1 && forall p :: 0 <= p < |g| - 1 ==> xs.value[p] == g[p + 1][0].v)
  {
    var t := Transpose(g);
    var a := AxisCells(t);
    assert forall p :: 0 <= p < |a| ==> a[p] == g[p + 1][0];
    if forall p :: 1 <= p < |g| ==> g[p][0].Num? {
      assert forall p :: 0 <= p < |a| ==> a[p].Num?;
    } else {
      var p :| 1 <= p < |g| && !g[p][0].Num?;
      assert !a[p - 1].Num?;
    }
  }

  /** After the transpose, sample s at point p is the read grid's cell at row
      p + 1, column s + 1. */
  lemma BodyOfTranspose(g: Grid)
    requires IsGrid(g) && |g| > 0 && |g[0]| > 0
    ensures var ys := CastRows(BodyCells(Transpose(g)));
      && (ys.Some? <==> forall p, s :: 1 <= p < |g| && 1 <= s < |g[0]| ==> g[p][s].Num?)
      && (ys.Some? ==>
            && |ys.value| == |g[0]| - 1
            && (forall s :: 0 <= s < |g[0]| - 1 ==> |ys.value[s]| == |g| - 1)
            && (forall s, p :: 0 <= s < |g[0]| - 1 && 0 <= p < |g| - 1 ==> ys.value[s][p] == g[p + 1][s + 1].v))
  {
    var b: Grid := BodyCells(Transpose(g));
    BodyCellsOfTranspose(g);
    if forall p, s :: 1 <= p < |g| && 1 <= s < |g[0]| ==> g[p][s].Num? {
      assert forall s, p :: 0 <= s < |b| && 0 <= p < |b[s]| ==> b[s][p].Num?;
    } else {
      var p, s :| 1 <= p < |g| && 1 <= s < |g[0]| && !g[p][s].Num?;
      assert !b[s - 1][p - 1].Num?;
    }
  }

  /** The body cells of the transpose, cell by cell. */
  lemma BodyCellsOfTranspose(g: Grid)
    requires IsGrid(g) && |g| > 0 && |g[0]| > 0
    ensures var b := BodyCells(Transpose(g));
      && |b| == |g[0]| - 1 && (forall s :: 0 <= s < |b| ==> |b[s]| == |g| - 1)
      && forall s, p :: 0 <= s < |b| && 0 <= p < |b[s]| ==> b[s][p] == g[p + 1][s + 1]
  {
    var t := Transpose(g);
    var b := BodyCells(t);
    assert forall s :: 0 <= s < |b| ==> b[s] == t[s + 1][1..];
  }

  /** After the transpose, the sample names are the read grid's first row from column 1 on. */
  lemma NamesOfTranspose(g: Grid)
    requires IsGrid(g) && |g| > 0 && |g[0]| > 0
    ensures NameCells(Transpose(g)) == g[0][1..]
  {
    var n := NameCells(Transpose(g));
    assert forall s :: 0 <= s < |n| ==> n[s] == g[0][s + 1];
  }

  /** `np.mean(val_y, axis=0)`: the mean over the samples at every point. */
  function ColumnMeans(Y: Matrix, fp: FloatOps): (m: seq<real>)
    requires IsMatrix(Y)
    ensures |m| == Cols(Y)
    ensures forall j :: 0 <= j < |m| ==> m[j] == Div(fp, Sum(Column(Y, j)), |Y| as real)
  {
    seq(Cols(Y), j requires 0 <= j < Cols(Y) => Div(fp, Sum(Column(Y, j)), |Y| as real))
  }

  /** `np.sum(val_y, axis=1)`: every sample's sum over the whole axis. */
  function RowTotals(Y: Matrix): (t: seq<real>)
    ensures |t| == |Y| && forall s :: 0 <= s < |Y| ==> t[s] == Sum(Y[s])
  {
    seq(|Y|, s requires 0 <= s < |Y| => Sum(Y[s]))
  }

  // ---------------------------------------------------------------- region sums

  /** The two column indices in increasing order (`sorted([x1, x2])`). */
  function Ordered(x1: nat, x2: nat): (p: (nat, nat))
    ensures p.0 <= p.1
    ensures (p.0 == x1 && p.1 == x2) || (p.0 == x2 && p.1 == x1)
  {
    if x1 <= x2 then (x1, x2) else (x2, x1)
  }

  /** `np.sum(val_y[:, lo:hi + 1], axis=1)`. */
  function RegionSums(Y: Matrix, lo: nat, hi: nat): (v: seq<real>)
    ensures |v| == |Y|
    ensures forall s :: 0 <= s < |Y| ==> v[s] == Sum(Slice(Y[s], lo, hi))
  {
    seq(|Y|, s requires 0 <= s < |Y| => Sum(Slice(Y[s], lo, hi)))
  }

  /** The region sums do not depend on the order the two boundaries are given in. */
  lemma RegionSumsSymmetric(Y: Matrix, x1: nat, x2: nat)
    ensures RegionSums(Y, Ordered(x1, x2).0, Ordered(x1, x2).1) == RegionSums(Y, Ordered(x2, x1).0, Ordered(x2, x1).1)
  {
  }

  /** The region spanning the whole axis integrates to the sample's total. */
  lemma FullRegionIsTotal(Y: Matrix, s: nat)
    requires IsMatrix(Y) && s < |Y| && Cols(Y) > 0
    ensures RegionSums(Y, 0, Cols(Y) - 1)[s] == RowTotals(Y)[s]
  {
    assert Slice(Y[s], 0, Cols(Y) - 1) == Y[s];
  }

  /** Two adjacent regions integrate to the region that joins them. */
  lemma AdjacentRegionsAdd(row: seq<real>, a: nat, b: nat, c: nat)
    requires a <= b < c < |row|
    ensures Sum(Slice(row, a, b)) + Sum(Slice(row, b + 1, c)) == Sum(Slice(row, a, c))
  {
    assert Slice(row, a, c) == Slice(row, a, b) + Slice(row, b + 1, c);
    SumConcat(Slice(row, a, b), Slice(row, b + 1, c));
  }

  // ---------------------------------------------------------------- integral table

  /** The integral table: a column of per-sample sums per region name, the
      rows indexed by the sample names of the load that last wrote to it. */
  datatype IntegralTable = IntegralTable(index: seq<Cell>, labels: seq<string>, columns: seq<seq<real>>)
  {
    /** Labels are unique and every column has one value per index entry;
        the table has no index before its first column. */
    predicate Valid()
    {
      && |labels| == |columns|
      && (|labels| == 0 ==> |index| == 0)
      && (forall c :: 0 <= c < |columns| ==> |columns[c]| == |index|)
      && (forall c, d :: 0 <= c < d < |labels| ==> labels[c] != labels[d])
    }

    /** `DataFrame.empty`: no columns or no rows. */
    predicate IsEmpty()
    {
      |labels| == 0 || |index| == 0
    }
  }

  const EmptyTable: IntegralTable := IntegralTable([], [], [])

  /** Position of a name in the table, -1 when absent. */
  function LabelIndex(labels: seq<string>, l: string): (k: int)
    ensures -1 <= k < |labels|
    ensures k >= 0 ==> labels[k] == l
    ensures k < 0 <==> l !in labels
  {
    if |labels| == 0 then -1
    else if labels[|labels| - 1] == l then |labels| - 1
    else LabelIndex(labels[..|labels| - 1], l)
  }

  /** A column of n missing values (NaN). */
  function MissingColumn(nan: real, n: nat): (col: seq<real>)
    ensures |col| == n && forall s :: 0 <= s < n ==> col[s] == nan
  {
    seq(n, s requires 0 <= s < n => nan)
  }

  /** The columns as pandas leaves them when a column of length n is assigned:
      unchanged when the table already has n rows; otherwise the table has no
      rows, takes its index from the new column, and every old column is
      reindexed to n missing values. */
  function Reindexed(t: IntegralTable, n: nat, nan: real): (cols: seq<seq<real>>)
    requires t.Valid() && (|t.index| == n || |t.index| == 0)
    ensures |cols| == |t.columns| && forall c :: 0 <= c < |cols| ==> |cols[c]| == n
    ensures |t.index| == n ==> cols == t.columns
    ensures |t.index| != n ==> forall c :: 0 <= c < |cols| ==> cols[c] == MissingColumn(nan, n)
  {
    if |t.index| == n then t.columns
    else
      var cols := seq(|t.columns|, c requires 0 <= c < |t.columns| => MissingColumn(nan, n));
      assert forall c :: 0 <= c < |cols| ==> cols[c] == MissingColumn(nan, n) && |cols[c]| == n;
      cols
  }

  /** `table[name] = values` followed by `table.index = index`: a table with
      rows refuses a column of another length; a table without rows takes the
      column's length, its old columns filled with NaN; an existing name has
      its column overwritten in place, a new one is appended. */
  function SetColumn(t: IntegralTable, name: string, values: seq<real>, index: seq<Cell>, nan: real): (r: Result<IntegralTable>)
    requires t.Valid() && |index| == |values|
    ensures r.Err? <==> |t.index| > 0 && |values| != |t.index|
    ensures r.Err? ==> r.error == LengthMismatch
    ensures r.Ok? ==>
      var u := r.value;
      && u.Valid() && u.index == index
      && (name in t.labels ==> u.labels == t.labels)
      && (name !in t.labels ==> u.labels == t.labels + [name])
      && (forall c :: 0 <= c < |u.labels| ==> (u.labels[c] == name ==> u.columns[c] == values))
      && (forall c :: 0 <= c < |t.labels| && t.labels[c] != name && |t.index| == |values| ==>
            u.columns[c] == t.columns[c])
      && (forall c :: 0 <= c < |t.labels| && t.labels[c] != name && |t.index| != |values| ==>
            u.columns[c] == MissingColumn(nan, |values|))
  {
    if |t.index| > 0 && |values| != |t.index| then Err(LengthMismatch)
    else
      var cols := Reindexed(t, |values|, nan);
      var k := LabelIndex(t.labels, name);
      if k >= 0 then Ok(IntegralTable(index, t.labels, cols[k := values]))
      else Ok(IntegralTable(index, t.labels + [name], cols + [values]))
  }

  /** A table with a column but no rows (left by integrating a file without
      samples) accepts a two-sample column: the old column becomes NaN. */
  lemma SetColumnOnRowlessTable(nan: real)
    ensures var t := IntegralTable([], ["r"], [[]]);
      SetColumn(t, "s", [1.0, 2.0], [Text("a"), Text("b")], nan)
        == Ok(IntegralTable([Text("a"), Text("b")], ["r", "s"], [[nan, nan], [1.0, 2.0]]))
  {
    var t := IntegralTable([], ["r"], [[]]);
    assert LabelIndex(["r"], "s") == -1;
    assert MissingColumn(nan, 2) == [nan, nan];
    assert t.Valid();
    var cols := Reindexed(t, 2, nan);
    assert |cols| == 1 && cols[0] == MissingColumn(nan, 2);
    assert cols == [[nan, nan]];
    assert ["r"] + ["s"] == ["r", "s"];
    assert cols + [[1.0, 2.0]] == [[nan, nan], [1.0, 2.0]];
  }

  /** The name of a region: both boundary axis values in ':.4f' and " - " between them. */
  function RegionLabel(fp: FloatOps, left: real, right: real): string
  {
    fp.fmt4(left) + " - " + fp.fmt4(right)
  }

  /** Every column divided elementwise by the totals and rounded to 9 decimals. */
  function RelativeTable(t: IntegralTable, totals: seq<real>, fp: FloatOps): (u: IntegralTable)
    requires t.Valid() && |t.index| == |totals|
    ensures u.Valid() && u.index == t.index && u.labels == t.labels
    ensures forall c, s :: 0 <= c < |u.columns| && 0 <= s < |totals| ==>
      |u.columns[c]| == |totals| && u.columns[c][s] == fp.round9(Div(fp, t.columns[c][s], totals[s]))
  {
    IntegralTable(t.index, t.labels, seq(|t.columns|, c requires 0 <= c < |t.columns| => RelativeColumn(t.columns[c], totals, fp)))
  }

  function RelativeColumn(col: seq<real>, totals: seq<real>, fp: FloatOps): (r: seq<real>)
    requires |col| == |totals|
    ensures |r| == |col| && forall s :: 0 <= s < |col| ==> r[s] == fp.round9(Div(fp, col[s], totals[s]))
  {
    seq(|col|, s requires 0 <= s < |col| => fp.round9(Div(fp, col[s], totals[s])))
  }

  /** A region spanning the whole axis has relative integral round9(1)
      in every sample whose total is not zero. */
  lemma FullRegionRelative(Y: Matrix, fp: FloatOps, s: nat)
    requires IsMatrix(Y) && s < |Y| && Cols(Y) > 0 && Sum(Y[s]) != 0.0
    ensures RelativeColumn(RegionSums(Y, 0, Cols(Y) - 1), RowTotals(Y), fp)[s] == fp.round9(1.0)
  {
    FullRegionIsTotal(Y, s);
    DivSelf(Sum(Y[s]));
  }

  // ---------------------------------------------------------------- display curve

  /** `np.cumsum`: entry k is the sum of the first k + 1 entries. */
  function CumSum(s: seq<real>): (c: seq<real>)
    ensures |c| == |s|
  {
    seq(|s|, k requires 0 <= k < |s| => Sum(s[..k + 1]))
  }

  /** The first partial sum is the first entry. */
  lemma CumSumFirst(s: seq<real>)
    requires |s| > 0
    ensures CumSum(s)[0] == s[0]
  {
    var one := s[..1];
    assert one[..0] == [];
    assert Sum(one) == Sum(one[..0]) + one[0];
  }

  /** The last partial sum is the sum of the whole sequence. */
  lemma CumSumTotal(s: seq<real>)
    requires |s| > 0
    ensures CumSum(s)[|s| - 1] == Sum(s)
  {
    assert s[..|s|] == s;
  }

  /** Each partial sum adds the next entry to the previous one. */
  lemma CumSumStep(s: seq<real>, k: nat)
    requires 0 < k < |s|
    ensures CumSum(s)[k] == CumSum(s)[k - 1] + s[k]
  {
    assert s[..k + 1][..k] == s[..k];
  }

  /** The largest entry of a non-empty matrix (`np.max(region, axis=0).max()`). */
  function MatrixMax(X: Matrix): (m: real)
    requires IsMatrix(X) && !IsEmpty(X)
    ensures forall i, j :: 0 <= i < |X| && 0 <= j < |X[i]| ==> X[i][j] <= m
    ensures exists i, j :: 0 <= i < |X| && 0 <= j < |X[i]| && X[i][j] == m
  {
    var rowMaxes := seq(|X|, i requires 0 <= i < |X| => SeqMax(X[i]));
    var m := SeqMax(rowMaxes);
    assert forall i, j :: 0 <= i < |X| && 0 <= j < |X[i]| ==> X[i][j] <= rowMaxes[i] <= m;
    var k :| 0 <= k < |rowMaxes| && rowMaxes[k] == m;
    var j :| 0 <= j < |X[k]| && X[k][j] == rowMaxes[k];
    m
  }

  /** The columns lo..hi of every row, clamped to the width. */
  function Region(Y: Matrix, lo: nat, hi: nat): (R: Matrix)
    requires IsMatrix(Y)
    ensures |R| == |Y| && IsMatrix(R)
    ensures forall s :: 0 <= s < |Y| ==> R[s] == Slice(Y[s], lo, hi)
  {
    seq(|Y|, s requires 0 <= s < |Y| => Slice(Y[s], lo, hi))
  }

  /** The curve drawn over a region: the cumulative mean spectrum rescaled so
      that its maximum is the region's largest intensity, or all zeros when
      the cumulative sum has no positive maximum. */
  function DisplayCurve(prom: seq<real>, R: Matrix): (y: seq<real>)
    requires IsMatrix(R) && (|prom| > 0 ==> !IsEmpty(R))
    ensures |y| == |prom|
    ensures !(|prom| > 0 && SeqMax(CumSum(prom)) > 0.0) ==> forall k :: 0 <= k < |y| ==> y[k] == 0.0
  {
    var cum := CumSum(prom);
    if |cum| > 0 && SeqMax(cum) > 0.0 then
      Rescaled(cum, SeqMax(cum), MatrixMax(R))
    else
      seq(|cum|, k requires 0 <= k < |cum| => 0.0)
  }

  /** Every entry of `cum` divided by `top` and multiplied by `peak`. */
  function Rescaled(cum: seq<real>, top: real, peak: real): (y: seq<real>)
    requires top != 0.0
    ensures |y| == |cum| && forall k :: 0 <= k < |cum| ==> y[k] == cum[k] / top * peak
  {
    seq(|cum|, k requires 0 <= k < |cum| => cum[k] / top * peak)
  }

  /** When the cumulative sum has a positive maximum the curve reaches the region's peak. */
  lemma DisplayCurveReachesPeak(prom: seq<real>, R: Matrix)
    requires IsMatrix(R) && |prom| > 0 && !IsEmpty(R) && SeqMax(CumSum(prom)) > 0.0
    ensures exists k :: 0 <= k < |prom| && DisplayCurve(prom, R)[k] == MatrixMax(R)
  {
    var cum := CumSum(prom);
    var top := SeqMax(cum);
    DisplayCurveRescaled(prom, R);
    var k :| 0 <= k < |cum| && cum[k] == top;
    RescaledAtTop(cum, top, MatrixMax(R), k);
  }

  /** ... and it stays at or below a peak that is not negative. */
  lemma DisplayCurveBelowPeak(prom: seq<real>, R: Matrix, k: nat)
    requires IsMatrix(R) && |prom| > 0 && !IsEmpty(R) && SeqMax(CumSum(prom)) > 0.0
    requires k < |prom| && MatrixMax(R) >= 0.0
    ensures DisplayCurve(prom, R)[k] <= MatrixMax(R)
  {
    var cum := CumSum(prom);
    DisplayCurveRescaled(prom, R);
    RescaledBelowPeak(cum, SeqMax(cum), MatrixMax(R), k);
  }

  lemma DisplayCurveRescaled(prom: seq<real>, R: Matrix)
    requires IsMatrix(R) && |prom| > 0 && !IsEmpty(R) && SeqMax(CumSum(prom)) > 0.0
    ensures DisplayCurve(prom, R) == Rescaled(CumSum(prom), SeqMax(CumSum(prom)), MatrixMax(R))
  {
  }

  lemma RescaledAtTop(cum: seq<real>, top: real, peak: real, k: nat)
    requires k < |cum| && cum[k] == top && top != 0.0
    ensures Rescaled(cum, top, peak)[k] == peak
  {
    UnitTimes(cum[k], top, peak);
  }

  lemma RescaledBelowPeak(cum: seq<real>, top: real, peak: real, k: nat)
    requires k < |cum| && cum[k] <= top && top > 0.0 && peak >= 0.0
    ensures Rescaled(cum, top, peak)[k] <= peak
  {
    ScaledBelow(cum[k], top, peak);
  }

  lemma UnitTimes(c: real, top: real, peak: real)
    requires c == top && top != 0.0
    ensures c / top * peak == peak
  {
    DivSelf(top);
  }

  lemma ScaledBelow(c: real, top: real, peak: real)
    requires c <= top && top > 0.0 && peak >= 0.0
    ensures c / top * peak <= peak
  {
    QuotientAtMostOne(c, top);
    ProductAtMost(c / top, peak);
  }

  lemma QuotientAtMostOne(c: real, top: real)
    requires c <= top && top > 0.0
    ensures c / top <= 1.0
  {
    DivSelf(top);
  }

  lemma ProductAtMost(q: real, p: real)
    requires q <= 1.0 && p >= 0.0
    ensures q * p <= p
  {
  }

  // ---------------------------------------------------------------- results

  /** What `calculate_integral` returns besides updating the table. */
  datatype IntegralResult = IntegralResult(left: real, right: real, axis: seq<real>, curve: seq<real>)

  /** What `get_plot_data` returns. */
  datatype PlotData = PlotData(axis: seq<real>, meanSpectrum: Option<seq<real>>, limInf: real, limSup: real)

  /** What `get_integrales_totales` returns: the totals indexed by sample name. */
  datatype TotalsSeries = TotalsSeries(index: seq<Cell>, values: seq<real>)

  /** One `calculate_integral` call on a loaded session: the columns are
      ordered; a boundary past the axis fails when the label is built; the
      region sums go into the table under the label, which fails when the
      table already has rows and another row count; the result holds the boundary
      axis values, the axis over the region and the display curve. */
  function Integrate(t: IntegralTable, X: seq<real>, Y: Matrix, names: seq<Cell>, prom: seq<real>,
                     fp: FloatOps, x1: nat, x2: nat): (o: Result<(IntegralTable, IntegralResult)>)
    requires t.Valid() && IsMatrix(Y) && |names| == |Y| && prom == ColumnMeans(Y, fp)
    ensures Ordered(x1, x2).1 >= |X| ==> o == Err(IndexOutOfRange)
    ensures Ordered(x1, x2).1 < |X| ==>
      var lo, hi := Ordered(x1, x2).0, Ordered(x1, x2).1;
      var upd := SetColumn(t, RegionLabel(fp, X[lo], X[hi]), RegionSums(Y, lo, hi), names, fp.nan);
      && (upd.Err? ==> o == Err(LengthMismatch))
      && (upd.Ok? ==> o.Ok? && o.value.0 == upd.value)
    ensures o.Ok? ==>
      var lo, hi := Ordered(x1, x2).0, Ordered(x1, x2).1;
      var res := o.value.1;
      && hi < |X| && res.left == X[lo] && res.right == X[hi]
      && |res.axis| == hi - lo + 1 && (forall k :: 0 <= k <= hi - lo ==> res.axis[k] == X[lo + k])
      && res.curve == RegionCurve(Y, prom, fp, lo, hi)
  {
    var (lo, hi) := Ordered(x1, x2);
    if hi >= |X| then Err(IndexOutOfRange)
    else
      var name := RegionLabel(fp, X[lo], X[hi]);
      var upd := SetColumn(t, name, RegionSums(Y, lo, hi), names, fp.nan);
      if upd.Err? then Err(LengthMismatch)
      else Ok((upd.value, RegionResult(X, Y, prom, fp, lo, hi)))
  }

  /** The boundary axis values, the axis over the region and its display curve. */
  function RegionResult(X: seq<real>, Y: Matrix, prom: seq<real>, fp: FloatOps, lo: nat, hi: nat): (res: IntegralResult)
    requires lo <= hi < |X| && IsMatrix(Y) && prom == ColumnMeans(Y, fp)
    ensures res.left == X[lo] && res.right == X[hi]
    ensures |res.axis| == hi - lo + 1 && forall k :: 0 <= k <= hi - lo ==> res.axis[k] == X[lo + k]
    ensures res.curve == RegionCurve(Y, prom, fp, lo, hi)
  {
    IntegralResult(X[lo], X[hi], X[lo..hi + 1], RegionCurve(Y, prom, fp, lo, hi))
  }

  /** The display curve of a region: the cumulative column means over the
      region, rescaled to the region's largest intensity. */
  function RegionCurve(Y: Matrix, prom: seq<real>, fp: FloatOps, lo: nat, hi: nat): (y: seq<real>)
    requires IsMatrix(Y) && prom == ColumnMeans(Y, fp)
    ensures |y| == |Slice(prom, lo, hi)|
  {
    RegionWidth(Y, fp, lo, hi);
    DisplayCurve(Slice(prom, lo, hi), Region(Y, lo, hi))
  }

  /** A successful integration leaves a valid table indexed by the sample
      names that holds the region sums under the region's label. */
  lemma IntegrateStoresRegion(t: IntegralTable, X: seq<real>, Y: Matrix, names: seq<Cell>, prom: seq<real>,
                              fp: FloatOps, x1: nat, x2: nat)
    requires t.Valid() && IsMatrix(Y) && |names| == |Y| && prom == ColumnMeans(Y, fp)
    requires Integrate(t, X, Y, names, prom, fp, x1, x2).Ok?
    ensures var lo, hi := Ordered(x1, x2).0, Ordered(x1, x2).1;
      var u := Integrate(t, X, Y, names, prom, fp, x1, x2).value.0;
      var name := RegionLabel(fp, X[lo], X[hi]);
      && u.Valid() && u.index == names && name in u.labels
      && (forall c :: 0 <= c < |u.labels| && u.labels[c] == name ==> u.columns[c] == RegionSums(Y, lo, hi))
      && (forall c :: 0 <= c < |t.labels| && t.labels[c] != name ==> u.labels[c] == t.labels[c])
      && (forall c :: 0 <= c < |t.labels| && t.labels[c] != name && |t.index| == |names| ==>
            u.columns[c] == t.columns[c])
      && (forall c :: 0 <= c < |t.labels| && t.labels[c] != name && |t.index| != |names| ==>
            u.columns[c] == MissingColumn(fp.nan, |names|))
  {
    var lo, hi := Ordered(x1, x2).0, Ordered(x1, x2).1;
    var name := RegionLabel(fp, X[lo], X[hi]);
    var upd := SetColumn(t, name, RegionSums(Y, lo, hi), names, fp.nan);
    assert upd.Ok?;
  }

  /** The mean spectrum over a region is as wide as the region itself, so a
      non-empty one has a non-empty region. */
  lemma RegionWidth(Y: Matrix, fp: FloatOps, lo: nat, hi: nat)
    requires IsMatrix(Y)
    ensures |Slice(ColumnMeans(Y, fp), lo, hi)| > 0 ==> !IsEmpty(Region(Y, lo, hi))
  {
    var m := ColumnMeans(Y, fp);
    if |Slice(m, lo, hi)| > 0 {
      assert |Y| > 0;
      assert |Region(Y, lo, hi)[0]| == |Slice(Y[0], lo, hi)|;
      SliceWidth(m, Y[0], lo, hi);
    }
  }

  lemma SliceWidth(a: seq<real>, b: seq<real>, lo: nat, hi: nat)
    requires |a| == |b|
    ensures |Slice(a, lo, hi)| == |Slice(b, lo, hi)|
  {
  }

  // ---------------------------------------------------------------- session

  class RMNProcessor {
    /** The floating-point operations the session's arithmetic uses. */
    const fp: FloatOps
    var df: Option<Grid>
    var integrales: IntegralTable
    var valX: Option<seq<real>>
    var valY: Option<Matrix>
    var muestras: Option<seq<Cell>>
    var promY: Option<seq<real>>
    var totals: Option<seq<real>>

    /** The loaded table is a non-empty transposed grid; the matrix, names,
        mean spectrum and totals are set together and agree with each other;
        the axis is set whenever the matrix is. */
    ghost predicate Valid()
      reads this
    {
      && integrales.Valid()
      && (df.Some? ==> IsGrid(df.value) && |df.value| > 0 && |df.value[0]| > 0)
      && (valX.Some? ==> df.Some?)
      && (valY.Some? ==> valX.Some?)
      && (valY.Some? <==> muestras.Some?)
      && (valY.Some? <==> promY.Some?)
      && (valY.Some? <==> totals.Some?)
      && (valY.Some? ==>
            && IsMatrix(valY.value)
            && |muestras.value| == |valY.value|
            && promY.value == ColumnMeans(valY.value, fp)
            && totals.value == RowTotals(valY.value))
    }

    /** `__init__`: nothing loaded and an empty integral table. */
    constructor(fp: FloatOps)
      ensures Valid() && this.fp == fp
      ensures df.None? && valX.None? && valY.None? && muestras.None? && promY.None? && totals.None?
      ensures integrales == EmptyTable
    {
      this.fp := fp;
      df := None;
      integrales := EmptyTable;
      valX := None;
      valY := None;
      muestras := None;
      promY := None;
      totals := None;
    }

    /** `load_file`: rejects an unsupported extension and a read that fails
        (the reader raises on an empty file) with nothing changed; otherwise
        stores the transposed table and runs `_process_data` on it, returning
        the table when every cast succeeded. The integral table is kept. */
    method LoadFile(path: string, parsed: Option<Grid>) returns (r: Result<Grid>)
      requires Valid()
      requires parsed.Some? ==> IsGrid(parsed.value)
      modifies this
      ensures Valid() && integrales == old(integrales)
      ensures !Supported(path) ==> r == Err(UnsupportedFormat) && unchanged(this)
      ensures Supported(path) && (parsed.None? || |parsed.value| == 0 || |parsed.value[0]| == 0) ==>
        r == Err(ReadFailed(path)) && unchanged(this)
      ensures Supported(path) && parsed.Some? && |parsed.value| > 0 && |parsed.value[0]| > 0 ==>
        var t := Transpose(parsed.value);
        && df == Some(t)
        && Processed(t, r.Err?)
        && (r.Ok? ==> r.value == t)
        && (r.Err? ==> r.error == CastFailed)
    {
      if !Supported(path) {
        return Err(UnsupportedFormat);
      }
      if parsed.None? || |parsed.value| == 0 || |parsed.value[0]| == 0 {
        return Err(ReadFailed(path));
      }
      df := Some(Transpose(parsed.value));
      var e := ProcessData();
      if e.Some? {
        return Err(e.value);
      }
      r := Ok(df.value);
    }

    /** What `_process_data` leaves on the transposed table t: the axis when
        its cast succeeds, then the matrix with the names, mean spectrum and
        totals when the matrix cast succeeds too; a failed cast leaves what
        follows it as it was. */
    twostate predicate Processed(t: Grid, failed: bool)
      requires IsGrid(t) && |t| > 0 && |t[0]| > 0
      reads this
    {
      var xs := CastRow(AxisCells(t));
      var ys := CastRows(BodyCells(t));
      && (failed <==> xs.None? || ys.None?)
      && (xs.None? ==> valX == old(valX))
      && (xs.Some? ==> valX == xs)
      && (failed ==> valY == old(valY) && muestras == old(muestras) && promY == old(promY) && totals == old(totals))
      && (!failed ==>
            && valY == ys && muestras == Some(NameCells(t))
            && promY == Some(ColumnMeans(ys.value, fp)) && totals == Some(RowTotals(ys.value)))
    }

    /** `_process_data`: casts the axis, then the matrix, storing each as it
        succeeds; the names, mean spectrum and totals follow the matrix. */
    method ProcessData() returns (e: Option<Error>)
      requires Valid() && df.Some?
      modifies this
      ensures Valid() && df == old(df) && integrales == old(integrales)
      ensures Processed(df.value, e.Some?)
      ensures e.Some? ==> e.value == CastFailed
    {
      var t := df.value;
      var xs := CastRow(AxisCells(t));
      if xs.None? {
        return Some(CastFailed);
      }
      valX := xs;
      var ys := CastRows(BodyCells(t));
      if ys.None? {
        return Some(CastFailed);
      }
      assert IsMatrix(ys.value) by {
        assert forall s :: 0 <= s < |ys.value| ==> |ys.value[s]| == |t[0]| - 1;
      }
      valY := ys;
      muestras := Some(NameCells(t));
      promY := Some(ColumnMeans(ys.value, fp));
      totals := Some(RowTotals(ys.value));
      e := None;
    }

    /** `calculate_integral`: without a matrix it fails (numpy cannot slice
        None); otherwise the outcome is `Integrate`'s, the table being
        replaced only on success. */
    method CalculateIntegral(x1: nat, x2: nat) returns (r: Result<IntegralResult>)
      requires Valid()
      modifies this
      ensures Valid()
      ensures df == old(df) && valX == old(valX) && valY == old(valY) && muestras == old(muestras)
      ensures promY == old(promY) && totals == old(totals)
      ensures valY.None? ==> r == Err(NotLoaded) && integrales == old(integrales)
      ensures valY.Some? ==>
        var o := Integrate(old(integrales), valX.value, valY.value, muestras.value, promY.value, fp, x1, x2);
        && (o.Err? ==> r == Err(o.error) && integrales == old(integrales))
        && (o.Ok? ==> r == Ok(o.value.1) && integrales == o.value.0)
    {
      if valY.None? {
        return Err(NotLoaded);
      }
      var o := Integrate(integrales, valX.value, valY.value, muestras.value, promY.value, fp, x1, x2);
      if o.Err? {
        return Err(o.error);
      }
      IntegrateStoresRegion(integrales, valX.value, valY.value, muestras.value, promY.value, fp, x1, x2);
      integrales := o.value.0;
      r := Ok(o.value.1);
    }

    /** `get_plot_data`: None before any load; the axis, the mean spectrum
        and the axis' smallest and largest values otherwise (min() fails on
        a missing or empty axis). */
    function GetPlotData(): (r: Result<Option<PlotData>>)
      reads this
      ensures df.None? ==> r == Ok(None)
      ensures df.Some? && (valX.None? || |valX.value| == 0) ==> r.Err?
      ensures df.Some? && valX.Some? && |valX.value| > 0 ==> r.Ok? && r.value.Some?
      ensures r.Ok? && r.value.Some? ==>
        var d := r.value.value;
        && valX.Some? && d.axis == valX.value && d.meanSpectrum == promY
        && d.limInf <= d.limSup
        && (forall k :: 0 <= k < |d.axis| ==> d.limInf <= d.axis[k] <= d.limSup)
        && d.limInf in d.axis && d.limSup in d.axis
    {
      if df.None? then Ok(None)
      else if valX.None? then Err(NotLoaded)
      else if |valX.value| == 0 then Err(EmptyInput)
      else Ok(Some(PlotData(valX.value, promY, SeqMin(valX.value), SeqMax(valX.value))))
    }

    /** `get_integrales`: the table as a value; later calls do not alter it. */
    function GetIntegrales(): (t: IntegralTable)
      reads this
      ensures t == integrales
    {
      integrales
    }

    /** `reset`: every field back to its initial state, the integral table included. */
    method Reset()
      requires Valid()
      modifies this
      ensures Valid()
      ensures df.None? && valX.None? && valY.None? && muestras.None? && promY.None? && totals.None?
      ensures integrales == EmptyTable
    {
      df := None;
      integrales := EmptyTable;
      valX := None;
      valY := None;
      muestras := None;
      promY := None;
      totals := None;
    }

    /** `calcular_integrales_relativas`: an empty table when there are no
        integrals or no totals; otherwise a copy whose every column is divided
        by the totals and rounded, column by column. A table indexed by a
        sample count other than the totals' fails. The stored table is not changed. */
    method RelativeIntegrals() returns (r: Result<IntegralTable>)
      requires Valid()
      ensures integrales.IsEmpty() || totals.None? ==> r == Ok(EmptyTable)
      ensures !integrales.IsEmpty() && totals.Some? && |integrales.index| != |totals.value| ==>
        r == Err(LengthMismatch)
      ensures !integrales.IsEmpty() && totals.Some? && |integrales.index| == |totals.value| ==>
        r == Ok(RelativeTable(integrales, totals.value, fp))
    {
      if integrales.IsEmpty() || totals.None? {
        return Ok(EmptyTable);
      }
      var t := integrales;
      var tot := totals.value;
      if |t.index| != |tot| {
        return Err(LengthMismatch);
      }
      var cols: seq<seq<real>> := [];
      var c := 0;
      while c < |t.columns|
        invariant 0 <= c <= |t.columns| && |cols| == c
        invariant forall k :: 0 <= k < c ==> cols[k] == RelativeColumn(t.columns[k], tot, fp)
      {
        cols := cols + [RelativeColumn(t.columns[c], tot, fp)];
        c := c + 1;
      }
      assert cols == RelativeTable(t, tot, fp).columns;
      r := Ok(IntegralTable(t.index, t.labels, cols));
    }

    /** `get_integrales_totales`: None without totals, otherwise every
        sample's total over the whole axis, indexed by the sample names. */
    function GetIntegralesTotales(): (r: Option<TotalsSeries>)
      requires Valid()
      reads this
      ensures r.Some? <==> totals.Some?
      ensures r.Some? ==>
        && r.value.index == muestras.value && |r.value.values| == |valY.value|
        && forall s :: 0 <= s < |valY.value| ==> r.value.values[s] == Sum(valY.value[s])
    {
      if totals.None? then None else Some(TotalsSeries(muestras.value, totals.value))
    }
  }
}
