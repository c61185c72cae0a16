/** The calibration logic of the quantification windows (src/suite/gui/q_app.py):
    an editable sheet built from the integral table, divided column by column
    by proton counts and then multiplied by a calibration factor K, either one
    external factor or one factor per sample (internal standard), and the two
    routines that compute those factors from a loaded spectrum. The sheet is
    the list of rows the sheet widget hands out; windows, dialogs and message
    boxes are not modelled, a message box being an `Err` result. */
module Quant {
  import opened Common
  import opened Processor

  type Sheet = seq<seq<Cell>>

  const ProtonLabel: string := "n° protones"

  // ---------------------------------------------------------------- initial sheet

  /** The first sheet row: the label, then a count of 1 for every integral column. */
  function ProtonRow(n: nat): (row: seq<Cell>)
    ensures |row| == n + 1 && row[0] == Text(ProtonLabel)
    ensures forall c :: 1 <= c <= n ==> row[c] == Num(1.0)
  {
    [Text(ProtonLabel)] + seq(n, c requires 0 <= c < n => Num(1.0))
  }

  /** A sample row: its name, then its integral in every column. */
  function SampleRow(t: IntegralTable, i: nat): (row: seq<Cell>)
    requires t.Valid() && i < |t.index|
    ensures |row| == |t.labels| + 1 && row[0] == t.index[i]
    ensures forall c :: 0 <= c < |t.labels| ==> row[c + 1] == Num(t.columns[c][i])
  {
    [t.index[i]] + seq(|t.labels|, c requires 0 <= c < |t.labels| => Num(t.columns[c][i]))
  }

  /** The sheet `load_initial_data` builds from the integral table. */
  function InitialSheet(t: IntegralTable): (S: Sheet)
    requires t.Valid()
    ensures |S| == |t.index| + 1 && S[0] == ProtonRow(|t.labels|)
    ensures forall i :: 0 <= i < |t.index| ==> S[i + 1] == SampleRow(t, i)
  {
    [ProtonRow(|t.labels|)] + seq(|t.index|, i requires 0 <= i < |t.index| => SampleRow(t, i))
  }

  /** The proton row followed by every sample row, in order, is the initial sheet. */
  lemma SheetFromRows(t: IntegralTable, data: Sheet)
    requires t.Valid() && |data| == |t.index| + 1 && data[0] == ProtonRow(|t.labels|)
    requires forall k :: 0 <= k < |t.index| ==> data[k + 1] == SampleRow(t, k)
    ensures data == InitialSheet(t)
  {
    var S := InitialSheet(t);
    forall k | 0 <= k < |data|
      ensures data[k] == S[k]
    {
      if k > 0 {
        assert data[(k - 1) + 1] == S[(k - 1) + 1];
      }
    }
  }

  // ---------------------------------------------------------------- proton division

  /** `float(val)` on a proton entry: a number is kept, text (ValueError)
      becomes 1.0, and None (TypeError, not caught) fails the whole operation. */
  function ProtonCounts(cells: seq<Cell>): (p: Option<seq<real>>)
    ensures p.Some? <==> forall k :: 0 <= k < |cells| ==> !cells[k].Null?
    ensures p.Some? ==> |p.value| == |cells|
    ensures p.Some? ==> forall k :: 0 <= k < |cells| ==> p.value[k] == (if cells[k].Num? then cells[k].v else 1.0)
  {
    if forall k :: 0 <= k < |cells| ==> !cells[k].Null? then
      Some(seq(|cells|, k requires 0 <= k < |cells| => if cells[k].Num? then cells[k].v else 1.0))
    else None
  }

  /** What dividing cell j of a sample row raises: nothing for a cell that is
      not a number (or the name column); for a number, IndexError when there
      is no proton column for it and ZeroDivisionError when its count is 0. */
  function CellFailure(c: Cell, j: nat, p: seq<real>): Option<Error>
  {
    if j >= 1 && c.Num? then
      if j - 1 >= |p| then Some(IndexOutOfRange)
      else if p[j - 1] == 0.0 then Some(DivisionByZero)
      else None
    else None
  }

  /** The first failure in cells j.. of a row. */
  function FirstFailure(row: seq<Cell>, p: seq<real>, j: nat): Option<Error>
    decreases |row| - j
  {
    if j >= |row| then None
    else if CellFailure(row[j], j, p).Some? then CellFailure(row[j], j, p)
    else FirstFailure(row, p, j + 1)
  }

  /** The first failure in rows i.. of a sheet. */
  function FirstRowFailure(S: Sheet, p: seq<real>, i: nat): Option<Error>
    decreases |S| - i
  {
    if i >= |S| then None
    else if FirstFailure(S[i], p, 1).Some? then FirstFailure(S[i], p, 1)
    else FirstRowFailure(S, p, i + 1)
  }

  /** A row fails from j on exactly when one of its numbers has no usable count. */
  lemma {:induction false} FirstFailureNone(row: seq<Cell>, p: seq<real>, j: nat)
    ensures FirstFailure(row, p, j).None? <==>
      forall m :: j <= m < |row| ==> CellFailure(row[m], m, p).None?
    decreases |row| - j
  {
    if j < |row| {
      FirstFailureNone(row, p, j + 1);
    }
  }

  lemma {:induction false} FirstRowFailureNone(S: Sheet, p: seq<real>, i: nat)
    ensures FirstRowFailure(S, p, i).None? <==>
      forall k, m :: i <= k < |S| && 1 <= m < |S[k]| ==> CellFailure(S[k][m], m, p).None?
    decreases |S| - i
  {
    if i < |S| {
      FirstFailureNone(S[i], p, 1);
      FirstRowFailureNone(S, p, i + 1);
    }
  }

  /** `row[1:]`: everything after the name cell, empty for an empty row. */
  function Rest(row: seq<Cell>): (r: seq<Cell>)
    ensures |row| > 0 ==> r == row[1..]
    ensures |row| == 0 ==> r == []
  {
    if |row| == 0 then [] else row[1..]
  }

  /** A sample row with every number from column 1 on divided by its column's count. */
  function DividedRow(row: seq<Cell>, p: seq<real>): (r: seq<Cell>)
    ensures |r| == |row|
    ensures forall j :: 0 <= j < |row| ==>
      r[j] == (if j >= 1 && row[j].Num? && j - 1 < |p| && p[j - 1] != 0.0 then Num(row[j].v / p[j - 1]) else row[j])
  {
    seq(|row|, j requires 0 <= j < |row| =>
      if j >= 1 && row[j].Num? && j - 1 < |p| && p[j - 1] != 0.0 then Num(row[j].v / p[j - 1]) else row[j])
  }

  /** The inner loop of `divide_by_protons` on one sample row: it stops at
      the first number without a usable count. */
  method DivideRow(row: seq<Cell>, p: seq<real>) returns (r: Result<seq<Cell>>)
    ensures FirstFailure(row, p, 1).Some? ==> r == Err(FirstFailure(row, p, 1).value)
    ensures FirstFailure(row, p, 1).None? ==> r == Ok(DividedRow(row, p))
  {
    var out := row;
    var j := 1;
    while j < |row|
      invariant |out| == |row| && (|row| > 0 ==> 1 <= j <= |row| && out[0] == row[0])
      invariant forall m :: 1 <= m < j && m < |row| ==> out[m] == DividedRow(row, p)[m]
      invariant forall m :: j <= m < |row| ==> out[m] == row[m]
      invariant FirstFailure(row, p, 1) == FirstFailure(row, p, j)
    {
      if row[j].Num? {
        if j - 1 >= |p| {
          return Err(IndexOutOfRange);
        }
        if p[j - 1] == 0.0 {
          return Err(DivisionByZero);
        }
        out := out[j := Num(row[j].v / p[j - 1])];
      }
      j := j + 1;
    }
    assert FirstFailure(row, p, j) == None;
    assert out == DividedRow(row, p);
    r := Ok(out);
  }

  /** `divide_by_protons` on a sheet: an empty sheet fails (there is no
      proton row), a None proton entry fails, the first number without a
      usable count fails; otherwise the proton row is kept and every sample
      row divided. */
  function DividedSheet(S: Sheet): (r: Result<Sheet>)
    ensures |S| == 0 ==> r == Err(IndexOutOfRange)
    ensures |S| > 0 && ProtonCounts(Rest(S[0])).None? ==> r == Err(CastFailed)
    ensures r.Ok? <==> (|S| > 0 && ProtonCounts(Rest(S[0])).Some? &&
      forall k, m :: 1 <= k < |S| && 1 <= m < |S[k]| ==> CellFailure(S[k][m], m, ProtonCounts(Rest(S[0])).value).None?)
    ensures r.Ok? ==> |r.value| == |S| && r.value[0] == S[0]
    ensures r.Ok? ==> forall k :: 1 <= k < |S| ==> r.value[k] == DividedRow(S[k], ProtonCounts(Rest(S[0])).value)
  {
    if |S| == 0 then Err(IndexOutOfRange)
    else
      var po := ProtonCounts(Rest(S[0]));
      if po.None? then Err(CastFailed)
      else
        FirstRowFailureNone(S, po.value, 1);
        var f := FirstRowFailure(S, po.value, 1);
        if f.Some? then Err(f.value)
        else Ok([S[0]] + seq(|S| - 1, k requires 0 <= k < |S| - 1 => DividedRow(S[k + 1], po.value)))
  }

  /** The sheet built from the integral table has a count of 1 everywhere,
      so dividing it by its proton row changes nothing. */
  lemma DivideInitialSheet(t: IntegralTable)
    requires t.Valid()
    ensures DividedSheet(InitialSheet(t)) == Ok(InitialSheet(t))
  {
    var S := InitialSheet(t);
    var p := ProtonCounts(Rest(S[0]));
    assert Rest(S[0]) == seq(|t.labels|, c requires 0 <= c < |t.labels| => Num(1.0));
    assert p.Some? && forall k :: 0 <= k < |p.value| ==> p.value[k] == 1.0;
    forall k | 1 <= k < |S|
      ensures DividedRow(S[k], p.value) == S[k]
    {
      forall j | 1 <= j < |S[k]| && S[k][j].Num?
        ensures S[k][j].v / p.value[j - 1] == S[k][j].v
      {
        DivOne(S[k][j].v);
      }
    }
    var r := DividedSheet(S);
    assert r.Ok?;
    assert r.value == S;
  }

  // ---------------------------------------------------------------- applying K

  /** A sample row with every number from column 1 on multiplied by k. */
  function ScaledRow(row: seq<Cell>, k: real): (r: seq<Cell>)
    ensures |r| == |row| && (|row| > 0 ==> r[0] == row[0])
    ensures forall j :: 1 <= j < |row| ==> r[j] == ScaleCell(row[j], k)
  {
    seq(|row|, j requires 0 <= j < |row| => if j >= 1 then ScaleCell(row[j], k) else row[j])
  }

  /** `float(c) * k` stored back for a number; any other cell is kept. */
  function ScaleCell(c: Cell, k: real): (r: Cell)
    ensures c.Num? ==> r.Num? && r.v == c.v * k
    ensures !c.Num? ==> r == c
  {
    if c.Num? then Num(c.v * k) else c
  }

  /** `calculate_with_external_std`: every sample row scaled by one factor. */
  function ExternalSheet(S: Sheet, k: real): (r: Sheet)
    ensures |r| == |S| && (|S| > 0 ==> r[0] == S[0])
    ensures forall i :: 1 <= i < |S| ==> r[i] == ScaledRow(S[i], k)
  {
    seq(|S|, i requires 0 <= i < |S| => if i == 0 then S[0] else ScaledRow(S[i], k))
  }

  /** Applying two factors one after the other is applying their product. */
  lemma ExternalTwice(S: Sheet, a: real, b: real)
    ensures ExternalSheet(ExternalSheet(S, a), b) == ExternalSheet(S, a * b)
  {
    var L := ExternalSheet(ExternalSheet(S, a), b);
    var R := ExternalSheet(S, a * b);
    forall i | 1 <= i < |S|
      ensures L[i] == R[i]
    {
      forall j | 1 <= j < |S[i]| && S[i][j].Num?
        ensures L[i][j] == R[i][j]
      {
        Associate(S[i][j].v, a, b);
      }
    }
  }

  lemma Associate(v: real, a: real, b: real)
    ensures (v * a) * b == v * (a * b)
  {
  }

  /** `calculate_with_internal_std`: a sample row whose name has a factor is
      scaled by it, any other row is kept; a sample row without a name cell
      raises (IndexError) and the sheet is not updated. */
  function InternalSheet(S: Sheet, K: map<Cell, real>): (r: Option<Sheet>)
    ensures r.None? <==> exists i :: 1 <= i < |S| && |S[i]| == 0
    ensures r.Some? ==> |r.value| == |S| && (|S| > 0 ==> r.value[0] == S[0])
    ensures r.Some? ==> forall i :: 1 <= i < |S| ==>
      r.value[i] == (if S[i][0] in K then ScaledRow(S[i], K[S[i][0]]) else S[i])
  {
    if exists i :: 1 <= i < |S| && |S[i]| == 0 then None
    else Some(seq(|S|, i requires 0 <= i < |S| =>
      if i == 0 then S[0] else if S[i][0] in K then ScaledRow(S[i], K[S[i][0]]) else S[i]))
  }

  /** When every sample row has a name and the same factor k, the internal
      calibration is the external one with k. */
  lemma UniformInternalIsExternal(S: Sheet, K: map<Cell, real>, k: real)
    requires forall i :: 1 <= i < |S| ==> |S[i]| > 0 && S[i][0] in K && K[S[i][0]] == k
    ensures InternalSheet(S, K) == Some(ExternalSheet(S, k))
  {
    var r := InternalSheet(S, K);
    assert r.Some?;
    assert r.value == ExternalSheet(S, k);
  }

  /** An empty factor map leaves every row as it is. */
  lemma InternalWithoutFactors(S: Sheet)
    requires forall i :: 1 <= i < |S| ==> |S[i]| > 0
    ensures InternalSheet(S, map[]) == Some(S)
  {
    var r := InternalSheet(S, map[]);
    assert r.value == S;
  }

  /** The inner loop of both calibrations: each number from column 1 on is
      multiplied by k, anything float() rejects is kept. */
  method ScaleRow(row: seq<Cell>, k: real) returns (out: seq<Cell>)
    ensures out == ScaledRow(row, k)
  {
    out := row;
    var j := 1;
    while j < |row|
      invariant |out| == |row| && (|row| > 0 ==> 1 <= j <= |row| && out[0] == row[0])
      invariant forall m :: 1 <= m < j && m < |row| ==> out[m] == ScaleCell(row[m], k)
      invariant forall m :: j <= m < |row| ==> out[m] == row[m]
    {
      if out[j].Num? {
        out := out[j := Num(out[j].v * k)];
      }
      j := j + 1;
    }
  }

  // ---------------------------------------------------------------- factor K

  /** `np.argmin(np.abs(xs - target))`: the first index closest to target. */
  function Nearest(xs: seq<real>, target: real): (k: nat)
    requires |xs| > 0
    ensures k < |xs|
    ensures forall j :: 0 <= j < |xs| ==> Abs(xs[k] - target) <= Abs(xs[j] - target)
    ensures forall j :: 0 <= j < k ==> Abs(xs[j] - target) > Abs(xs[k] - target)
  {
    if |xs| == 1 then 0
    else
      var k := Nearest(xs[..|xs| - 1], target);
      assert forall j :: 0 <= j < |xs| - 1 ==> xs[..|xs| - 1][j] == xs[j];
      if Abs(xs[|xs| - 1] - target) < Abs(xs[k] - target) then |xs| - 1 else k
  }

  function Abs(x: real): real
  {
    if x < 0.0 then -x else x
  }

  /** A target equal to an axis value selects the first index holding it. */
  lemma NearestOfMember(xs: seq<real>, k: nat)
    requires k < |xs| && forall j :: 0 <= j < k ==> xs[j] != xs[k]
    ensures Nearest(xs, xs[k]) == k
  {
  }

  /** The region between the axis points nearest to start and end, in
      increasing index order, summed over one spectrum. */
  function RegionIntegral(xs: seq<real>, row: seq<real>, start: real, end: real): real
    requires |xs| > 0
  {
    var b := Ordered(Nearest(xs, start), Nearest(xs, end));
    Sum(Slice(row, b.0, b.1))
  }

  /** The region integral does not depend on the order of its boundaries. */
  lemma RegionIntegralSymmetric(xs: seq<real>, row: seq<real>, start: real, end: real)
    requires |xs| > 0
    ensures RegionIntegral(xs, row, start, end) == RegionIntegral(xs, row, end, start)
  {
  }

  /** `K = concentration / (integral / protons)` with a non-zero proton
      count; the outer division is numpy's. */
  function FactorK(fp: FloatOps, concentration: real, integral: real, protons: real): real
    requires protons != 0.0
  {
    Div(fp, concentration, integral / protons)
  }

  /** Concentration 10, 3 protons and an integral of 30 give K = 1, which
      leaves a cell value of 5 at 5. */
  lemma FactorKExample(fp: FloatOps)
    ensures FactorK(fp, 10.0, 30.0, 3.0) == 1.0
    ensures ScaledRow([Text("s"), Num(5.0)], FactorK(fp, 10.0, 30.0, 3.0)) == [Text("s"), Num(5.0)]
  {
    assert 30.0 / 3.0 == 10.0;
    assert FactorK(fp, 10.0, 30.0, 3.0) == 1.0;
    var r := ScaledRow([Text("s"), Num(5.0)], 1.0);
    assert r[0] == Text("s") && r[1] == Num(5.0);
  }

  /** A proton-normalised integral times its factor is the reference concentration. */
  lemma FactorKCalibrates(fp: FloatOps, concentration: real, integral: real, protons: real)
    requires protons != 0.0 && integral != 0.0
    ensures FactorK(fp, concentration, integral, protons) * (integral / protons) == concentration
  {
  }

  /** The factor of one sample for the internal standard. */
  function SampleK(fp: FloatOps, xs: seq<real>, row: seq<real>, start: real, end: real,
                   concentration: real, protons: int): real
    requires |xs| > 0 && protons > 0
  {
    FactorK(fp, concentration, RegionIntegral(xs, row, start, end), protons as real)
  }

  /** First position of a name in the sample list (`list.index`). */
  function FirstIndex(names: seq<Cell>, n: Cell): (k: nat)
    requires n in names
    ensures k < |names| && names[k] == n
    ensures forall j :: 0 <= j < k ==> names[j] != n
  {
    if names[0] == n then 0 else 1 + FirstIndex(names[1..], n)
  }

  /** The factor of every sample, by position. */
  function SampleFactors(fp: FloatOps, xs: seq<real>, Y: Matrix, start: real, end: real,
                         concentration: real, protons: int): (ks: seq<real>)
    requires |xs| > 0 && protons > 0
    ensures |ks| == |Y|
    ensures forall s :: 0 <= s < |Y| ==> ks[s] == SampleK(fp, xs, Y[s], start, end, concentration, protons)
  {
    seq(|Y|, s requires 0 <= s < |Y| => SampleK(fp, xs, Y[s], start, end, concentration, protons))
  }

  /** A dictionary filled by `d[names[s]] = ks[names.index(names[s])]` for
      every s: each name maps to the value at its first position. */
  function FirstOccurrenceMap(names: seq<Cell>, ks: seq<real>): (K: map<Cell, real>)
    requires |names| <= |ks|
    ensures forall n :: n in K <==> n in names
  {
    map n | n in names :: ks[FirstIndex(names, n)]
  }

  /** The dictionary after the first i assignments `d[names[s]] = ks[names.index(names[s])]`. */
  function FilledMap(names: seq<Cell>, ks: seq<real>, i: nat): map<Cell, real>
    requires i <= |names| <= |ks|
  {
    if i == 0 then map[]
    else FilledMap(names, ks, i - 1)[names[i - 1] := ks[FirstIndex(names, names[i - 1])]]
  }

  /** After the first i assignments the keys are the first i names, each with its first-position value. */
  lemma {:induction false} FilledMapContents(names: seq<Cell>, ks: seq<real>, i: nat)
    requires i <= |names| <= |ks|
    ensures forall n :: n in FilledMap(names, ks, i) <==> n in names[..i]
    ensures forall n :: n in FilledMap(names, ks, i) ==> n in names && FilledMap(names, ks, i)[n] == ks[FirstIndex(names, n)]
  {
    if i > 0 {
      FilledMapContents(names, ks, i - 1);
      assert names[..i] == names[..i - 1] + [names[i - 1]];
    }
  }

  /** Once every name is assigned, the dictionary is the first-occurrence map. */
  lemma FilledMapComplete(names: seq<Cell>, ks: seq<real>)
    requires |names| <= |ks|
    ensures FilledMap(names, ks, |names|) == FirstOccurrenceMap(names, ks)
  {
    FilledMapContents(names, ks, |names|);
    assert names[..|names|] == names;
    var K := FilledMap(names, ks, |names|);
    var M := FirstOccurrenceMap(names, ks);
    assert K.Keys == M.Keys;
  }

  /** The map `calculate_k_all` builds: every sample name, the factor of the
      first sample carrying it. */
  function KMap(fp: FloatOps, names: seq<Cell>, xs: seq<real>, Y: Matrix, start: real, end: real,
                concentration: real, protons: int): (K: map<Cell, real>)
    requires |xs| > 0 && protons > 0 && |names| <= |Y|
    ensures forall n :: n in K <==> n in names
    ensures forall n :: n in K ==>
      K[n] == SampleK(fp, xs, Y[FirstIndex(names, n)], start, end, concentration, protons)
  {
    FirstOccurrenceMap(names, SampleFactors(fp, xs, Y, start, end, concentration, protons))
  }

  /** The loop of `calculate_k_all`: one factor per sample, each stored
      under the sample's name, so a later sample with the same name stores
      the factor of the first one again. */
  method KFactors(fp: FloatOps, names: seq<Cell>, xs: seq<real>, Y: Matrix, start: real, end: real,
                  concentration: real, protons: int) returns (K: map<Cell, real>)
    requires |xs| > 0 && protons > 0 && |names| <= |Y|
    ensures K == KMap(fp, names, xs, Y, start, end, concentration, protons)
  {
    ghost var ks := SampleFactors(fp, xs, Y, start, end, concentration, protons);
    K := map[];
    for i := 0 to |names|
      invariant K == FilledMap(names, ks, i)
    {
      var idx := FirstIndex(names, names[i]);
      var k := SampleK(fp, xs, Y[idx], start, end, concentration, protons);
      assert k == ks[idx];
      K := K[names[i] := k];
    }
    FilledMapComplete(names, ks);
  }

  /** Samples that share a name share the factor of the first of them. */
  lemma DuplicateNamesShareFactor(fp: FloatOps, names: seq<Cell>, xs: seq<real>, Y: Matrix, start: real, end: real,
                                  concentration: real, protons: int, s: nat, t: nat)
    requires |xs| > 0 && protons > 0 && |names| <= |Y|
    requires s < t < |names| && names[s] == names[t]
    ensures KMap(fp, names, xs, Y, start, end, concentration, protons)[names[t]] ==
            SampleK(fp, xs, Y[FirstIndex(names, names[s])], start, end, concentration, protons)
    ensures FirstIndex(names, names[t]) <= s
  {
  }

  /** The internal factor of the sample in first position is the external
      factor computed from that sample's spectrum as reference. */
  lemma FirstSampleMatchesExternal(fp: FloatOps, names: seq<Cell>, xs: seq<real>, Y: Matrix, start: real, end: real,
                                   concentration: real, protons: int)
    requires |xs| > 0 && protons > 0 && 0 < |names| <= |Y|
    ensures KMap(fp, names, xs, Y, start, end, concentration, protons)[names[0]] ==
            FactorK(fp, concentration, RegionIntegral(xs, Y[0], start, end), protons as real)
  {
    assert FirstIndex(names, names[0]) == 0;
  }

  // ---------------------------------------------------------------- windows

  /** The quantification window: the editable sheet and the calibration it was opened with. */
  class QuantificationFrame {
    const processor: RMNProcessor
    var sheet: Sheet
    var factorK: Option<real>
    var kValues: map<Cell, real>

    /** Opening the window loads the initial sheet from the session's table. */
    constructor(processor: RMNProcessor, factorK: Option<real>, kValues: map<Cell, real>)
      requires processor.integrales.Valid()
      ensures this.processor == processor && this.factorK == factorK && this.kValues == kValues
      ensures sheet == InitialSheet(processor.integrales)
    {
      this.processor := processor;
      this.factorK := factorK;
      this.kValues := kValues;
      sheet := [];
      new;
      LoadInitialData();
    }

    /** `load_initial_data`: the sheet becomes the proton row and one row per sample. */
    method LoadInitialData()
      requires processor.integrales.Valid()
      modifies this
      ensures sheet == InitialSheet(processor.integrales)
      ensures factorK == old(factorK) && kValues == old(kValues)
    {
      var t := processor.GetIntegrales();
      var data := [ProtonRow(|t.labels|)];
      for i := 0 to |t.index|
        invariant |data| == i + 1 && data[0] == ProtonRow(|t.labels|)
        invariant forall k :: 0 <= k < i ==> data[k + 1] == SampleRow(t, k)
      {
        data := data + [SampleRow(t, i)];
      }
      SheetFromRows(t, data);
      sheet := data;
    }

    /** `divide_by_protons`: the sheet is replaced by its divided copy, or
        left as it was when the division fails. */
    method DivideByProtons() returns (r: Result<()>)
      modifies this
      ensures var d := DividedSheet(old(sheet));
        && (d.Err? ==> r == Err(d.error) && sheet == old(sheet))
        && (d.Ok? ==> r == Ok(()) && sheet == d.value)
      ensures factorK == old(factorK) && kValues == old(kValues)
    {
      var all := sheet;
      if |all| == 0 {
        return Err(IndexOutOfRange);
      }
      var po := ProtonCounts(Rest(all[0]));
      if po.None? {
        return Err(CastFailed);
      }
      var p := po.value;
      FirstRowFailureNone(sheet, p, 1);
      var i := 1;
      while i < |all|
        invariant 1 <= i <= |all| == |sheet| && all[0] == sheet[0]
        invariant forall k :: 1 <= k < i ==> all[k] == DividedRow(sheet[k], p)
        invariant forall k :: i <= k < |all| ==> all[k] == sheet[k]
        invariant FirstRowFailure(sheet, p, 1) == FirstRowFailure(sheet, p, i)
        invariant unchanged(this)
      {
        var out := DivideRow(all[i], p);
        if out.Err? {
          return Err(out.error);
        }
        all := all[i := out.value];
        i := i + 1;
      }
      assert all == DividedSheet(sheet).value;
      sheet := all;
      r := Ok(());
    }

    /** `calculate_with_external_std`: every number of every sample row times
        the factor; without a factor each multiplication raises a TypeError
        that is swallowed, so nothing changes. */
    method CalculateWithExternalStd()
      modifies this
      ensures factorK.Some? ==> sheet == ExternalSheet(old(sheet), factorK.value)
      ensures factorK.None? ==> sheet == old(sheet)
      ensures factorK == old(factorK) && kValues == old(kValues)
    {
      if factorK.None? {
        return;
      }
      var k := factorK.value;
      var all := sheet;
      var i := 1;
      while i < |all|
        invariant |all| == |sheet| && (|all| > 0 ==> 1 <= i <= |all| && all[0] == sheet[0])
        invariant forall m :: 1 <= m < i && m < |all| ==> all[m] == ScaledRow(sheet[m], k)
        invariant forall m :: i <= m < |all| ==> all[m] == sheet[m]
        invariant unchanged(this)
      {
        var row := ScaleRow(all[i], k);
        all := all[i := row];
        i := i + 1;
      }
      assert all == ExternalSheet(sheet, k);
      sheet := all;
    }

    /** `calculate_with_internal_std`: every sample row whose name has a
        factor is scaled by it; a row without a name cell fails the whole
        operation and the sheet is kept. */
    method CalculateWithInternalStd() returns (r: Result<()>)
      modifies this
      ensures var o := InternalSheet(old(sheet), kValues);
        && (o.None? ==> r == Err(IndexOutOfRange) && sheet == old(sheet))
        && (o.Some? ==> r == Ok(()) && sheet == o.value)
      ensures factorK == old(factorK) && kValues == old(kValues)
    {
      var all := sheet;
      var i := 1;
      while i < |all|
        invariant |all| == |sheet| && (|all| > 0 ==> 1 <= i <= |all| && all[0] == sheet[0])
        invariant forall m :: 1 <= m < i && m < |all| ==> |sheet[m]| > 0
        invariant forall m :: 1 <= m < i && m < |all| ==>
          all[m] == (if sheet[m][0] in kValues then ScaledRow(sheet[m], kValues[sheet[m][0]]) else sheet[m])
        invariant forall m :: i <= m < |all| ==> all[m] == sheet[m]
        invariant unchanged(this)
      {
        if |all[i]| == 0 {
          return Err(IndexOutOfRange);
        }
        var name := all[i][0];
        if name in kValues {
          var row := ScaleRow(all[i], kValues[name]);
          all := all[i := row];
        }
        i := i + 1;
      }
      assert all == InternalSheet(sheet, kValues).value;
      sheet := all;
      r := Ok(());
    }

    /** `calculate_concentrations`: the external factor when one is set,
        otherwise the per-sample factors when there are any, otherwise an
        error with the sheet unchanged. */
    method CalculateConcentrations() returns (r: Result<()>)
      modifies this
      ensures factorK.Some? ==> r == Ok(()) && sheet == ExternalSheet(old(sheet), factorK.value)
      ensures factorK.None? && |kValues| > 0 ==>
        var o := InternalSheet(old(sheet), kValues);
        && (o.None? ==> r == Err(IndexOutOfRange) && sheet == old(sheet))
        && (o.Some? ==> r == Ok(()) && sheet == o.value)
      ensures factorK.None? && |kValues| == 0 ==> r == Err(NoCalibration) && sheet == old(sheet)
      ensures factorK == old(factorK) && kValues == old(kValues)
    {
      if factorK.Some? {
        CalculateWithExternalStd();
        r := Ok(());
      } else if |kValues| > 0 {
        r := CalculateWithInternalStd();
      } else {
        r := Err(NoCalibration);
      }
    }
  }

  /** The external-standard window: a reference session and the last
      integral and factor it computed (both 0.0 until then). */
  class ExternalFrame {
    const refProcessor: RMNProcessor
    var integralValue: real
    var factorK: real

    /** The window opens its own, empty reference session. */
    constructor(fp: FloatOps)
      ensures fresh(refProcessor) && refProcessor.Valid() && refProcessor.fp == fp
      ensures refProcessor.df.None? && refProcessor.valX.None? && refProcessor.valY.None?
      ensures refProcessor.muestras.None? && refProcessor.promY.None? && refProcessor.totals.None?
      ensures refProcessor.integrales == EmptyTable
      ensures integralValue == 0.0 && factorK == 0.0
    {
      refProcessor := new RMNProcessor(fp);
      integralValue := 0.0;
      factorK := 0.0;
    }

    /** `calculate_factor_k`. The four entries are what `float()` makes of
        the text fields (None when it raises). A zero boundary counts as
        missing. The integral is shown as soon as it is computed, before the
        proton count and the concentration are read. */
    method CalculateFactorK(startIn: Option<real>, endIn: Option<real>, protonsIn: Option<real>, concIn: Option<real>)
      returns (r: Result<real>)
      requires refProcessor.Valid()
      modifies this
      ensures var P := refProcessor;
        && (startIn.None? || endIn.None? ==> r == Err(CastFailed) && unchanged(this))
        && (startIn.Some? && endIn.Some? ==>
          var start, end := startIn.value, endIn.value;
          && (start == 0.0 || end == 0.0 ==> r == Err(MissingArgument("peak")) && unchanged(this))
          && (start != 0.0 && end != 0.0 && P.valY.None? ==> r == Err(NotLoaded) && unchanged(this))
          && (start != 0.0 && end != 0.0 && P.valY.Some? && |P.valY.value| == 0 ==>
                r == Err(IndexOutOfRange) && unchanged(this))
          && (start != 0.0 && end != 0.0 && P.valY.Some? && |P.valY.value| > 0 && |P.valX.value| == 0 ==>
                r == Err(EmptyInput) && unchanged(this))
          && (start != 0.0 && end != 0.0 && P.valY.Some? && |P.valY.value| > 0 && |P.valX.value| > 0 ==>
                var integral := RegionIntegral(P.valX.value, P.valY.value[0], start, end);
                && integralValue == integral
                && (protonsIn.None? || concIn.None? ==> r == Err(CastFailed) && factorK == old(factorK))
                && (protonsIn.Some? && concIn.Some? && protonsIn.value == 0.0 ==>
                      r == Err(InvalidParameter("protons")) && factorK == old(factorK))
                && (protonsIn.Some? && concIn.Some? && protonsIn.value != 0.0 ==>
                      var k := FactorK(P.fp, concIn.value, integral, protonsIn.value);
                      r == Ok(k) && factorK == k)))
    {
      if startIn.None? || endIn.None? {
        return Err(CastFailed);
      }
      var start, end := startIn.value, endIn.value;
      if start == 0.0 || end == 0.0 {
        return Err(MissingArgument("peak"));
      }
      if refProcessor.valY.None? {
        return Err(NotLoaded);
      }
      var xs := refProcessor.valX.value;
      var Y := refProcessor.valY.value;
      if |Y| == 0 {
        return Err(IndexOutOfRange);
      }
      if |xs| == 0 {
        return Err(EmptyInput);
      }
      var integral := RegionIntegral(xs, Y[0], start, end);
      integralValue := integral;
      if protonsIn.None? || concIn.None? {
        return Err(CastFailed);
      }
      var protons, concentration := protonsIn.value, concIn.value;
      if protons == 0.0 {
        return Err(InvalidParameter("protons"));
      }
      var k := FactorK(refProcessor.fp, concentration, integral, protons);
      factorK := k;
      r := Ok(k);
    }
  }

  /** The internal-standard window: the main session and the factor map it computed. */
  class InternalStandardFrame {
    const processor: RMNProcessor
    var kValues: map<Cell, real>

    constructor(processor: RMNProcessor)
      ensures this.processor == processor && kValues == map[]
    {
      this.processor := processor;
      kValues := map[];
    }

    /** `calculate_k_all`. start and end are what `float()` makes of the
        text fields (None when it raises). With valid entries and loaded
        samples the previous map is cleared and rebuilt, one entry per sample
        name; an empty axis fails on the first sample, leaving the map empty. */
    method CalculateKAll(concentration: real, protons: int, startIn: Option<real>, endIn: Option<real>)
      returns (r: Result<()>)
      requires processor.Valid()
      modifies this
      ensures var P := processor;
        && (startIn.None? || endIn.None? ==> r == Err(CastFailed) && kValues == old(kValues))
        && (startIn.Some? && endIn.Some? && protons <= 0 ==>
              r == Err(InvalidParameter("protons")) && kValues == old(kValues))
        && (startIn.Some? && endIn.Some? && protons > 0 && (P.muestras.None? || |P.muestras.value| == 0) ==>
              r == Err(NotLoaded) && kValues == old(kValues))
        && (startIn.Some? && endIn.Some? && protons > 0 && P.muestras.Some? && |P.muestras.value| > 0 ==>
              && (|P.valX.value| == 0 ==> r == Err(EmptyInput) && kValues == map[])
              && (|P.valX.value| > 0 ==>
                    r == Ok(()) &&
                    kValues == KMap(P.fp, P.muestras.value, P.valX.value, P.valY.value,
                                    startIn.value, endIn.value, concentration, protons)))
    {
      if startIn.None? || endIn.None? {
        return Err(CastFailed);
      }
      var start, end := startIn.value, endIn.value;
      if protons <= 0 {
        return Err(InvalidParameter("protons"));
      }
      if processor.muestras.None? || |processor.muestras.value| == 0 {
        return Err(NotLoaded);
      }
      var names := processor.muestras.value;
      var xs := processor.valX.value;
      var Y := processor.valY.value;
      kValues := map[];
      if |xs| == 0 {
        return Err(EmptyInput);
      }
      kValues := KFactors(processor.fp, names, xs, Y, start, end, concentration, protons);
      r := Ok(());
    }
  }
}
