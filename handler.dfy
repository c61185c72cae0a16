/** The file boundary of the processing path (src/suite/core/handler.py):
    reading a point-per-row table into (axis, samples x points matrix, names),
    writing a processed matrix back in the same layout, the shape check run
    after every load, and the output-path helper. The delimited-text lexing
    itself is not modelled: a read table is the data frame the reader yields. */
module Handler {
  import opened Common

  /** What `pd.read_csv(path, header=0)` yields: the header labels (the first
      line of the file) and the rows below it. */
  datatype Frame = Frame(columns: seq<string>, body: seq<seq<Cell>>)

  /** A data frame is rectangular: every body row has one cell per label. */
  predicate WellFormed(f: Frame)
  {
    forall r :: 0 <= r < |f.body| ==> |f.body[r]| == |f.columns|
  }

  /** The loaded triple: axis, samples x points matrix, sample names. */
  datatype NmrData = NmrData(ppm: seq<real>, spectra: Matrix, names: seq<string>)

  /** Number of body rows from row `first` on (`iloc[first:]`). */
  function Points(f: Frame, first: nat): nat
  {
    if first <= |f.body| then |f.body| - first else 0
  }

  /** Every cell that `astype(float)` casts (body rows from `first` on, every column) is a number. */
  predicate Castable(f: Frame, first: nat)
    requires WellFormed(f)
  {
    forall r, c :: first <= r < |f.body| && 0 <= c < |f.columns| ==> f.body[r][c].Num?
  }

  /** The axis is column 0 and the matrix the transpose of columns 1.., both from body row `first` on. */
  function Extract(f: Frame, first: nat): (d: NmrData)
    requires WellFormed(f) && |f.columns| > 0 && Castable(f, first)
  {
    var n := Points(f, first);
    NmrData(
      seq(n, p requires 0 <= p < n => f.body[first + p][0].v),
      seq(|f.columns| - 1, s requires 0 <= s < |f.columns| - 1 =>
        seq(n, p requires 0 <= p < n => f.body[first + p][s + 1].v)),
      f.columns[1..])
  }

  /** `load_nmr_data` as written: `header=0` consumes the first line as labels and
      `iloc[1:]` then skips the first body row as well. `contents` is what the
      reader returns for `path` (None when it raises). Every failure is one
      IoError carrying the path; no partial triple is returned. */
  function LoadNmrData(path: string, contents: Option<Frame>): (r: Result<NmrData>)
    requires contents.Some? ==> WellFormed(contents.value)
    ensures r.Err? ==> r.error == IoError(path)
    ensures r.Ok? <==> contents.Some? && |contents.value.columns| > 0 && Castable(contents.value, 1)
    ensures r.Ok? ==>
      var f, d := contents.value, r.value;
      && |d.ppm| == Points(f, 1)
      && (forall p :: 0 <= p < |d.ppm| ==> d.ppm[p] == f.body[p + 1][0].v)
      && |d.spectra| == |f.columns| - 1
      && (forall s :: 0 <= s < |d.spectra| ==> |d.spectra[s]| == |d.ppm|)
      && (forall s, p :: 0 <= s < |d.spectra| && 0 <= p < |d.ppm| ==>
            d.spectra[s][p] == f.body[p + 1][s + 1].v)
      && d.names == f.columns[1..]
  {
    if contents.None? || |contents.value.columns| == 0 || !Castable(contents.value, 1) then
      Err(IoError(path))
    else
      Ok(Extract(contents.value, 1))
  }

  /** The loader as its documentation describes it: intensities from the first
      line after the header on. */
  function LoadNmrDataFixed(path: string, contents: Option<Frame>): (r: Result<NmrData>)
    requires contents.Some? ==> WellFormed(contents.value)
    ensures r.Err? ==> r.error == IoError(path)
    ensures r.Ok? <==> contents.Some? && |contents.value.columns| > 0 && Castable(contents.value, 0)
    ensures r.Ok? ==>
      var f, d := contents.value, r.value;
      && |d.ppm| == |f.body|
      && (forall p :: 0 <= p < |d.ppm| ==> d.ppm[p] == f.body[p][0].v)
      && |d.spectra| == |f.columns| - 1
      && (forall s :: 0 <= s < |d.spectra| ==> |d.spectra[s]| == |d.ppm|)
      && (forall s, p :: 0 <= s < |d.spectra| && 0 <= p < |d.ppm| ==>
            d.spectra[s][p] == f.body[p][s + 1].v)
      && d.names == f.columns[1..]
  {
    if contents.None? || |contents.value.columns| == 0 || !Castable(contents.value, 0) then
      Err(IoError(path))
    else
      Ok(Extract(contents.value, 0))
  }

  /** The rows `save_processed_data` hands to the writer: a header row of an
      empty cell and the names, then one row per axis point holding the axis
      value and every sample's value at that point. */
  function SavedLayout(ppm: seq<real>, X: Matrix, names: seq<string>): (rows: seq<seq<Cell>>)
    requires IsMatrix(X) && |ppm| <= Cols(X)
    ensures |rows| == |ppm| + 1
    ensures rows[0] == HeaderRow(names)
    ensures forall i :: 0 <= i < |ppm| ==> rows[i + 1] == PointRow(ppm[i], Column(X, i))
  {
    [HeaderRow(names)] + seq(|ppm|, i requires 0 <= i < |ppm| => PointRow(ppm[i], Column(X, i)))
  }

  function HeaderRow(names: seq<string>): (row: seq<Cell>)
    ensures |row| == |names| + 1 && row[0] == Text("")
    ensures forall k :: 0 <= k < |names| ==> row[k + 1] == Text(names[k])
  {
    [Text("")] + seq(|names|, k requires 0 <= k < |names| => Text(names[k]))
  }

  function PointRow(x: real, values: seq<real>): (row: seq<Cell>)
    ensures |row| == |values| + 1 && row[0] == Num(x)
    ensures forall k :: 0 <= k < |values| ==> row[k + 1] == Num(values[k])
  {
    [Num(x)] + seq(|values|, k requires 0 <= k < |values| => Num(values[k]))
  }

  /** `save_processed_data`: builds the row list one axis point at a time. Asking
      for a point past the matrix width raises inside the `try`, which is
      re-raised as an IoError carrying the output path. Writing to disk is not modelled. */
  method SaveProcessedData(outputPath: string, ppm: seq<real>, processed: Matrix, names: seq<string>)
    returns (r: Result<seq<seq<Cell>>>)
    requires IsMatrix(processed)
    ensures r.Err? <==> |ppm| > Cols(processed)
    ensures r.Err? ==> r.error == IoError(outputPath)
    ensures r.Ok? ==> r.value == SavedLayout(ppm, processed, names)
  {
    var dataList := [HeaderRow(names)];
    for i := 0 to |ppm|
      invariant |dataList| == i + 1 && dataList[0] == HeaderRow(names)
      invariant i <= Cols(processed) ==>
        forall k :: 0 <= k < i ==> dataList[k + 1] == PointRow(ppm[k], Column(processed, k))
      invariant i > 0 ==> i <= Cols(processed)
    {
      if i >= Cols(processed) {
        return Err(IoError(outputPath));
      }
      var row := PointRow(ppm[i], Column(processed, i));
      dataList := dataList + [row];
    }
    r := Ok(dataList);
    if |ppm| > 0 {
      assert SavedLayout(ppm, processed, names) == dataList;
    } else {
      assert SavedLayout(ppm, processed, names) == dataList by {
        assert |SavedLayout(ppm, processed, names)| == 1;
      }
    }
  }

  /** How the header=0 reader sees rows that were written out: the first row
      becomes the labels (all of them strings here, kept verbatim), the others the body. */
  function Reread(rows: seq<seq<Cell>>): (f: Frame)
    requires |rows| > 0 && forall k :: 0 <= k < |rows[0]| ==> rows[0][k].Text?
    ensures |f.columns| == |rows[0]| && f.body == rows[1..]
  {
    Frame(seq(|rows[0]|, k requires 0 <= k < |rows[0]| => rows[0][k].s), rows[1..])
  }

  /** The saved rows, read back: labels, shape, and every cell a number
      holding the axis value or a sample's value. */
  lemma RereadSaved(ppm: seq<real>, X: Matrix, names: seq<string>)
    requires IsMatrix(X) && |ppm| == Cols(X) && |names| == |X|
    ensures var f := Reread(SavedLayout(ppm, X, names));
      && f.columns == [""] + names
      && |f.body| == |ppm|
      && WellFormed(f)
      && Castable(f, 0)
      && (forall p :: 0 <= p < |ppm| ==> f.body[p][0] == Num(ppm[p]))
      && (forall s, p :: 0 <= s < |X| && 0 <= p < |ppm| ==> f.body[p][s + 1] == Num(X[s][p]))
  {
    var f := Reread(SavedLayout(ppm, X, names));
    RereadRows(ppm, X, names);
    assert f.columns == [""] + names;
    PointRowsCells(f, ppm, X, names);
  }

  /** A frame whose rows are the point rows of X has a number in every cell. */
  lemma PointRowsCells(f: Frame, ppm: seq<real>, X: Matrix, names: seq<string>)
    requires IsMatrix(X) && |ppm| == Cols(X) && |names| == |X|
    requires f.columns == [""] + names && |f.body| == |ppm|
    requires forall p :: 0 <= p < |ppm| ==> f.body[p] == PointRow(ppm[p], Column(X, p))
    ensures WellFormed(f) && Castable(f, 0)
    ensures forall p :: 0 <= p < |ppm| ==> f.body[p][0] == Num(ppm[p])
    ensures forall s, p :: 0 <= s < |X| && 0 <= p < |ppm| ==> f.body[p][s + 1] == Num(X[s][p])
  {
    forall p, c | 0 <= p < |ppm| && 0 <= c < |f.columns|
      ensures |f.body[p]| == |f.columns| && f.body[p][c].Num?
    {
      PointRowCells(ppm[p], Column(X, p), c);
    }
    forall s, p | 0 <= s < |X| && 0 <= p < |ppm|
      ensures f.body[p][s + 1] == Num(X[s][p])
    {
      PointRowCells(ppm[p], Column(X, p), s + 1);
    }
  }

  /** Every body row read back is the row written for its axis point. */
  lemma RereadRows(ppm: seq<real>, X: Matrix, names: seq<string>)
    requires IsMatrix(X) && |ppm| == Cols(X)
    ensures var f := Reread(SavedLayout(ppm, X, names));
      |f.body| == |ppm| && forall p :: 0 <= p < |ppm| ==> f.body[p] == PointRow(ppm[p], Column(X, p))
  {
    var rows := SavedLayout(ppm, X, names);
    var f := Reread(rows);
    forall p | 0 <= p < |ppm|
      ensures f.body[p] == PointRow(ppm[p], Column(X, p))
    {
      assert f.body[p] == rows[p + 1];
    }
  }

  lemma PointRowCells(x: real, values: seq<real>, c: nat)
    requires c <= |values|
    ensures PointRow(x, values)[c] == if c == 0 then Num(x) else Num(values[c - 1])
  {
  }

  /** Saving and then reading back with the documented loader gives back the
      axis, the matrix and the names: the transpose at save undoes the one at load. */
  lemma SaveThenLoadFixed(path: string, ppm: seq<real>, X: Matrix, names: seq<string>)
    requires IsMatrix(X) && |ppm| == Cols(X) && |names| == |X|
    ensures var f := Reread(SavedLayout(ppm, X, names));
      WellFormed(f) && LoadNmrDataFixed(path, Some(f)) == Ok(NmrData(ppm, X, names))
  {
    var f := Reread(SavedLayout(ppm, X, names));
    RereadSaved(ppm, X, names);
    var d := LoadNmrDataFixed(path, Some(f)).value;
    assert d.ppm == ppm;
    forall s | 0 <= s < |X| ensures d.spectra[s] == X[s] {
      assert |X[s]| == |ppm|;
    }
    assert d.spectra == X;
    assert d.names == names;
  }

  /** Reading saved rows back with the loader as written loses the first axis
      point and the first value of every sample. */
  lemma SaveThenLoadDropsFirstPoint(path: string, ppm: seq<real>, X: Matrix, names: seq<string>)
    requires IsMatrix(X) && |ppm| == Cols(X) && |names| == |X| && |ppm| > 0
    ensures var f := Reread(SavedLayout(ppm, X, names));
      WellFormed(f) &&
      LoadNmrData(path, Some(f)) ==
        Ok(NmrData(ppm[1..], seq(|X|, s requires 0 <= s < |X| => X[s][1..]), names))
  {
    var f := Reread(SavedLayout(ppm, X, names));
    RereadSaved(ppm, X, names);
    assert Castable(f, 1);
    var d := LoadNmrData(path, Some(f)).value;
    assert d.ppm == ppm[1..];
    var cut := seq(|X|, s requires 0 <= s < |X| => X[s][1..]);
    forall s | 0 <= s < |X| ensures d.spectra[s] == cut[s] {
      assert |X[s]| == |ppm|;
    }
    assert d.spectra == cut;
    assert d.names == names;
  }

  /** One axis point and one sample are enough to see the round trip fail. */
  lemma RoundTripCounterexample()
    ensures var f := Reread(SavedLayout([1.0, 2.0], [[5.0, 6.0]], ["a"]));
      WellFormed(f) &&
      LoadNmrData("spectra.csv", Some(f)) == Ok(NmrData([2.0], [[6.0]], ["a"]))
  {
    var X: Matrix := [[5.0, 6.0]];
    SaveThenLoadDropsFirstPoint("spectra.csv", [1.0, 2.0], X, ["a"]);
    assert [1.0, 2.0][1..] == [2.0];
    assert seq(|X|, s requires 0 <= s < |X| => X[s][1..]) == [[6.0]];
  }

  /** The violated invariant `validate_nmr_data` reports. */
  datatype Violation =
    | PpmEmpty
    | DataEmpty
    | NamesEmpty
    | PpmLengthMismatch(ppmPoints: nat, dataColumns: nat)
    | NamesLengthMismatch(nameCount: nat, dataRows: nat)

  /** `validate_nmr_data`: None when every check passes, otherwise the first
      failed check in source order, carrying the lengths its message names. */
  function ValidateNmrData(ppm: seq<real>, data: Matrix, names: seq<string>): (r: Option<Violation>)
    requires IsMatrix(data)
    ensures r.None? <==>
      |ppm| > 0 && !IsEmpty(data) && |names| > 0 && |ppm| == Cols(data) && |names| == |data|
    ensures r == Some(PpmEmpty) <==> |ppm| == 0
    ensures r == Some(DataEmpty) <==> |ppm| > 0 && IsEmpty(data)
    ensures r == Some(NamesEmpty) <==> |ppm| > 0 && !IsEmpty(data) && |names| == 0
    ensures r == Some(PpmLengthMismatch(|ppm|, Cols(data))) <==>
      |ppm| > 0 && !IsEmpty(data) && |names| > 0 && |ppm| != Cols(data)
    ensures r == Some(NamesLengthMismatch(|names|, |data|)) <==>
      |ppm| > 0 && !IsEmpty(data) && |names| > 0 && |ppm| == Cols(data) && |names| != |data|
  {
    if |ppm| == 0 then Some(PpmEmpty)
    else if IsEmpty(data) then Some(DataEmpty)
    else if |names| == 0 then Some(NamesEmpty)
    else if |ppm| != Cols(data) then Some(PpmLengthMismatch(|ppm|, Cols(data)))
    else if |names| != |data| then Some(NamesLengthMismatch(|names|, |data|))
    else None
  }

  /** Whatever the loader returns is consistent in shape: it passes validation
      exactly when it has at least one axis point and one sample. */
  lemma LoadedDataValidates(path: string, f: Frame)
    requires WellFormed(f)
    requires LoadNmrData(path, Some(f)).Ok?
    ensures var d := LoadNmrData(path, Some(f)).value;
      IsMatrix(d.spectra) &&
      (ValidateNmrData(d.ppm, d.spectra, d.names).None? <==> |d.ppm| > 0 && |d.names| > 0)
  {
    var d := LoadNmrData(path, Some(f)).value;
    assert |d.names| == |d.spectra|;
    if |d.spectra| > 0 {
      assert Cols(d.spectra) == |d.ppm|;
    }
  }

  // ---- generate_output_filename, over POSIX path rules ----

  /** Index of the last `c` in `s`, or -1 (str.rfind). */
  function RFind(s: string, c: char): (k: int)
    ensures -1 <= k < |s|
    ensures 0 <= k ==> s[k] == c
    ensures forall j :: k < j < |s| ==> s[j] != c
  {
    if |s| == 0 then -1
    else if s[|s| - 1] == c then |s| - 1
    else RFind(s[..|s| - 1], c)
  }

  lemma {:induction false} RFindAppend(a: string, b: string, c: char)
    ensures c !in b ==> RFind(a + b, c) == RFind(a, c)
    ensures c in b ==> RFind(a + b, c) == |a| + RFind(b, c)
  {
    if |b| > 0 {
      assert (a + b)[..|a + b| - 1] == a + b[..|b| - 1];
      RFindAppend(a, b[..|b| - 1], c);
      if c in b[..|b| - 1] {
        assert c in b;
      }
    } else {
      assert a + b == a;
    }
  }

  predicate AllSlashes(s: string)
  {
    forall k :: 0 <= k < |s| ==> s[k] == '/'
  }

  /** str.rstrip('/'). */
  function RStripSlashes(s: string): (r: string)
    ensures |r| <= |s| && r == s[..|r|]
    ensures r == "" || r[|r| - 1] != '/'
    ensures AllSlashes(s[|r|..])
  {
    if |s| > 0 && s[|s| - 1] == '/' then
      var r := RStripSlashes(s[..|s| - 1]);
      assert s[|r|..] == s[..|s| - 1][|r|..] + [s[|s| - 1]];
      r
    else s
  }

  /** A directory as `split` leaves it: empty, not ending in '/', or slashes only. */
  predicate NormalDir(d: string)
  {
    d == "" || d[|d| - 1] != '/' || AllSlashes(d)
  }

  /** posixpath.split: the part after the last '/', and the part before it with
      its trailing slashes removed unless it is nothing but slashes. */
  function SplitPath(p: string): (r: (string, string))
    ensures |r.1| <= |p| && '/' !in r.1 && r.1 == p[|p| - |r.1|..]
    ensures |r.1| < |p| ==> p[|p| - |r.1| - 1] == '/'
    ensures var h := p[..|p| - |r.1|];
      r.0 == if h == "" || AllSlashes(h) then h else RStripSlashes(h)
    ensures NormalDir(r.0)
  {
    var i := RFind(p, '/') + 1;
    var head := p[..i];
    var tail := p[i..];
    if head != "" && !AllSlashes(head) then
      (RStripSlashes(head), tail)
    else (head, tail)
  }

  /** posixpath.splitext: the extension runs from the last '.' of the final
      component, provided a character other than '.' precedes it there. */
  function SplitExt(p: string): (r: (string, string))
    ensures r.0 + r.1 == p
    ensures r.1 == "" || (r.1[0] == '.' && '.' !in r.1[1..])
    ensures r.1 != "" ==> '/' !in r.1 && exists k :: RFind(p, '/') < k < |r.0| && p[k] != '.'
    ensures r.1 == "" ==> forall d, k :: RFind(p, '/') < k < d < |p| && p[d] == '.' ==> p[k] == '.'
  {
    var sepIndex := RFind(p, '/');
    var dotIndex := RFind(p, '.');
    if dotIndex > sepIndex && exists k :: sepIndex + 1 <= k < dotIndex && p[k] != '.' then
      assert p[..dotIndex] + p[dotIndex..] == p;
      assert forall j :: 0 <= j < |p[dotIndex..]| ==> p[dotIndex..][j] == p[dotIndex + j];
      (p[..dotIndex], p[dotIndex..])
    else (p, "")
  }

  /** posixpath.join of two components. */
  function Join(a: string, b: string): string
  {
    if |b| > 0 && b[0] == '/' then b
    else if a == "" || a[|a| - 1] == '/' then a + b
    else a + "/" + b
  }

  /** An absolute second part replaces the first; otherwise the result is
      the first part, at most one inserted '/', and the second part, with a
      '/' between them whenever the first part is not empty. */
  lemma JoinParts(a: string, b: string)
    ensures var r := Join(a, b);
      && (|b| > 0 && b[0] == '/' ==> r == b)
      && (!(|b| > 0 && b[0] == '/') ==>
            |a| + |b| <= |r| <= |a| + |b| + 1 && r[..|a|] == a && r[|r| - |b|..] == b)
      && (!(|b| > 0 && b[0] == '/') && a != "" ==>
            r[|a| - 1] == '/' || (|a| < |r| && r[|a|] == '/'))
      && (!(|b| > 0 && b[0] == '/') && (a == "" || a[|a| - 1] == '/') ==> r == a + b)
  {
  }

  const DefaultSuffix := "_processed"

  /** `generate_output_filename`: the suffix goes between the base name and
      the extension. A suffix without '/' keeps the output in the input's
      directory; one without '.' as well keeps the input's extension. */
  function GenerateOutputFilename(inputPath: string, suffix: string): (r: string)
    ensures var (dir, file) := SplitPath(inputPath);
      var (base, ext) := SplitExt(file);
      && ('/' !in suffix ==> SplitPath(r) == (dir, base + suffix + ext))
      && ('/' !in suffix && '.' !in suffix ==> SplitExt(SplitPath(r).1) == (base + suffix, ext))
  {
    var (dir, file) := SplitPath(inputPath);
    var (base, ext) := SplitExt(file);
    var name := base + suffix + ext;
    if '/' in suffix then Join(dir, name)
    else
      NotInParts(base, ext, '/');
      NotInConcat(base, suffix, ext, '/');
      SplitJoin(dir, name);
      if '.' in suffix then Join(dir, name)
      else
        KeepsExtension(file, suffix);
        Join(dir, name)
  }

  lemma RFindAbsent(s: string, c: char)
    requires c !in s
    ensures RFind(s, c) == -1
  {
  }

  lemma SplitOfName(name: string)
    requires '/' !in name
    ensures SplitPath(name) == ("", name)
  {
    RFindAbsent(name, '/');
  }

  lemma SplitUnderSlashes(dir: string, name: string)
    requires dir != "" && AllSlashes(dir) && '/' !in name
    ensures SplitPath(dir + name) == (dir, name)
  {
    var p := dir + name;
    RFindAppend(dir, name, '/');
    assert RFind(dir, '/') == |dir| - 1;
    assert p[..|dir|] == dir && p[|dir|..] == name;
  }

  lemma SplitUnderDir(dir: string, name: string)
    requires dir != "" && dir[|dir| - 1] != '/' && '/' !in name
    ensures SplitPath(dir + "/" + name) == (dir, name)
  {
    var p := dir + "/" + name;
    assert p == (dir + "/") + name;
    RFindAppend(dir + "/", name, '/');
    assert RFind(dir + "/", '/') == |dir|;
    var head := p[..|dir| + 1];
    assert head == dir + "/";
    assert head[|dir| - 1] != '/';
    assert !AllSlashes(head);
    assert head[..|head| - 1] == dir;
    assert RStripSlashes(head) == dir;
    assert p[|dir| + 1..] == name;
  }

  lemma SplitJoin(dir: string, name: string)
    requires NormalDir(dir) && '/' !in name
    ensures SplitPath(Join(dir, name)) == (dir, name)
  {
    if name != "" {
      assert name[0] != '/';
    }
    if dir == "" {
      assert Join(dir, name) == name;
      SplitOfName(name);
    } else if dir[|dir| - 1] == '/' {
      assert Join(dir, name) == dir + name;
      SplitUnderSlashes(dir, name);
    } else {
      assert Join(dir, name) == dir + "/" + name;
      SplitUnderDir(dir, name);
    }
  }

  lemma NotInParts(a: string, b: string, c: char)
    requires c !in a + b
    ensures c !in a && c !in b
  {
    assert forall k :: 0 <= k < |a| ==> (a + b)[k] == a[k];
    assert forall k :: 0 <= k < |b| ==> (a + b)[|a| + k] == b[k];
  }

  lemma NotInConcat(a: string, b: string, d: string, c: char)
    requires c !in a && c !in b && c !in d
    ensures c !in a + b + d
  {
  }

  /** The inserted suffix does not disturb the extension: the new name
      splits into the old base name with the suffix and the old extension. */
  lemma KeepsExtension(file: string, suffix: string)
    requires '/' !in file && '/' !in suffix && '.' !in suffix
    ensures var (base, ext) := SplitExt(file);
      SplitExt(base + suffix + ext) == (base + suffix, ext)
  {
    var (base, ext) := SplitExt(file);
    if ext != "" {
      ExtensionKept(file, base, ext, suffix);
    } else {
      NoExtensionKept(file, suffix);
    }
  }

  lemma ExtensionKept(file: string, base: string, ext: string, suffix: string)
    requires '/' !in file && '/' !in suffix && '.' !in suffix
    requires SplitExt(file) == (base, ext) && ext != ""
    ensures SplitExt(base + suffix + ext) == (base + suffix, ext)
  {
    var q := base + suffix + ext;
    assert base + ext == file;
    NotInParts(base, ext, '/');
    NotInConcat(base, suffix, ext, '/');
    RFindAbsent(q, '/');
    RFindAbsent(file, '/');
    LastDotKept(file, base, ext, suffix);
    var w :| 0 <= w < |base| && file[w] != '.';
    assert q[w] == file[w];
    assert q[..|base + suffix|] == base + suffix;
    assert q[|base + suffix|..] == ext;
  }

  /** The last dot of base + suffix + ext, for a non-empty extension and a dot-free suffix. */
  lemma LastDotKept(file: string, base: string, ext: string, suffix: string)
    requires base + ext == file && ext != "" && ext[0] == '.' && '.' !in ext[1..] && '.' !in suffix
    ensures RFind(base + suffix + ext, '.') == |base + suffix| && RFind(file, '.') == |base|
  {
    assert ext == [ext[0]] + ext[1..];
    RFindAppend([ext[0]], ext[1..], '.');
    assert RFind(ext, '.') == 0;
    RFindAppend(base + suffix, ext, '.');
    RFindAppend(base, ext, '.');
  }

  lemma NoExtensionKept(file: string, suffix: string)
    requires '/' !in file && '/' !in suffix && '.' !in suffix
    requires SplitExt(file) == (file, "")
    ensures SplitExt(file + suffix) == (file + suffix, "")
  {
    var q := file + suffix;
    RFindAppend(file, suffix, '/');
    RFindAbsent(file, '/');
    RFindAppend(file, suffix, '.');
    assert RFind(q, '.') == RFind(file, '.');
    var d := RFind(file, '.');
    assert forall k :: 0 <= k < d ==> q[k] == file[k];
  }

  /** `dir/a.csv` splits into the directory `dir` and the name `a.csv`. */
  lemma SplitPathExample()
    ensures SplitPath("dir/a.csv") == ("dir", "a.csv")
  {
    SplitUnderDir("dir", "a.csv");
    assert "dir" + "/" + "a.csv" == "dir/a.csv";
  }

  /** `a.csv` splits into the base name `a` and the extension `.csv`. */
  lemma SplitExtExample()
    ensures SplitExt("a.csv") == ("a", ".csv")
  {
    RFindAbsent("a.csv", '/');
    assert "a.csv" == "a" + ".csv";
    RFindAppend("a", ".csv", '.');
    assert ".csv" == "." + "csv";
    RFindAppend(".", "csv", '.');
    assert RFind("a.csv", '.') == 1;
    assert "a.csv"[0] != '.';
    assert "a.csv"[..1] == "a" && "a.csv"[1..] == ".csv";
  }

  /** Joining under a directory that does not end in '/' inserts one '/'. */
  lemma JoinUnderDir(dir: string, name: string)
    requires dir != "" && dir[|dir| - 1] != '/' && (name == "" || name[0] != '/')
    ensures Join(dir, name) == dir + "/" + name
  {
  }

  /** The default suffix placed between `a` and `.csv`, joined under `dir`. */
  lemma ProcessedNameExample()
    ensures Join("dir", "a" + DefaultSuffix + ".csv") == "dir/a_processed.csv"
  {
    assert "a" + DefaultSuffix + ".csv" == "a_processed.csv";
    JoinUnderDir("dir", "a_processed.csv");
    assert "dir" + "/" + "a_processed.csv" == "dir/a_processed.csv";
  }

  /** With the default suffix, `dir/a.csv` becomes `dir/a_processed.csv`. */
  lemma DefaultSuffixExample()
    ensures GenerateOutputFilename("dir/a.csv", DefaultSuffix) == "dir/a_processed.csv"
  {
    SplitPathExample();
    SplitExtExample();
    ProcessedNameExample();
  }
}
