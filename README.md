# isq-suite numeric core in Dafny

This project models the numeric core of isq-suite, a desktop suite for NMR
spectroscopy, and proves properties of it. The modelled parts are:

- **Handler** (`src/suite/core/handler.py`): loading a point-per-row table
  into an axis, a samples × points matrix and the sample names; saving a
  processed matrix in the same layout; the shape check run after a load;
  the output-path helper, following POSIX path rules.
- **Trnsf** (`src/suite/core/trnsf.py`): the shifted logarithm, the
  generalised logarithm (glog) and the shifted square root, plus the
  `transform` dispatcher with its keyword arguments.
- **Norm** (`src/suite/core/norm.py`): total-area, probabilistic-quotient
  (PQN), vector and internal-standard normalisation, plus the `normalize`
  dispatcher.
- **Scaling** (`src/suite/core/scaling.py`): auto, Pareto, range and mean
  centring, plus the `scale` dispatcher.
- **Processor** (`src/suite/core/processor.py`): the `RMNProcessor`
  session, a class whose fields are the ones the Python object updates in
  place. It covers loading, processing, region integration with its display
  curve, relative integrals, totals and reset.
- **Quant** (`src/suite/gui/q_app.py`), the calibration methods only:
  - the quantification sheet: loading it, dividing by proton counts, and
    applying an external factor K or per-sample internal factors;
  - the external-standard factor computation;
  - the internal-standard factor computation.

A value that numpy computes in floating point is a real number here. The
operations the model leaves uninterpreted are collected in
`Common.FloatOps`:

- logarithms and the square root;
- the result of dividing by zero;
- rounding to 9 decimals;
- the `:.4f` formatting;
- the NaN value that pandas stores for a missing entry.

Lemmas that need the laws of the square root assume them through
`SqrtSound`. A file or widget read becomes a parameter: the parsed table, or
the value that `float()` makes of a text field (`None` when it raises).

## Model

| member | source | states |
|---|---|---|
| Common.Slice | src/suite/core/processor.py:40 | numpy's `s[lo:hi+1]` clamps to the length: empty when lo is past the end or hi < lo, the plain slice inside it, and the suffix from lo when hi reaches the end |
| Common.Div | src/suite/core/processor.py:91 | unguarded numpy division: exact for a non-zero divisor, the IEEE result (`overZero`) for zero |
| Handler.LoadNmrData | src/suite/core/handler.py:24-36 | load as written: every failure is an IoError with the path; succeeds iff the table has a column and every cell from the second body row on is numeric; the axis, the matrix (transposed) and the names all come from body row 1 on |
| Handler.LoadNmrDataFixed | src/suite/core/handler.py:24-36 | corrected loader: the same contract, but from body row 0 on, as the docstring describes |
| Handler.SavedLayout | src/suite/core/handler.py:60-67 | the layout written: a header row of the names after an empty cell, then one row per axis point holding the point and that column of the matrix |
| Handler.SaveProcessedData | src/suite/core/handler.py:56-77 | fails (IoError with the output path) iff there are more axis points than matrix columns; otherwise returns exactly the saved layout |
| Handler.RereadSaved | src/suite/core/handler.py:63-72 | the saved rows, read back with a header line, are rectangular and numeric; they have the names as labels, one row per point, the axis in column 0 and sample s in column s+1 |
| Handler.SaveThenLoadFixed | src/suite/core/handler.py:26-72 | round trip: saving and then loading with the corrected loader gives back (ppm, X, names) |
| Handler.SaveThenLoadDropsFirstPoint | src/suite/core/handler.py:26-31 | round trip as written: loading saved data returns ppm[1..], every sample without its first value, and the names |
| Handler.RoundTripCounterexample | src/suite/core/handler.py:29-31 | concrete case: axis [1, 2] with one sample [5, 6] reloads as axis [2] and sample [6] |
| Handler.ValidateNmrData | src/suite/core/handler.py:91-108 | passes iff the axis and matrix are non-empty, there are names, and the axis length equals the column count and the name count the row count; otherwise it reports the first failing check in source order, with the lengths its message names |
| Handler.LoadedDataValidates | src/suite/core/handler.py:29-31 | whatever the loader returns is a matrix; it validates iff it has an axis point and a sample |
| Handler.RFind | src/suite/core/handler.py:122-123 | the last position of a character, or -1 when it does not occur |
| Handler.RStripSlashes | src/suite/core/handler.py:122 | strips exactly the trailing run of slashes and leaves a prefix of the input |
| Handler.SplitPath | src/suite/core/handler.py:122 | `os.path.split`: the tail is the longest slash-free end of the path (preceded by '/' when shorter than it); the head is the rest with its trailing slashes stripped, unless it is empty or only slashes |
| Handler.SplitExt | src/suite/core/handler.py:123 | `os.path.splitext`: base + extension is the name; the extension is empty or one dot followed by dot-free text, so it starts at the last dot; a non-empty extension lies in the final component after a character other than '.'; an empty one means every dot of the final component has only dots before it there |
| Handler.JoinParts | src/suite/core/handler.py:125 | `os.path.join` of two parts: an absolute second part replaces the first; otherwise the first part, then the second, with exactly one '/' inserted when the first part is non-empty and does not end in '/' |
| Handler.GenerateOutputFilename | src/suite/core/handler.py:111-125 | for a suffix without '/', the output splits into the input's directory and base name + suffix + extension; for one without '.' as well, that name splits into base name + suffix and the input's extension |
| Handler.SplitUnderDir | src/suite/core/handler.py:122 | splitting dir + "/" + name gives back (dir, name), for a non-empty dir without a trailing slash and a slash-free name |
| Handler.SplitJoin | src/suite/core/handler.py:122-125 | split undoes join for a normal directory and a slash-free name |
| Handler.KeepsExtension | src/suite/core/handler.py:123-124 | inserting a dot-free suffix keeps the extension: the new name splits into (base + suffix, extension) |
| Handler.DefaultSuffixExample | src/suite/core/handler.py:111-125 | with the default suffix, `dir/a.csv` becomes `dir/a_processed.csv` |
| Trnsf.MatrixMin | src/suite/core/trnsf.py:23 | `np.min(X)`: at most every entry and equal to one |
| Trnsf.LogShifted | src/suite/core/trnsf.py:20-27 | the matrix is unchanged when its minimum is positive; otherwise it is shifted by epsilon - min; with epsilon > 0 every entry is positive |
| Trnsf.LogTransform | src/suite/core/trnsf.py:16-35 | error order: empty input, then epsilon <= 0, then a base outside e/2/10; succeeds iff none apply, with the chosen logarithm of the shifted copy entrywise |
| Trnsf.GlogTransform | src/suite/core/trnsf.py:59-72 | error order: empty input, then lambda <= 0; otherwise log((x + sqrt(x² + λ² + ε)) / 2λ) entrywise, same shape |
| Trnsf.GlogArgumentPositive | src/suite/core/trnsf.py:66-72 | with a real square root and λ² + ε > 0, the logarithm's argument is positive for every x |
| Trnsf.SqrtShifted | src/suite/core/trnsf.py:88-94 | shifted by epsilon - min only when the minimum is negative; every entry is then at least epsilon; with epsilon >= 0 everything is non-negative |
| Trnsf.SqrtTransform | src/suite/core/trnsf.py:86-95 | fails iff the input is empty; otherwise the square root of the shifted copy entrywise |
| Trnsf.Transform | src/suite/core/trnsf.py:98-125 | lower-cases the name. 'none' returns X. Each method is called with its defaults filled in. A keyword the method does not take fails with that keyword's name: lambda_val for log, base for glog, base or lambda_val for sqrt (base is reported when both are passed). Any other name fails as UnknownMethod with the lower-cased name. A success keeps the shape |
| Trnsf.DefaultsAccepted | src/suite/core/trnsf.py:98-125 | with no keywords, log, glog and sqrt all succeed on every non-empty matrix |
| Norm.NonZero | src/suite/core/norm.py:22 | a zero divisor is replaced, any other is kept; the result is never zero |
| Norm.Positive | src/suite/core/norm.py:119 | a divisor <= 0 is replaced, any other is kept; the result is positive |
| Norm.TotalArea | src/suite/core/norm.py:15-25 | fails iff empty; otherwise each row is divided by its (guarded) sum and multiplied by scale_to |
| Norm.TotalAreaRowSum | src/suite/core/norm.py:15-25 | every row whose sum is non-zero sums to scale_to afterwards; a zero-sum row stays at sum 0 |
| Norm.TotalAreaExample | src/suite/core/norm.py:15-25 | rows [1,2,3] and [4,5,6] scaled to 100 give [50/3, 100/3, 50] and [80/3, 100/3, 40] |
| Norm.Insert | src/suite/core/norm.py:42 | inserting into a sorted sequence keeps it sorted and adds exactly x (multiset) |
| Norm.SortSeq | src/suite/core/norm.py:42 | the result is sorted and a permutation of the input |
| Norm.MedianBetween | src/suite/core/norm.py:42 | the median lies between the minimum and the maximum |
| Norm.MedianConstant | src/suite/core/norm.py:42 | the median of a constant sequence is that constant |
| Norm.Pqn | src/suite/core/norm.py:38-57 | fails iff empty; otherwise each row is divided by its PQN factor |
| Norm.PqnIdenticalRows | src/suite/core/norm.py:38-57 | a matrix whose rows are all the same non-zero-entry vector is returned unchanged |
| Norm.Vector | src/suite/core/norm.py:70-79 | fails iff empty; otherwise each row is divided by its guarded norm |
| Norm.VectorUnitNorm | src/suite/core/norm.py:70-79 | with a real square root, every row with a non-zero norm has unit norm afterwards |
| Norm.InternalStandard | src/suite/core/norm.py:102-121 | error order: empty, ppm length mismatch, ppm_min >= ppm_max, no axis point in the window (iff); succeeds iff none of them applies, and then each row is divided by its guarded window area |
| Norm.InternalStandardUnitArea | src/suite/core/norm.py:102-121 | a row with a positive window area has window area 1 afterwards |
| Norm.InternalStandardNonPositiveArea | src/suite/core/norm.py:116-121 | a row with a non-positive window area is divided by 1e-10 |
| Norm.Normalize | src/suite/core/norm.py:124-155 | lower-cases the name; dispatches to the four methods with their keywords; total_area refuses ppm_min, ppm_max and metodo_integral (when several are passed, the first of these is reported); internal_standard without ppm fails first, then refuses scale_to, then demands ppm_min and ppm_max; an unknown name fails with the lower-cased name; a success keeps the shape |
| Scaling.OneIfZero | src/suite/core/scaling.py:22 | a zero deviation becomes 1, any other is kept |
| Scaling.MeanCentering | src/suite/core/scaling.py:93-97 | fails iff empty; otherwise every entry minus its column mean |
| Scaling.MeanCenteringColumnSums | src/suite/core/scaling.py:93-97 | every column of the centred matrix sums to zero |
| Scaling.Autoscaling | src/suite/core/scaling.py:15-25 | fails iff empty; otherwise centred and divided by the guarded column standard deviation |
| Scaling.AutoscalingColumnSums | src/suite/core/scaling.py:15-25 | every autoscaled column sums to zero |
| Scaling.AutoscalingZeroStd | src/suite/core/scaling.py:22-25 | a column with zero deviation is only centred |
| Scaling.AutoscalingUnitStd | src/suite/core/scaling.py:15-25 | with a real square root, every column whose deviation is not zero has deviation 1 after autoscaling |
| Scaling.ConstantColumnStd | src/suite/core/scaling.py:20 | with a real square root, a constant column has deviation zero |
| Scaling.ParetoScaling | src/suite/core/scaling.py:38-47 | fails iff empty; otherwise centred and divided by the root of the guarded deviation |
| Scaling.ParetoZeroStd | src/suite/core/scaling.py:42-47 | with a real square root, a column with zero deviation is only centred (its divisor is sqrt(1) = 1) |
| Scaling.ParetoColumnSums | src/suite/core/scaling.py:38-47 | every Pareto-scaled column sums to zero |
| Scaling.RangeScaling | src/suite/core/scaling.py:64-80 | fails iff empty; otherwise (x - min) / guarded range × (max_t - min_t) + min_t per column |
| Scaling.RangeScalingEnds | src/suite/core/scaling.py:64-80 | a column minimum maps to min_t; a column maximum of a non-constant column maps to max_t |
| Scaling.RangeScalingConstantColumn | src/suite/core/scaling.py:72-80 | a constant column maps entirely to min_t |
| Scaling.RangeScalingBounds | src/suite/core/scaling.py:64-80 | for min_t <= max_t every result lies in [min_t, max_t] |
| Scaling.RangeScalingDefaultInUnit | src/suite/core/scaling.py:52 | with the default range (0, 1) every result lies in [0, 1] |
| Scaling.Scale | src/suite/core/scaling.py:100-127 | lower-cases the name; auto, pareto and center ignore keywords; range takes feature_range with default (0, 1); an unknown name fails with the lower-cased name; a success keeps the shape |
| Processor.Transpose | src/suite/core/processor.py:25 | `df.T`: swaps rows and columns entrywise |
| Processor.TransposeTwice | src/suite/core/processor.py:25 | transposing twice gives back the grid |
| Processor.Extension | src/suite/core/processor.py:16 | the lower-cased text after the last dot (the whole name without a dot); it contains no dot |
| Processor.ExtensionOfName | src/suite/core/processor.py:16 | a dot-free extension after a name is recovered, lower-cased |
| Processor.UpperCaseCsvSupported | src/suite/core/processor.py:16-19 | `NAME.CSV` is accepted as csv |
| Processor.CastRow | src/suite/core/processor.py:31 | `astype(float)` succeeds iff every cell is a number, keeping the values |
| Processor.CastRows | src/suite/core/processor.py:32 | the same for a whole block, entry by entry |
| Processor.AxisOfTranspose | src/suite/core/processor.py:25-31 | the axis of the transposed file is column 0 of the file, from line 1 on |
| Processor.BodyOfTranspose | src/suite/core/processor.py:25-32 | the matrix of the transposed file is the file's columns 1.. as rows, from line 1 on |
| Processor.NamesOfTranspose | src/suite/core/processor.py:25-33 | the sample names are the file's first line from column 1 on |
| Processor.ColumnMeans | src/suite/core/processor.py:33 | `np.mean(axis=0)`: one entry per column, the column's sum divided by the row count |
| Processor.RowTotals | src/suite/core/processor.py:35 | `np.sum(axis=1)`: one entry per sample, the sample's sum |
| Processor.Ordered | src/suite/core/processor.py:39 | `sorted([x1, x2])`: the two inputs in non-decreasing order |
| Processor.RegionSums | src/suite/core/processor.py:39-43 | one entry per sample, the sum of its clamped slice between the two column indices |
| Processor.RegionSumsSymmetric | src/suite/core/processor.py:39-43 | the order of the two boundaries does not matter |
| Processor.FullRegionIsTotal | src/suite/core/processor.py:36-43 | the region spanning the whole axis sums to the sample's total |
| Processor.AdjacentRegionsAdd | src/suite/core/processor.py:40-43 | two adjacent regions add up to their union |
| Processor.LabelIndex | src/suite/core/processor.py:47 | the position of a column label, or -1 iff it is absent |
| Processor.SetColumn | src/suite/core/processor.py:47-48 | assigning a column fails iff the table has rows and the lengths differ; a table without rows takes the new length and its other columns become all NaN; otherwise they are kept; the named column is replaced in place or appended, and the index becomes the sample names |
| Processor.SetColumnOnRowlessTable | src/suite/core/processor.py:47-48 | a table holding one column and no rows accepts a two-sample column, its old column becoming [NaN, NaN] |
| Processor.RelativeTable | src/suite/core/processor.py:87-94 | same index and labels; every column made relative |
| Processor.FullRegionRelative | src/suite/core/processor.py:81-94 | the whole-axis region's relative integral is round(1) for every sample with a non-zero total |
| Processor.CumSumFirst | src/suite/core/processor.py:51 | the first cumulative sum is the first value |
| Processor.CumSumStep | src/suite/core/processor.py:51 | each cumulative sum is the previous one plus the next value |
| Processor.CumSumTotal | src/suite/core/processor.py:51 | the last cumulative sum is the total of the sequence |
| Processor.MatrixMax | src/suite/core/processor.py:53 | the region's largest entry, attained |
| Processor.DisplayCurve | src/suite/core/processor.py:51-55 | same length as the mean slice; all zeros unless the cumulative sum has a positive maximum |
| Processor.DisplayCurveRescaled | src/suite/core/processor.py:51-53 | otherwise it is the cumulative sum divided by its maximum, times the region's peak |
| Processor.DisplayCurveReachesPeak | src/suite/core/processor.py:51-53 | the rescaled curve reaches the region's peak |
| Processor.DisplayCurveBelowPeak | src/suite/core/processor.py:51-53 | with a non-negative peak, the rescaled curve never exceeds it |
| Processor.Integrate | src/suite/core/processor.py:38-57 | for the ordered boundaries: a boundary past the axis fails; a table with rows that does not have one row per sample fails; otherwise the table gains the region sums under the label, and the result holds both boundary values, the region's axis and its display curve |
| Processor.IntegrateStoresRegion | src/suite/core/processor.py:45-48 | after success the table is valid and indexed by the names; it holds the sums under the label; every other column keeps its label, and keeps its values unless the table had no rows before, in which case they are NaN |
| Processor.RegionWidth | src/suite/core/processor.py:51-53 | a non-empty mean slice implies a non-empty region |
| Processor.RMNProcessor.constructor | src/suite/core/processor.py:6-13 | nothing is loaded and the integral table is empty |
| Processor.RMNProcessor.LoadFile | src/suite/core/processor.py:15-27 | an unsupported extension or a failed read changes nothing; otherwise the session stores the transposed table and processes it; the integral table is kept |
| Processor.RMNProcessor.ProcessData | src/suite/core/processor.py:29-36 | stores the axis if its cast succeeds, then the matrix, names, means and totals together if that cast succeeds; a failed cast leaves the rest as it was |
| Processor.RMNProcessor.CalculateIntegral | src/suite/core/processor.py:38-57 | without a matrix, NotLoaded; otherwise Integrate's outcome; only the integral table changes, and only on success |
| Processor.RMNProcessor.GetPlotData | src/suite/core/processor.py:59-67 | None before a load; after a load it fails iff the axis is missing or empty, and otherwise returns the axis, the mean spectrum and the smallest and largest axis values (both attained) |
| Processor.RMNProcessor.GetIntegrales | src/suite/core/processor.py:69-70 | a copy of the table, equal to it as a value |
| Processor.RMNProcessor.Reset | src/suite/core/processor.py:72-79 | every field back to its initial state |
| Processor.RMNProcessor.RelativeIntegrals | src/suite/core/processor.py:81-94 | empty without integrals or totals; a mismatched index fails; otherwise the relative table; the session is not changed |
| Processor.RMNProcessor.GetIntegralesTotales | src/suite/core/processor.py:96-100 | None iff there are no totals; otherwise each sample's whole-axis sum, indexed by the sample names |
| Quant.InitialSheet | src/suite/gui/q_app.py:135-152 | the proton row (label then 1 per integral) followed by one row per sample: its name, then its value in every integral column |
| Quant.ProtonCounts | src/suite/gui/q_app.py:161-168 | succeeds iff no cell is None (float(None) raises TypeError, which is not caught); a number is kept and any text, the empty string included, becomes 1.0 |
| Quant.FirstFailureNone | src/suite/gui/q_app.py:171-177 | a row divides without error iff every number cell has a proton count, and that count is non-zero |
| Quant.FirstRowFailureNone | src/suite/gui/q_app.py:171-177 | the same for every sample row |
| Quant.DivideRow | src/suite/gui/q_app.py:173-177 | the loop returns the first failure in column order (IndexError or ZeroDivisionError), or the divided row |
| Quant.DividedSheet | src/suite/gui/q_app.py:154-185 | an empty sheet fails; an unreadable proton row fails; it succeeds iff no sample row fails; on success the proton row is kept and every sample row is divided |
| Quant.DivideInitialSheet | src/suite/gui/q_app.py:135-177 | dividing a freshly loaded sheet (all counts 1) leaves it unchanged |
| Quant.ExternalSheet | src/suite/gui/q_app.py:202-217 | the proton row is kept and every sample row is scaled by K |
| Quant.ExternalTwice | src/suite/gui/q_app.py:202-217 | applying factors a and then b equals applying a·b |
| Quant.InternalSheet | src/suite/gui/q_app.py:219-240 | fails iff some sample row is empty (no name to look up); a row whose name has a factor is scaled by it, and every other row is kept |
| Quant.UniformInternalIsExternal | src/suite/gui/q_app.py:187-240 | a factor map giving every sample the same K acts as the external factor K |
| Quant.InternalWithoutFactors | src/suite/gui/q_app.py:226-229 | an empty factor map leaves the sheet unchanged |
| Quant.ScaleRow | src/suite/gui/q_app.py:208-213 | the loop computes the scaled row |
| Quant.Nearest | src/suite/gui/q_app.py:604-605 | `np.argmin(abs(x - target))`: a closest axis position, the first of them |
| Quant.NearestOfMember | src/suite/gui/q_app.py:604-605 | an axis value is nearest to itself, at its first occurrence |
| Quant.RegionIntegralSymmetric | src/suite/gui/q_app.py:604-615 | swapping the two boundaries gives the same integral |
| Quant.FactorKExample | src/suite/gui/q_app.py:626 | concentration 10, 3 protons and integral 30 give K = 1, which keeps a value of 5 |
| Quant.FactorKCalibrates | src/suite/gui/q_app.py:626 | for a non-zero integral, K times integral / protons is the reference concentration |
| Quant.FirstIndex | src/suite/gui/q_app.py:777 | `list.index`: the first position holding the name |
| Quant.KMap | src/suite/gui/q_app.py:775-798 | a map on exactly the sample names, each with the factor computed from the sample at its first occurrence |
| Quant.FilledMapContents | src/suite/gui/q_app.py:775-798 | after the first i samples, the map holds exactly their names, each with its first occurrence's factor |
| Quant.FilledMapComplete | src/suite/gui/q_app.py:775-798 | after all samples, the map is the first-occurrence map |
| Quant.KFactors | src/suite/gui/q_app.py:775-798 | the loop builds exactly KMap |
| Quant.DuplicateNamesShareFactor | src/suite/gui/q_app.py:777-798 | a name at positions s < t gets the factor of its first occurrence, which is at or before s |
| Quant.FirstSampleMatchesExternal | src/suite/gui/q_app.py:604-627 | the first sample's internal factor is what the external formula gives on that sample |
| Quant.QuantificationFrame.constructor | src/suite/gui/q_app.py:15-55 | keeps the session and both calibrations, and ends by loading the initial sheet of the session's integral table |
| Quant.QuantificationFrame.LoadInitialData | src/suite/gui/q_app.py:135-152 | the sheet becomes the initial sheet of the session's integral table |
| Quant.QuantificationFrame.DivideByProtons | src/suite/gui/q_app.py:154-185 | success replaces the sheet with the divided one; an error leaves it unchanged |
| Quant.QuantificationFrame.CalculateWithExternalStd | src/suite/gui/q_app.py:202-217 | with a factor, the sheet is scaled by it; without one, it is unchanged |
| Quant.QuantificationFrame.CalculateWithInternalStd | src/suite/gui/q_app.py:219-240 | follows InternalSheet; a failure leaves the sheet unchanged |
| Quant.QuantificationFrame.CalculateConcentrations | src/suite/gui/q_app.py:187-200 | the external factor first, else a non-empty map of internal factors, else NoCalibration with the sheet unchanged |
| Quant.ExternalFrame.constructor | src/suite/gui/q_app.py:473-486 | a fresh, empty reference session of its own; the integral and the factor start at 0 |
| Quant.ExternalFrame.CalculateFactorK | src/suite/gui/q_app.py:586-629 | in source order: unreadable boundaries; a zero boundary; no spectra; no sample; an empty axis; the first sample's integral is shown; unreadable counts; zero protons; otherwise K is stored and returned |
| Quant.InternalStandardFrame.constructor | src/suite/gui/q_app.py:642-656 | the factor map starts empty |
| Quant.InternalStandardFrame.CalculateKAll | src/suite/gui/q_app.py:753-806 | in source order: unreadable boundaries; protons <= 0; no samples, with the map kept; an empty axis, with the map cleared; otherwise the map becomes KMap |

## Left out

- Floating point: logarithms, square roots, numpy's standard deviation and Euclidean norm, division by zero, rounding and `:.4f` formatting are uninterpreted (`Common.FloatOps`). Everything else is exact real arithmetic, so overflow, NaN propagation and rounding error are not modelled. In particular, the NaN that fills old integral columns when a table without rows takes a new column is an uninterpreted real (`FloatOps.nan`), and later arithmetic on it (relative integrals, the quantification sheet) does not propagate NaN.
- NaN cells: the model differs from the source here. `astype(float)` accepts a NaN cell and keeps it as NaN; the model has no NaN and treats such a cell as one that fails the cast, so a file with an empty cell is rejected rather than loaded with NaN values.
- Common.Lower: folds ASCII letters only; `str.lower()` also lower-cases non-ASCII letters, which the model leaves as they are.
- File reading, CSV lexing and writing to disk: a read table is the data frame the reader yields. `to_csv` and the informational `print` are not modelled.
- Handler.SaveProcessedData: a matrix with no rows has no width in the model (numpy keeps shape (0, n)), so with samples absent the model rejects any axis point that numpy would write as a row without values.
- Handler.SaveProcessedData: the `original_file_path` argument is accepted and ignored by the source, and is not modelled.
- Handler.SplitPath: follows `posixpath`; Windows drive letters and backslashes (`ntpath`) are not modelled.
- Norm.InternalStandard: `metodo_integral` is accepted and ignored by the source, so the model has no parameter for it.
- Norm.Normalize: keywords other than `scale_to`, `ppm_min`, `ppm_max` and `metodo_integral` are not modelled.
- Norm.Normalize: when several refused keywords are passed, Python reports the first one in the call's keyword order; the model has no keyword order and fixes the priority ppm_min, ppm_max, metodo_integral.
- Trnsf.Transform: when sqrt gets both `base` and `lambda_val`, Python reports whichever comes first in the call; the model always reports `base`.
- Trnsf.Transform: keywords other than `epsilon`, `base` and `lambda_val` (which the source refuses with a TypeError) cannot be expressed.
- Scaling.Scale: keywords other than `feature_range` (which the source refuses with a TypeError for 'range') cannot be expressed.
- Trnsf.Transform, Norm.Normalize, Scaling.Scale: the method name is always passed; the defaults `'glog'`, `'pqn'` and `'auto'` for an omitted name are not modelled.
- Handler.SaveThenLoadFixed: pandas' `read_csv(header=0)` renames a repeated label (`a`, `a.1`) and a blank one (`Unnamed: k`); the model's reader keeps labels verbatim, so this round trip, SaveThenLoadDropsFirstPoint and RereadSaved give back the names exactly only for distinct, non-empty sample names in pandas.
- Trnsf.GlogTransform: does not state that the result is a real logarithm. The positivity of its argument is proved separately in `Trnsf.GlogArgumentPositive`.
- Processor.DisplayCurve: the curve's scale is the largest `val_y` entry over the region, as the code computes it. It is not the largest entry of the mean spectrum.
- Processor.RMNProcessor.ProcessData: a file with zero sample columns leaves `val_y` without a width; the model's matrix then has no rows.
- Processor.RMNProcessor.LoadFile: the pandas reader's behaviour is a parameter. The model does not distinguish `header=None` CSV from comma-delimited TXT parsing.
- Quant.ExternalFrame.CalculateFactorK: does not itself state the calibration identity. It is proved separately in `Quant.FactorKCalibrates`, because the product times the integral is nonlinear.
- Quant.Nearest: models `np.argmin` on exact reals, without floating-point ties.
- Quant.InternalStandardFrame.CalculateKAll: concentration and protons arrive parsed. A `DoubleVar`/`IntVar` parse failure (TclError, uncaught by the method) is not modelled.
- Quant.InternalStandardFrame.CalculateKAll: duplicate sample names get the first sample's factor, as `muestras.index` does.
- Quant.QuantificationFrame: the sheet widget is a `seq` field. `get_sheet_data` is taken to return a copy, so a failed division leaves the widget unchanged.
- Message boxes, the tree view, highlighting, the other GUI windows and the plot are not modelled.
- `export_table`, `use_factor` and `use_factors` are not modelled: they copy values between windows or write spreadsheets.
- Quant.ExternalFrame.CalculateFactorK: a missing `val_y` raises an uncaught TypeError in the code. It is modelled as `Err(NotLoaded)`.

## Findings

| source | as written | input that shows it | evidently intended | confidence | as-written member | corrected member |
|---|---|---|---|---|---|---|
| src/suite/core/handler.py:26-31 | `header=0` already consumes the file's first line (the names) as labels. `iloc[1:]` then also skips the first data line, so the first axis point and every sample's first value are lost, including on files written by `save_processed_data` | save axis [1, 2] with one sample [5, 6], then load: the result is axis [2] and sample [6] | keep every line after the header (`iloc[0:]`, as the docstring says), so that loading undoes saving | not executed | Handler.LoadNmrData, Handler.SaveThenLoadDropsFirstPoint, Handler.RoundTripCounterexample | Handler.LoadNmrDataFixed, Handler.SaveThenLoadFixed |
