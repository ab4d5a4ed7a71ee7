# JUVENA 2022 processing core in Dafny

This project models the pure processing logic behind the JUVENA 2022 survey
scripts. The scripts cover glider, vessel echo-sounder and trawl data, CTD
stratification, buoy winds and currents, and acoustic remapping. Everything they
read from files arrives here as an in-memory sequence, and every plot call
becomes a returned value. Library numerics are function-typed parameters with
the minimal law the proofs need. This covers gsw's density, scipy's Butterworth
design and `filtfilt`, `RegularGridInterpolator`, `10**x`/`log10`, `sin`/`cos`
of degrees and the square root. NaN is `None` in an `Option<real>`, and a Python
exception is `Err(ExcClass)` in a `Result`.

The modules follow the scripts:

| module | scripts |
|---|---|
| `TimeIndex` | `find_time_indices`: bisect window search |
| `Stratification` | `compute_bv_freq` masking, `bv_freq_avg_every_k_meters`, `bv_sum_top_k_meters` |
| `Envelope` | `extract_curves`: threshold envelope, scipy `interp1d` with extrapolation, `round` |
| `DailyAverage` | `calculate_daily_average_component`, `calculate_average_current` |
| `LowPass` | `butfilt` cutoff arithmetic, `filter_data` NaN masking, the `filter_lp.py` helpers |
| `AcousticRemap` | both `remap_acoustic_data` versions: validation, bucketing, matrix, dB conversion, output layout |
| `DateTimeParse`, `DateTimeOrder` | `combine_date_time` (CPython `strptime` for the four formats used) and datetime ordering |
| `StrptimeRegex`, `StrptimeMatches`, `StrptimeFormats` | the regular expressions CPython's `strptime` compiles for those four formats, a backtracking matcher for them, and what they match on well-formed input |
| `GliderExtraction` | `extract_glider_data`: sort, and the cutoff in the later version |
| `VesselRecords` | `extract_vessel_echo_data` / `extract_vessel_data`, both `extract_vessel_fishing_data` versions |
| `Vessels` | `Vessel`, `Vessel_echo`, `Vessel_fishing` constructors, `plot_transect` inputs, `get_closest_point_on_edge` |
| `Buoy` | `load_and_clean_data` row semantics, `calculate_vector_components` |
| `DensityGrid` | `generate_potential_density_grid` |
| `Anchovy` | `summarizing_anchovy_detection.py`: GPS day window and the run segmentation loop |

`Wrappers`, `Ordering`, `PyStr`, `PySeq`, `PyNum`, `NanStats`, `Squares` and
`Grid` hold the Python and numpy semantics those modules share. They cover
`np.unique`, `np.searchsorted`, `list.sort`, `str.strip`, `str(int)`, slicing
with clamping, `round`, `np.nanmean`/`nansum`/`nanmin`/`nanmax`, and the shape
of a longitude × latitude × time field.

Some things the code does differ from its comments or docstrings. The model
follows the code:
- `find_time_indices` returns `i1 = -1`, not 0, when every element is at or after `t1`.
- `extract_curves` never returns `None`. A matrix with no exceedance raises ValueError from `round(nan)`.
- `butfilt` uses `sr` as seconds per sample, although its docstring says samples per second.
- The later `remap_acoustic_data` builds its grid from POSIX timestamps (`d.timestamp()`), but its docstring describes `target_time` as datetimes. The model keeps target times as reals on the timestamp scale and the converter as a parameter. It does not decide which reading was intended. The older version passes the datetimes themselves to the interpolator; the model gives it reals too (see Left out).
- Colliding samples are handled differently by the two remap versions. `csr_matrix` sums them, while the older dense assignment keeps the last one. The collision policy is a parameter, and `AcousticRemap.DistinctSamplesPoliciesAgree` shows the two coincide when no two samples share a (time, depth) pair.
- `bv_freq_avg_every_k_meters` allocates `210 // k` depth slots but runs `208 // k + 1` iterations. For k = 4 and k = 8 it therefore raises IndexError.
- With k = 1 the loop starts at depth 1 and never writes slot 0 of `depth_avg`, which stays an empty list. `np.meshgrid` then receives a ragged list, which numpy 1.24 and later refuse with ValueError. No numpy version is pinned, so the model follows current numpy.
- In the fishing extraction, NaN masses survive the `m != 0` filter, despite the comment about NaN becoming 0.
- The anchovy loop's trailing plot uses the latitude of the file's last row (`iloc[-1]`) for every row processed while a run is open.

## Model

| member | source | states |
|---|---|---|
| TimeIndex.BisectLeft | src/TS_diagram_WIP/find_time_index.py:25 | the bisect_left position stays within the searched bounds |
| TimeIndex.BisectRight | src/TS_diagram_WIP/find_time_index.py:26 | the bisect_right position stays within the searched bounds |
| TimeIndex.FindTimeIndices | src/TS_diagram_WIP/find_time_index.py:22-31 | an empty list gives (-1, -1); otherwise -1 <= i1 < len and 0 <= i2 <= len |
| TimeIndex.ClampsAreNoOps | src/TS_diagram_WIP/find_time_index.py:25-29 | the max/min clamps never change bisect_left - 1 or bisect_right |
| TimeIndex.BisectLeftBeforeRight | src/TS_diagram_WIP/find_time_index.py:25-26 | bisect_left of a smaller key is at most bisect_right of a larger one |
| TimeIndex.WindowOrdered | src/TS_diagram_WIP/find_time_index.py:25-26 | t1 <= t2 implies i1 < i2 |
| TimeIndex.BisectLeftSorted | src/TS_diagram_WIP/find_time_index.py:25 | on a sorted list, everything before the bisect_left position is < x and everything from it on is >= x |
| TimeIndex.BisectRightSorted | src/TS_diagram_WIP/find_time_index.py:26 | on a sorted list, everything before the bisect_right position is <= x and everything from it on is > x |
| TimeIndex.FindTimeIndicesSorted | src/TS_diagram_WIP/find_time_index.py:22-31 | i1 is the last index strictly before t1 (or -1) and i2 the first index strictly after t2 (or len) |
| TimeIndex.AllAfterStartGivesMinusOne | src/TS_diagram_WIP/find_time_index.py:25-28 | when every element is >= t1 the code returns i1 = -1 (the docstring says 0) |
| TimeIndex.BisectLeftAllAbove | src/TS_diagram_WIP/find_time_index.py:25 | bisect_left returns the lower bound when every element is >= x |
| TimeIndex.SevenElementExample | src/TS_diagram_WIP/find_time_index.py:36-49 | any strictly increasing seven-element list with t1 = element 1 and t2 = element 5 gives (0, 6) |
| Stratification.BvEntry | bv_frequencies.py:48-49 | an entry of N is present exactly when N² is a finite number; infinities and NaN become NaN |
| Stratification.ComputeBvFreq | bv_frequencies.py:47-49 | N is the transposed time × depth matrix, NaN exactly where N² is not a finite number |
| Stratification.ComputeBvFreqNonNegative | bv_frequencies.py:48 | every present N is nonnegative, as the square root of an absolute value |
| Stratification.Mark | bv_frequencies.py:69 | an all-NaN row becomes all -999; any other row is untouched |
| Stratification.Restore | bv_frequencies.py:71 | every -999 becomes NaN again and nothing else changes |
| Stratification.MarkRestoreRoundTrip | bv_frequencies.py:69-71 | marking then restoring gives back the input row, so the input matrix is left unchanged |
| Stratification.BinCell | bv_frequencies.py:69-75 | a bin cell never holds the -999 sentinel after the final restore |
| Stratification.BinCellIsNanMean | bv_frequencies.py:69-75 | for nonnegative N the cell is the NaN-mean of its entries, and NaN exactly when they are all NaN |
| Stratification.BinRow | bv_frequencies.py:68-70 | one output row holds, for every time, the bin cell of depth columns [i, i + k) |
| Stratification.Iterations | bv_frequencies.py:67 | range(i, 210, k) lists exactly the values i + m·k below 210 |
| Stratification.WriteSlots | bv_frequencies.py:65-72 | slots named by an iteration receive a depth mean; all others keep their value |
| Stratification.BvFreqAvg | bv_frequencies.py:57-79 | k = 0 raises ZeroDivisionError, negative k gives empty results, and only ZeroDivisionError, IndexError or the meshgrid's ValueError can occur; success gives 210 // k slots, every one holding a depth mean, and one row per iteration |
| Stratification.EmptySlots | bv_frequencies.py:65 | `depth_avg` starts as 210 // k empty lists |
| Stratification.Meshgrid | bv_frequencies.py:77 | the meshgrid raises ValueError exactly when some depth slot is still an empty list, and passes the results through otherwise |
| Stratification.MeanRows | bv_frequencies.py:67-70 | the m-th mean row bins the columns starting at the m-th iteration |
| Stratification.BinRows | bv_frequencies.py:67-70 | bin m of a successful run averages depth columns [1 + m·k, 1 + m·k + k) |
| Stratification.BinRowSkipsColumnZero | bv_frequencies.py:67-68 | depth column 0 never influences any bin |
| Stratification.IterationSlots | bv_frequencies.py:67-72 | the m-th iteration of range(1, 210, k) writes depth slot i // k = m, or m + 1 when k = 1 |
| Stratification.IterationCount | bv_frequencies.py:67 | range(1, 210, k) has 208 // k + 1 elements |
| Stratification.BinCount | bv_frequencies.py:67-74 | a successful run produces 208 // k + 1 bins |
| Stratification.BvFreqAvgFailsIff | bv_frequencies.py:65-77 | for k >= 2 the call raises exactly when 208 // k >= 210 // k, and then it is IndexError: otherwise every slot is written and the meshgrid succeeds |
| Stratification.WriteSlotsAll | bv_frequencies.py:67-72 | when iteration m writes slot m and there are as many iterations as slots, no slot is left an empty list |
| Stratification.SlotsCovered | bv_frequencies.py:65-67 | for k >= 2, 210 // k is at most 208 // k + 1, so the iterations reach every slot |
| Stratification.BinKOne | bv_frequencies.py:65-77 | k = 1 never writes depth slot 0, which stays an empty list, so the meshgrid raises ValueError |
| Stratification.UnwrittenSlotRaises | bv_frequencies.py:65-77 | when every iteration fits but some slot lies below all of their slots, the call raises ValueError |
| Stratification.WriteSlotsMisses | bv_frequencies.py:65-72 | an initially empty slot below every iteration's slot stays empty, so not every slot holds a mean |
| Stratification.BvFreqAvgOkIff | bv_frequencies.py:65-77 | for positive k the call succeeds exactly when k >= 2 and 208 // k < 210 // k |
| Stratification.BinFailsForFourAndEight | bv_frequencies.py:65-72 | k = 4 and k = 8 raise IndexError |
| Stratification.BinSucceedsForFive | bv_frequencies.py:57-77 | the default k = 5 succeeds, the meshgrid included |
| Stratification.SumTopK | bv_frequencies.py:82-91 | each time's value is the sum of the present entries among the first k depth columns |
| Stratification.SumTopKAllNaN | bv_frequencies.py:89 | an all-NaN row sums to 0, not NaN |
| Envelope.Column | echosounding_profile.py:67 | the column at time t lists every depth's value at t |
| Envelope.ColumnBounds | echosounding_profile.py:66-71 | no bounds exactly when no value is strictly above the threshold; otherwise the first and last such index, first <= last |
| Envelope.RawBoundary | echosounding_profile.py:61-71 | one entry per time, present exactly for columns with an exceedance and then holding that column's first (upper) or last (lower) index |
| Envelope.LineEnds | echosounding_profile.py:80-86 | the line through two knots passes through both |
| Envelope.LineBetween | echosounding_profile.py:80-86 | between two knots the line stays between their values |
| Envelope.Segment | echosounding_profile.py:80-86 | with two or more knots the chosen segment end lies in [1, n - 1]; with one knot it is 0 |
| Envelope.InterpAtKnot | echosounding_profile.py:80-86 | the interpolant reproduces every knot |
| Envelope.InterpDefined | echosounding_profile.py:80-86 | with two or more increasing knots the interpolant is defined everywhere |
| Envelope.InterpExtrapolates | echosounding_profile.py:80-86 | outside the knots the first or last segment's line is extended |
| Envelope.InterpWithinSegment | echosounding_profile.py:80-86 | between two knots the value lies between the knots' values |
| Envelope.Valid | echosounding_profile.py:78-80 | lists, in increasing order, exactly the times whose boundary is present |
| Envelope.KnotXIncreasing | echosounding_profile.py:80 | the knot abscissae are strictly increasing |
| Envelope.SingleKnotIsNaN | echosounding_profile.py:80-82 | with a single knot the linear interpolant is NaN everywhere |
| Envelope.InterpFixedTotal | echosounding_profile.py:80-86 | the corrected interpolant is defined everywhere and reproduces its knots, one knot included |
| Envelope.FilledKeepsValid | echosounding_profile.py:79-86 | with two or more valid times, filling defines every time and keeps every valid value |
| Envelope.FilledSingleIsNaN | echosounding_profile.py:79-86 | with exactly one valid time the as-written filling is NaN everywhere |
| Envelope.RoundAll | echosounding_profile.py:88-89 | succeeds exactly when no value is NaN, and then each value is rounded half to even; NaN raises ValueError |
| Envelope.ExtractWith | echosounding_profile.py:61-91 | zero times give empty curves; success gives two curves of length times and the threshold unchanged; the only error is ValueError |
| Envelope.ExtractCurves | echosounding_profile.py:46-91 | as ExtractWith, with scipy's single-knot behaviour |
| Envelope.ExtractCurvesFixed | echosounding_profile.py:46-91 | as ExtractWith, with the corrected single-knot interpolant |
| Envelope.NoExceedanceRaises | echosounding_profile.py:79-89 | with no exceedance anywhere both versions raise ValueError; the docstring's None never happens |
| Envelope.ExtractWithKeepsValid | echosounding_profile.py:66-89 | whenever filling is defined, every valid column keeps its first and last exceedance index |
| Envelope.ValidColumnsKept | echosounding_profile.py:66-89 | two valid columns suffice for success, and valid columns keep their bounds |
| Envelope.SingleValidColumnRaises | echosounding_profile.py:80-89 | exactly one valid column makes the as-written code raise ValueError |
| Envelope.FixedKeepsValid | echosounding_profile.py:78-89 | one valid column suffices for the corrected version, which keeps every valid column's bounds |
| Envelope.ExampleColumn | echosounding_profile.py:67-71 | [0.01, 0.01, 0.03, 0.03, 0.01] at threshold 0.024 gives bounds (2, 3) |
| DailyAverage.UniqueDays | oceanic_currents/daily_averaging.py:35 | the day list is strictly increasing and holds exactly the days occurring in t |
| DailyAverage.StrictlyIncreasingDaysUnique | oceanic_currents/daily_averaging.py:35 | two strictly increasing lists with the same members are equal, so the unique day list is determined by the set of days |
| DailyAverage.OnDayMultiset | oceanic_currents/daily_averaging.py:49 | the samples of day d are, with multiplicity, exactly the samples stamped d |
| DailyAverage.OnDayNonEmpty | oceanic_currents/daily_averaging.py:52 | a day occurring in t has at least one sample, so the np.any guard always holds |
| DailyAverage.DailyAverageComponent | oceanic_currents/daily_averaging.py:10-55 | a one-element t raises TypeError (np.squeeze gives a 0-d array), a time axis whose length differs from a longer t raises IndexError; otherwise the day axis is the unique days and the spatial shape is kept |
| DailyAverage.Averaged | oceanic_currents/daily_averaging.py:43-53 | cell (x, y, i) is the day-i mean of that cell's own series |
| DailyAverage.DailyCell | oceanic_currents/daily_averaging.py:49-53 | each output cell is the NaN-mean of that cell's samples on that day, NaN exactly when they are all NaN |
| DailyAverage.DayMeanPermutation | oceanic_currents/daily_averaging.py:49-53 | a day's mean depends only on the multiset of (time, sample) pairs |
| DailyAverage.DailyAveragePermutation | oceanic_currents/daily_averaging.py:49-53 | permuting the time axis together with the timestamps leaves the result unchanged |
| DailyAverage.AverageCurrent | oceanic_currents/daily_averaging.py:58-65 | u and v, each of its own spatial shape, are averaged with the same t and share one day axis; a one-element t raises TypeError and a mismatched component IndexError |
| LowPass.ButfiltCutoff | oceanic_currents/butfilt.py:20-31 | a zero ff_filt or sr divides by zero; otherwise the cutoff is 2·sr/(3600·ff_filt), and butter raises ValueError unless it lies strictly between 0 and 1 |
| LowPass.CutoffClosedForm | oceanic_currents/butfilt.py:20-29 | (1/(ff·3600)) / (0.5·(1/sr)) equals 2·sr/(3600·ff) |
| LowPass.DefaultCutoff | src/oceanic_currents_winds/filtering.py:43-44 | with ff_filt = 72 and sr = 3600 the normalised cutoff is 1/36 |
| LowPass.CutoffGrowsWithSr | oceanic_currents/butfilt.py:20-29 | a larger sr gives a larger normalised cutoff, so sr acts as seconds per sample |
| LowPass.Butfilt | oceanic_currents/butfilt.py:6-36 | succeeds exactly when the cutoff is valid and the series is longer than filtfilt's padding, and then returns the opaque filter of the series |
| LowPass.ZeroFill | src/oceanic_currents_winds/filtering.py:33-40 | NaNs become 0 and every other value is kept |
| LowPass.FilterSeries | src/oceanic_currents_winds/filtering.py:33-48 | one cell's filtering succeeds exactly when butfilt with sr = 3600 succeeds |
| LowPass.FilterSeriesMask | src/oceanic_currents_winds/filtering.py:33-48 | NaN positions stay NaN and every other position holds the filter of the zero-filled series |
| LowPass.CellStep | src/oceanic_currents_winds/filtering.py:30-52 | one loop step succeeds exactly when the v cell exists and both series can be filtered |
| LowPass.Scan | src/oceanic_currents_winds/filtering.py:30-31 | the nested loop succeeds exactly when every remaining step does |
| LowPass.ZerosLike | src/oceanic_currents_winds/filtering.py:27-28 | zeros_like has the input's shape |
| LowPass.FilterData | src/oceanic_currents_winds/filtering.py:13-54 | both outputs have the shapes of their inputs |
| LowPass.FilterDataSucceeds | src/oceanic_currents_winds/filtering.py:30-31 | for a nonempty u the call succeeds exactly when v is at least as large in the first two dimensions and both series can be filtered; an empty u gives two zero fields |
| LowPass.FilterDataCells | src/oceanic_currents_winds/filtering.py:30-52 | each visited cell holds its own filtered series; v cells outside u's loop bounds stay 0 |
| LowPass.SamplingFreqTotalTime | src/BV_ferq/filter_lp.py:8-13 | total time is 86400·days and frequency × total time is the sample count; zero days divides by zero |
| LowPass.CutoffFreqNorm | src/BV_ferq/filter_lp.py:16-22 | cutoff × 2 × total = cutoff_h × 3600; a zero total divides by zero |
| LowPass.CutoffFromDays | src/BV_ferq/filter_lp.py:11-21 | the normalised cutoff is cutoff_h/(48·days), independent of the sample count, and below 1 exactly when cutoff_h < 48·days |
| LowPass.ScriptCutoff | src/BV_ferq/filter_lp.py:73-77 | 72 h over 14 days gives 3/28 |
| LowPass.LpButterParams | src/BV_ferq/filter_lp.py:25-31 | the helper returns butter's (b, a) in the order (a, b) |
| LowPass.SwapCancels | src/BV_ferq/filter_lp.py:28-37 | lp_filter(a, b, x) applies filtfilt to butter's coefficients in their own order, so the swap cancels |
| AcousticRemap.Validate | src/TS_diagram_WIP/acoustic_remapping_WIP.py:51-80 | validation passes exactly for a nonempty DataFrame, two 1-D arrays, four strings, a known method and three present columns |
| AcousticRemap.NotAFrameRaises | src/TS_diagram_WIP/acoustic_remapping_WIP.py:51-52 | a non-DataFrame raises TypeError before anything else |
| AcousticRemap.EmptyFrameRaises | src/TS_diagram_WIP/acoustic_remapping_WIP.py:53-54 | an empty DataFrame raises ValueError |
| AcousticRemap.TargetArgumentsChecked | src/TS_diagram_WIP/acoustic_remapping_WIP.py:55-62 | non-array targets raise TypeError and arrays that are not 1-D raise ValueError |
| AcousticRemap.MethodChecked | src/TS_diagram_WIP/acoustic_remapping_WIP.py:63-74 | non-string arguments raise TypeError and a method other than linear or nearest raises ValueError |
| AcousticRemap.MissingColumnRaises | src/TS_diagram_WIP/acoustic_remapping_WIP.py:75-80 | a missing column raises KeyError |
| AcousticRemap.Bucket | src/TS_diagram_WIP/acoustic_remapping_WIP.py:98-99 | the bucket index lies in [-1, len(unique)) |
| AcousticRemap.BucketOfMember | src/TS_diagram_WIP/acoustic_remapping_WIP.py:98-99 | a sample lands one slot below its own coordinate's rank |
| AcousticRemap.BucketValidIff | src/TS_diagram_WIP/acoustic_remapping_WIP.py:98-105 | the upper-bound test always holds, and a sample is kept exactly when some sample is strictly smaller, so the minimum is dropped |
| AcousticRemap.BucketInjective | src/TS_diagram_WIP/acoustic_remapping_WIP.py:98-99 | distinct coordinates land in distinct buckets |
| AcousticRemap.EntriesSound | src/TS_diagram_WIP/acoustic_remapping_WIP.py:103-111 | every entry comes from a kept sample, at its buckets, holding 10^(Sv/10) |
| AcousticRemap.EntriesComplete | src/TS_diagram_WIP/acoustic_remapping_WIP.py:103-111 | every kept sample has an entry |
| AcousticRemap.CellSum | src/TS_diagram_WIP/acoustic_remapping_WIP.py:115-118 | a cell no entry lands on is 0 under the summing policy |
| AcousticRemap.CellLast | TS_diagram_WIP/acoustic_remapping_WIP.py:76-77 | a cell no entry lands on is 0, and otherwise it holds the value of the last entry landing there |
| AcousticRemap.Matrix | src/TS_diagram_WIP/acoustic_remapping_WIP.py:115-118 | the matrix is unique times × unique depths, each cell given by the collision policy |
| AcousticRemap.Transpose | TS_diagram_WIP/acoustic_remapping_WIP.py:81 | the transpose swaps the two indices |
| AcousticRemap.SingleEntryCell | src/TS_diagram_WIP/acoustic_remapping_WIP.py:115-118 | a cell hit by exactly one entry holds that entry's value under both policies |
| AcousticRemap.PoliciesAgree | TS_diagram_WIP/acoustic_remapping_WIP.py:76-77 | summing and last-wins agree on a cell hit at most once |
| AcousticRemap.DistinctSamplesDistinctCells | src/TS_diagram_WIP/acoustic_remapping_WIP.py:98-111 | samples with distinct (time, depth) pairs land in distinct cells |
| AcousticRemap.DistinctSamplesPoliciesAgree | src/TS_diagram_WIP/acoustic_remapping_WIP.py:115-118 | without duplicate (time, depth) pairs the csr and dense matrices coincide |
| AcousticRemap.UntouchedCellIsZero | TS_diagram_WIP/acoustic_remapping_WIP.py:64-77 | a cell no sample lands on stays 0 |
| AcousticRemap.SingleSampleCell | src/TS_diagram_WIP/acoustic_remapping_WIP.py:108-118 | a cell hit by exactly one sample holds 10^(Sv/10) of that sample |
| AcousticRemap.SingleEntryValue | src/TS_diagram_WIP/acoustic_remapping_WIP.py:108-118 | with sound entries, a cell hit by one sample holds its linear value under both policies |
| AcousticRemap.Flatten | src/TS_diagram_WIP/acoustic_remapping_WIP.py:141 | `.flatten()` of equal-width rows has length rows × width, and element (i, j) lands at its row-major position |
| AcousticRemap.FlatIndexRowMajor | src/TS_diagram_WIP/acoustic_remapping_WIP.py:141 | the row-major position of (i, j) in rows of width w is i·w + j |
| AcousticRemap.ToDb | src/TS_diagram_WIP/acoustic_remapping_WIP.py:145-149 | the output is present exactly for positive interpolated values whose dB form is nonzero: zero, NaN and, through the second pass over the converted array, an exact 0 dB become NaN |
| AcousticRemap.DbRoundTrip | src/TS_diagram_WIP/acoustic_remapping_WIP.py:108-149 | 10·log10(10^(Sv/10)) gives Sv back, except Sv = 0 dB, which the zero pass turns into NaN |
| AcousticRemap.Negate | src/TS_diagram_WIP/acoustic_remapping_WIP.py:125 | the depth axis is negated elementwise |
| AcousticRemap.Sample | src/TS_diagram_WIP/acoustic_remapping_WIP.py:136-149 | the output has length T·D, and index d·T + t holds the dB value at (target_time[t], -target_depth[d]) |
| AcousticRemap.Row | src/TS_diagram_WIP/acoustic_remapping_WIP.py:136-141 | one depth row holds the dB value at every target time |
| AcousticRemap.Remap | src/TS_diagram_WIP/acoustic_remapping_WIP.py:84-151 | a successful remap has length T·D |
| AcousticRemap.RemapLayout | src/TS_diagram_WIP/acoustic_remapping_WIP.py:124-149 | the interpolator is built on the unique times, the negated unique depths and the matrix (transposed for the older version), and output d·T + t is its dB value at target point (t, d) |
| AcousticRemap.RemapChecked | src/TS_diagram_WIP/acoustic_remapping_WIP.py:51-155 | a validation failure raises its own exception; any later failure is a bare Exception; success has length T·D |
| AcousticRemap.CheckedFailsOnlyInBuild | src/TS_diagram_WIP/acoustic_remapping_WIP.py:124-155 | after validation only the interpolator construction can fail |
| AcousticRemap.RemapDense | TS_diagram_WIP/acoustic_remapping_WIP.py:44-100 | an empty frame raises ValueError, a missing column KeyError, and success has length T·D |
| AcousticRemap.DenseShapeMismatch | TS_diagram_WIP/acoustic_remapping_WIP.py:79-85 | the transposed matrix fits the grid only when the unique time and depth counts are equal; otherwise ValueError |
| Ordering.SortedUnique | src/TS_diagram_WIP/acoustic_remapping_WIP.py:92-94 | np.unique is strictly increasing with exactly the input's values |
| Ordering.SortedUniqueBySet | src/TS_diagram_WIP/acoustic_remapping_WIP.py:92-94 | np.unique depends only on the set of values |
| Ordering.SearchSortedLeft | src/TS_diagram_WIP/acoustic_remapping_WIP.py:98-99 | searchsorted returns the first position whose value is >= x |
| Ordering.SearchSortedLeftFindsMember | src/TS_diagram_WIP/acoustic_remapping_WIP.py:98 | a member's searchsorted position is its own index |
| Ordering.StableSortByKey | glider_def_and_processing/glider_data_extraction.py:25 | list.sort by key is sorted, a permutation, and keeps the file order of equal keys |
| DateTimeParse.Strptime | datetime_formating.py:30-36 | a parse that succeeds consumes the whole string and yields a valid datetime; failure is ValueError |
| DateTimeParse.Build | datetime_formating.py:30-36 | strptime's calendar check accepts exactly the valid dates and raises ValueError otherwise |
| DateTimeParse.ParseDate | datetime_formating.py:29-32 | YYYYMMDD is tried first and DD-Mon-YYYY second; ValueError only when both fail |
| DateTimeParse.ParseTime | datetime_formating.py:33-36 | HH:MM:SS.fraction is tried first and HH:MM AM/PM second; ValueError only when both fail |
| DateTimeParse.Combine | datetime_formating.py:38 | the date fields come from the date and the clock fields from the time |
| DateTimeParse.DateStrings | datetime_formating.py:20-21 | an int first date converts every date with str(); otherwise an int date later raises AttributeError at strip |
| DateTimeParse.StripAll | datetime_formating.py:23-24 | every element is stripped |
| DateTimeParse.ParseAll | datetime_formating.py:28-39 | succeeds exactly when every pair parses, and then yields date combined with time for each pair, in order |
| DateTimeParse.CombineDateTime | datetime_formating.py:4-41 | unequal lengths raise ValueError and two empty lists IndexError; equal nonempty lists succeed exactly when the dates convert and every stripped pair parses, element i is then the i-th date combined with the i-th time; otherwise a non-converting date list raises AttributeError and an unparseable pair ValueError |
| DateTimeParse.ParseAllPairs | datetime_formating.py:20-39 | the loop over the converted, stripped lists succeeds exactly when every original pair parses, with element i the i-th pair's datetime |
| DateTimeParse.MixedDatesRaise | datetime_formating.py:20-24 | a str first date followed by an int date raises AttributeError |
| DateTimeParse.ParseDateRoundTrip | datetime_formating.py:30 | formatting a date as YYYYMMDD and parsing it gives the date back |
| DateTimeParse.ParseTimeRoundTrip | datetime_formating.py:34 | HH:MM:SS.fraction parses to the clock fields with the fraction scaled to microseconds |
| DateTimeParse.DateNumberString | datetime_formating.py:21 | str() of a YYYYMMDD integer is the eight-digit date string |
| DateTimeParse.PairReadsBack | datetime_formating.py:20-38 | an int date and a padded time string spelling a datetime read back as that datetime |
| DateTimeParse.CombineReadsBack | datetime_formating.py:16-41 | integer dates and time strings spelling a list of datetimes combine to that list, as in the script's example |
| DateTimeParse.ParseAllOf | datetime_formating.py:28-39 | pairs whose date and time parse to the two halves of a list of datetimes combine to that list |
| DateTimeOrder.OrdinalOrder | glider_def_and_processing/glider_data_extraction.py:25 | the integer sort key orders valid datetimes as Python compares them, and equal keys mean equal datetimes |
| DateTimeOrder.OrdinalNotAfter | glider_def_and_processing/glider_data_extraction.py:28 | key <= key exactly when datetime <= datetime |
| PyStr.Strip | datetime_formating.py:23-24 | strip removes a whitespace prefix and suffix and leaves a trimmed string |
| PyStr.StripRecovers | datetime_formating.py:23-24 | stripping whitespace-padded trimmed text gives the text back |
| PyStr.StripIdempotent | datetime_formating.py:23-24 | stripping twice is stripping once |
| PyStr.NatToString | datetime_formating.py:21 | str() of a nonnegative integer is a nonempty digit string with no leading zero |
| PyStr.NatToStringRoundTrip | datetime_formating.py:21 | the decimal string of n reads back as n |
| PyStr.IntToStringInjective | datetime_formating.py:21 | str() of distinct integers differs |
| PyNum.RoundHalfEven | echosounding_profile.py:88-89 | round lies within 0.5 of x and is even on ties |
| PyNum.RoundHalfEvenUnique | echosounding_profile.py:88-89 | that property determines the rounded value |
| PySeq.SliceBound | src/vessel_echo_processing/vessel_echo_data_extraction.py:22 | Python slice bounds count negative indices from the end and clamp to the sequence |
| PySeq.Slice | src/vessel_echo_processing/vessel_echo_data_extraction.py:22 | a slice holds the elements between the clamped bounds, empty when they cross |
| PySeq.Where | src/vessel_fishing_processing/vessel_fishing_haul_csv2pkl.py:44-46 | the positions satisfying the filter, in increasing order, and all of them |
| NanStats.PresentMembers | oceanic_currents/daily_averaging.py:53 | the values nanmean averages are exactly the non-NaN samples |
| NanStats.NanMean | oceanic_currents/daily_averaging.py:53 | NaN exactly when no value is present; otherwise mean × count = sum of the present values |
| NanStats.NanMeanPermutation | oceanic_currents/daily_averaging.py:53 | nanmean does not depend on the order of the samples |
| NanStats.NanMeanBounds | bv_frequencies.py:70 | nanmean lies between any bounds of the present values |
| NanStats.NanSum | bv_frequencies.py:89 | nansum of all-NaN values is 0 |
| NanStats.NanSumIsSumOfPresent | bv_frequencies.py:89 | nansum is the sum of the present values |
| NanStats.NanMin | TS_diagram_WIP/pot_dens_grid.py:16 | nanmin is NaN exactly when all values are NaN, and otherwise a present value no larger than any other |
| NanStats.NanMax | TS_diagram_WIP/pot_dens_grid.py:17 | nanmax is NaN exactly when all values are NaN, and otherwise a present value no smaller than any other |
| GliderExtraction.Fixes | glider_def_and_processing/glider_data_extraction.py:16-23 | fails exactly when combine_date_time fails, with its exception; otherwise one (lon, lat, datetime) triple per row, in order, timestamps from combine_date_time |
| GliderExtraction.Unzip | glider_def_and_processing/glider_data_extraction.py:31 | zip(*[]) cannot be unpacked into three names (ValueError); otherwise three equal-length lists whose i-th elements form triple i |
| GliderExtraction.UnzipRezip | glider_def_and_processing/glider_data_extraction.py:23-31 | unzipping then zipping gives the triples back, so each lon/lat stays with its timestamp |
| GliderExtraction.UpTo | glider_def_and_processing/glider_data_extraction.py:28 | the cutoff keeps only triples at or before the end key, all from the input |
| GliderExtraction.UpToCount | glider_def_and_processing/glider_data_extraction.py:28 | each triple is kept with its full multiplicity when at or before the end, and dropped otherwise |
| GliderExtraction.UpToSorted | glider_def_and_processing/glider_data_extraction.py:28 | filtering a sorted list keeps it sorted |
| GliderExtraction.UpToKeys | glider_def_and_processing/glider_data_extraction.py:28 | filtering keeps the relative order of equal timestamps |
| GliderExtraction.SortFixes | glider_def_and_processing/glider_data_extraction.py:23-31 | empty input fails at the unpacking; otherwise the timestamps are in ascending order and none is lost |
| GliderExtraction.SortFixesPermutes | glider_def_and_processing/glider_data_extraction.py:23-25 | the sorted triples are a permutation of the input in which equal timestamps keep file order |
| GliderExtraction.CutFixes | glider_def_and_processing/glider_data_extraction.py:23-31 | every kept timestamp is at or before 2022-10-07 00:00, ascending |
| GliderExtraction.CutoffFiltersSorted | glider_def_and_processing/glider_data_extraction.py:25-31 | the cutoff fails exactly when every timestamp is after the end; otherwise it keeps precisely the triples at or before the end, with multiplicity and sorted |
| GliderExtraction.UpToEmpty | glider_def_and_processing/glider_data_extraction.py:28-31 | nothing survives the cutoff exactly when every input key is after the end |
| GliderExtraction.KeyIsNotAfterEnd | glider_def_and_processing/glider_data_extraction.py:27-28 | the key comparison with the end is the inclusive datetime comparison |
| GliderExtraction.SortedTimesInOrder | glider_def_and_processing/glider_data_extraction.py:25 | triples sorted by key have ascending datetimes |
| GliderExtraction.KeptBeforeEnd | glider_def_and_processing/glider_data_extraction.py:28 | triples with key at most the end key are at or before the end datetime |
| GliderExtraction.ExtractSorted | glider_data_extraction.py:10-21 | the older version fails exactly when combine_date_time fails; otherwise it returns the sorted triples, no row dropped |
| GliderExtraction.ExtractSortedErrors | glider_data_extraction.py:12 | errors come only from combine_date_time, and empty input raises IndexError there |
| GliderExtraction.ExtractUntilCutoff | glider_def_and_processing/glider_data_extraction.py:14-31 | the later version propagates combine_date_time's failure and otherwise applies sort and cutoff |
| VesselRecords.EchoFileName | src/vessel_echo_processing/vessel_echo_data_extraction.py:22 | the file name is at most ten characters of the path followed by .pkl |
| VesselRecords.EchoFileNameOfId | src/vessel_echo_processing/vessel_echo_data_extraction.py:22 | a path ending in a ten-character id and a twenty-character suffix gives id.pkl, e.g. EB20220904.pkl |
| VesselRecords.EchoFileNameShort | vessel_echo_data_extraction.py:19 | a path of at most twenty characters gives just .pkl |
| VesselRecords.ExtractEcho | src/vessel_echo_processing/vessel_echo_data_extraction.py:16-19 | lons and lats unchanged and the times from combine_date_time, all of one length; combine_date_time's failure propagates |
| VesselRecords.Indexer | src/vessel_fishing_processing/vessel_fishing_haul_csv2pkl.py:34 | get_indexer gives the first position of a column name, or -1 when absent |
| VesselRecords.FirstRow | src/vessel_fishing_processing/vessel_fishing_haul_csv2pkl.py:17-18 | finds the first row of the haul, and none exactly when no row matches |
| VesselRecords.KeepNonZeroAtPositions | src/vessel_fishing_processing/vessel_fishing_haul_csv2pkl.py:44-46 | the filter keeps exactly the elements at the nonzero-mass positions, in order |
| VesselRecords.SpeciesOf | src/vessel_fishing_processing/vessel_fishing_haul_csv2pkl.py:34-46 | every kept mass is nonzero (NaN included) |
| VesselRecords.SpeciesAligned | src/vessel_fishing_processing/vessel_fishing_haul_csv2pkl.py:36-46 | species, masses and colours are filtered jointly: entry j of each comes from the same column between ANE and OT, every nonzero column is kept, order preserved |
| VesselRecords.RecordOf | src/vessel_fishing_processing/vessel_fishing_haul_csv2pkl.py:20-51 | start and end coordinates (NaN as None), date and transect come from the row, and every mass is nonzero |
| VesselRecords.ExtractFishing | src/vessel_fishing_processing/vessel_fishing_haul_csv2pkl.py:16-66 | a missing haul raises ValueError; otherwise the first matching row's record is returned and the file is named haul_{transect}_{haul}.pkl |
| VesselRecords.ExtractFishingOld | fishing_data_processing/vessel_fishing_data_extraction.py:17-67 | a missing haul raises ValueError; otherwise the record has no transect and the file is named haul_{haul}.pkl |
| VesselRecords.FishingVersionsAgree | fishing_data_processing/vessel_fishing_data_extraction.py:49-52 | both versions fail on the same hauls and differ only in the transect |
| VesselRecords.OldHaulFileNameInjective | fishing_data_processing/vessel_fishing_data_extraction.py:60 | distinct hauls get distinct file names |
| VesselRecords.HaulFileNameInjective | src/vessel_fishing_processing/vessel_fishing_haul_csv2pkl.py:59 | within one transect distinct hauls get distinct file names |
| Vessels.Orientation | Vessel_class.py:16-20 | the marker is ^ exactly when the first latitude is strictly below the last, and v otherwise, flat tracks included |
| Vessels.OrientationReverses | Vessel_class.py:16-20 | reversing a track that is not flat flips its marker |
| Vessels.NewVessel | Vessel_echo_class.py:5-20 | the three lists are stored unchanged with the orientation marker; empty latitudes raise IndexError |
| Vessels.Shifted | Vessel_echo_class.py:29 | each shifted longitude differs from the original by lon_shift, same length and order |
| Vessels.ShiftedComposes | Vessel_echo_class.py:29 | two shifts add up and shifting back undoes a shift |
| Vessels.LabelTime | Vessel_echo_class.py:30 | the label is the middle stamp (one more before it when the count is even); an empty list raises IndexError |
| Vessels.Negate | Vessel_fishing_class.py:15 | negation adds to zero, and negating None raises TypeError |
| Vessels.NewFishingVessel | Vessel_fishing_class.py:5-26 | succeeds exactly when both locations have two present coordinates; longitudes are stored negated, latitudes as given, the other fields unchanged, with the orientation rule |
| Vessels.FishingVesselNeedsCoordinates | Vessel_fishing_class.py:15-16 | a haul with a missing coordinate makes the constructor raise TypeError |
| Vessels.FishingLonsRoundTrip | Vessel_fishing_class.py:15-16 | negating the stored longitudes gives back the haul's coordinates |
| Vessels.ClosestPointOnEdge | fishing_data_processing/closest_point_on_edge.py:16-18 | NaN exactly when point = center; otherwise the result is at distance radius from center and, for positive radius, on the ray from center through point |
| Vessels.Scaled | fishing_data_processing/closest_point_on_edge.py:17-18 | scaling the offset by radius/norm gives length radius, parallel to the offset and pointing the same way for positive radius |
| Vessels.ClosestPointIdempotent | fishing_data_processing/closest_point_on_edge.py:16-18 | a point already on the circle is returned unchanged |
| Buoy.Numeric | src/oceanic_currents_winds/wind_currents_quiver.py:40-43 | a cell is usable exactly when it is numeric and not -9999.9 |
| Buoy.CleanRow | src/oceanic_currents_winds/wind_currents_quiver.py:46 | current speed in m/s is the cm/s value divided by 100; other fields are kept |
| Buoy.Clean | src/oceanic_currents_winds/wind_currents_quiver.py:40-51 | dropping incomplete rows never adds a row |
| Buoy.CleanExtremes | src/oceanic_currents_winds/wind_currents_quiver.py:50-51 | a table of complete rows loses none, and a table without one keeps nothing |
| Buoy.CleanAppend | src/oceanic_currents_winds/wind_currents_quiver.py:50-51 | cleaning works row by row: cleaning a concatenation concatenates the cleanings |
| Buoy.CleanCount | src/oceanic_currents_winds/wind_currents_quiver.py:50-51 | the cleaned table has one row per complete input row |
| Buoy.CleanFromRows | src/oceanic_currents_winds/wind_currents_quiver.py:50-51 | cleaned row j is the cleaning of the complete input row preceded by exactly j complete rows, so order is kept |
| Buoy.CleanWrittenRoundTrip | src/oceanic_currents_winds/wind_currents_quiver.py:40-51 | cleaning rows written back in cm/s returns them unchanged, provided no field is the placeholder |
| Buoy.WindVector | src/oceanic_currents_winds/wind_currents_quiver.py:75-81 | the wind vector points against its bearing with length equal to the speed |
| Buoy.CurrentVector | src/oceanic_currents_winds/wind_currents_quiver.py:84-87 | the current vector points along its bearing with length equal to the speed |
| Buoy.UnitComponents | src/oceanic_currents_winds/wind_currents_quiver.py:80-87 | scaling a unit vector by k gives projection k and squared length k² |
| Buoy.RowComponents | src/oceanic_currents_winds/wind_currents_quiver.py:75-87 | each row's wind and current vectors have the row's speeds as lengths |
| Buoy.VectorComponents | src/oceanic_currents_winds/wind_currents_quiver.py:63-90 | one component row per input row, in order |
| Buoy.WindOpposesCurrent | src/oceanic_currents_winds/wind_currents_quiver.py:80-87 | with equal speed and direction the wind vector is the negated current vector |
| DensityGrid.SalinityRange | TS_diagram_WIP/pot_dens_grid.py:16-17 | the salinity range is 0.99·min to 1.01·max |
| DensityGrid.TemperatureRange | TS_diagram_WIP/pot_dens_grid.py:19-20 | both temperature ends move by 0.1·max, so the span grows by 0.2·max |
| DensityGrid.Axis | TS_diagram_WIP/pot_dens_grid.py:27-28 | the axis starts at start with n points spaced by step |
| DensityGrid.DensityTable | TS_diagram_WIP/pot_dens_grid.py:25-32 | pdens is ydim × xdim with pdens[j][i] + 1000 = rho(si[i], CT(si[i], thetai[j]), 0) |
| DensityGrid.PotentialDensityGrid | TS_diagram_WIP/pot_dens_grid.py:5-34 | ValueError exactly when either input has no sample or a dimension is negative; otherwise si and thetai are the axes from the nanmin/nanmax ranges with steps 0.1 and 1, and pdens is the density table over them |
| DensityGrid.GridCells | TS_diagram_WIP/pot_dens_grid.py:27-32 | on success cell [j, i] is rho(si[i], CT_from_pt(si[i], thetai[j]), 0) - 1000 with si[i] = smin + 0.1·i and thetai[j] = thetamin + j |
| DensityGrid.SalinityAxisCovers | TS_diagram_WIP/pot_dens_grid.py:16-28 | for positive salinities the range strictly contains the data and the last axis point is within 0.05 of smax |
| DensityGrid.TemperatureAxisCovers | TS_diagram_WIP/pot_dens_grid.py:19-27 | for a positive maximum the range strictly contains the data and the last axis point is within 0.5 of thetamax |
| DensityGrid.NanSamplesIgnored | TS_diagram_WIP/pot_dens_grid.py:16-20 | inserting a NaN sample anywhere does not change the grid |
| DensityGrid.NanExtremaIgnoreNone | TS_diagram_WIP/pot_dens_grid.py:16-20 | inserting a NaN does not change nanmin or nanmax |
| DensityGrid.SameSamplesSameMin | TS_diagram_WIP/pot_dens_grid.py:16 | nanmin depends only on the set of present values |
| DensityGrid.SameSamplesSameMax | TS_diagram_WIP/pot_dens_grid.py:17 | nanmax depends only on the set of present values |
| Anchovy.MinOf | summarizing_anchovy_detection.py:21 | min is a member no larger than any element |
| Anchovy.MaxOf | summarizing_anchovy_detection.py:22 | max is a member no smaller than any element |
| Anchovy.DayCoverage | summarizing_anchovy_detection.py:17-24 | an empty file raises IndexError; a file counts exactly when its middle row's date lies in the window, and then its bar spans the file's min and max latitude |
| Anchovy.InWindowDays | summarizing_anchovy_detection.py:19 | a midnight date is in the window exactly when it is 23 September to 6 October 2022 |
| Anchovy.Update | summarizing_anchovy_detection.py:36-55 | the indices stay in range; at most one segment is emitted, only when a zero row closes an open run, and it is (start day, lat[start], lat[relay]) |
| Anchovy.Process | summarizing_anchovy_detection.py:36-62 | after the update, an extra segment (start day, lat[start], lat[last row]) is emitted exactly when a run is still open |
| Anchovy.Runs | summarizing_anchovy_detection.py:30-62 | a file emits at most two segments per row |
| Anchovy.RunFromBound | summarizing_anchovy_detection.py:36-62 | the remaining rows emit at most two segments each |
| Anchovy.Opens | summarizing_anchovy_detection.py:44-46 | a detection with no open run opens one with start = relay = i |
| Anchovy.DetectionInRun | summarizing_anchovy_detection.py:40-48 | in an open run a detection moves relay when it is within 1° and on relay's day, and otherwise changes nothing |
| Anchovy.SilenceInRun | summarizing_anchovy_detection.py:49-55 | in an open run a zero row keeps the run when it is near, and otherwise closes it, keeping relay and emitting one segment |
| Anchovy.StaleRelayIgnored | summarizing_anchovy_detection.py:38-55 | with no open run the stale relay does not affect the output or whether a run opens |
| Anchovy.ProcessKeepsInvariant | summarizing_anchovy_detection.py:36-62 | each step keeps the loop invariant: while a run is open, start and relay are detections of the same day with start <= relay < i |
| Anchovy.ProcessExplained | summarizing_anchovy_detection.py:49-62 | every segment emitted by a step starts at a detection and ends at a latitude from the file |
| Anchovy.RunFromExplained | summarizing_anchovy_detection.py:36-62 | every segment of the remaining rows is explained by the file |
| Anchovy.RunsExplained | summarizing_anchovy_detection.py:30-62 | every segment the script plots starts at a detected row |
| Anchovy.NoDetectionNoSegments | summarizing_anchovy_detection.py:44-62 | a file without detections plots nothing |

## Left out

- File I/O: `read_csv`, `read_excel`, `loadmat`, pickle dumps, `os.listdir` and the colour palette file. Tables, palettes and file names arrive as values.
- Plotting. Every matplotlib and cartopy call is left out. The anchovy script's plot calls become returned segments, and `plot_transect`'s inputs become `Vessels.Shifted` and `Vessels.LabelTime`.
- Library numerics are parameters. gsw's `Nsquared`, `rho` and `CT_from_pt`, scipy's `butter` and `filtfilt`, `RegularGridInterpolator`, `np.sqrt`, `10**x`, `np.log10`, `np.sin`/`np.cos` after `np.deg2rad`, and `matlab2python` each get only the law a proof needs: length preservation, the unit circle, or the square root of a square.
- The padding limit of `filtfilt` is a named constant rather than scipy's exact `3·max(len(a), len(b))`.
- IEEE floating point. Values are exact reals. Rounding error, overflow and NaN propagation beyond the `Option` encoding are not modelled.
- Timestamps in daily averaging and in the anchovy rows are integer day ordinals. The `Time_avg_UTC` and `GPS_date` string parses in the anchovy script are not modelled, and those rows carry their parsed day.
- The buoy timestamp parse (`%Y %m %d %H`) is left out. A timestamp cell is either missing or kept as its text.
- `pd.to_numeric` on text: a cell is either a number or text. Strings that pandas would coerce to numbers are not modelled.
- DataFrames with duplicate column names, and species cells that are not numeric.
- In `strptime`, Unicode decimal digits and locale month names are left out: only ASCII digits and English month abbreviations are accepted.
- The `combine_date_time` example with the literal 20220904 and " 10:56:01.6480" is stated for every datetime by `DateTimeParse.CombineReadsBack` rather than as a literal instance, because the literal strings are too large to unfold in a proof.
- NaN latitudes in the anchovy script's daily GPS files: `min`/`max` over them are taken over real values only. NaN `Sv_lin` and `Latitude_avg` cells in the acoustic rows are modelled, and a NaN `Sv_lin` counts as a detection, as `!= 0` makes it.
- Vessels.ClosestPointOnEdge: returns NaN (`None`) for point = center instead of requiring point ≠ center, so the degenerate case is modelled rather than excluded.
- AcousticRemap.RemapDense: the older version builds its interpolator grid from `np.unique` of Python datetimes (the `matlab2python` output). The model collapses that axis to reals, as in the later version, so its success case is stated for a numeric time axis. Whether scipy raises TypeError on a datetime grid is not modelled.
- AcousticRemap.DenseShapeMismatch: holds for a numeric time axis only; on the datetime axis the older version really builds, scipy may raise TypeError before its shape check, which is not modelled.
- Stratification.BvFreqAvg: the meshgrid arrays `X2` and `Y2` are not returned; the meshgrid contributes only its ValueError on a ragged `depth_avg`, which is numpy 1.24 and later. An older numpy would build an object array and return for k = 1.
- AcousticRemap.Remap: its own contract gives only the output length; the layout and values are stated by `AcousticRemap.RemapLayout`.
- Broken duplicates are not part of this model. Oceanic_currents/daily_averaging.py returns an unbound `t2`. chart_ancho_detected.py indexes with a `None` relay. TS_diagram_WIP/backscatter_matrix_WIP.py uses undefined names. TS_acoustic_WIP.py and TS_backscatter_WIP.py call a list. CTD_WIP/CTD_profile.py blocks on `input()`.
- The Glider classes, src/config.py, the map and TS plotting scripts and the compile/loader scripts are not part of this model. They store fields, define paths, draw, or read files.

## Findings

| source | as written | input that shows it | evidently intended | confidence | as-written member | corrected member |
|---|---|---|---|---|---|---|
| echosounding_profile.py:80-89 | `interp1d` with `kind='linear'` and `fill_value='extrapolate'` over the valid columns; with exactly one valid column its segment search picks indices -1 and 0, the same knot, so every value is 0/0 = NaN and `round` raises ValueError | a matrix whose threshold is exceeded in exactly one column, e.g. two time columns where only the first has a value above 0.024 | a single valid column fills every column with its own boundary (the `np.any(valid_times)` guard admits it) | not executed | Envelope.SingleValidColumnRaises | Envelope.FixedKeepsValid |
