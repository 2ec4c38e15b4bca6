# Contractility analysis: cycle labelling, baselines and cycle averaging

This project models the table-manipulation core of `functions.py` from the
contractility-analysis scripts. A recording of a beating cardiac tissue sample is
one table with one row per sample. The row holds the acquisition time, the
calibrated (per-cycle) time, the measured width and length (`RRWidth`, `RRLength`),
the width and length strains, and four derived columns: `Cycle`,
`Start time (s)`, `width_baseline` and `length_baseline`. The operations are:

- `update_cycle_no(i, t_start, t_end)` first resets the whole `Cycle` column to 0.
  It then labels `i` on every row whose time lies in the closed window.
- `update_start_time(i)` writes the time of the first row of cycle `i` to every
  row of the cycle.
- `update_baseline_spontaneous_beating(i)` writes two means to every row of the
  cycle: the mean of the cycle's last 15 widths and of its last 15 lengths.
- `update_baseline_electrical_pacing(i)` sorts copies of the cycle's widths and
  lengths. It writes the mean of the first 4 sorted widths and the mean of the
  last 5 sorted lengths to every row of the cycle.
- `average_cycle(strain_type, start_cycle, end_cycle)` gathers the cycles
  `start_cycle .. end_cycle-1` as (calibrated time, strain) series. It builds a
  grid in steps of 0.02. It starts at the latest of the cycles' earliest times and
  runs up to, but not including, one step past the earliest of their latest times.
  It interpolates every cycle onto that grid and returns the pointwise mean and
  spread across cycles.

The module layout:

- `wrappers.dfy` (`Wrappers`): the `Option`, `Result` and `Outcome` types.
- `stats.dfy` (`Stats`): exact sums, means, min/max, ascending sort, Python
  slicing with negative and out-of-range bounds, and population variance.
- `columns.dfy` (`Columns`): column-level operations. These are the selection
  `df[df['Cycle'] == i]`, the cycle labelling, the first row of a cycle, the
  masked broadcast `df.loc[df['Cycle'] == i, c] = v`, and the start-time column.
- `baseline.dfy` (`Baseline`): the two baseline rules as functions of a cycle's
  values, with their properties. It also holds the in-place ascending sort of an
  array and the sorted copy it produces.
- `alignment.dfy` (`Alignment`): the pure half of `average_cycle`. That is the cycle
  range, the grid (`np.arange` on exact reals), linear interpolation
  (`np.interp`), the pointwise mean and variance, and the loops that build the
  lists of datasets and interpolated datasets.
- `table.dfy` (`Contractility`): the table as a class `Table` whose columns are
  arrays. Each operation is a method that changes exactly the columns the
  source assigns, proved against the functions of the other modules.

The model keeps these behaviours of the code, which a reader may not expect:

- Labelling resets the whole `Cycle` column, so labels of earlier calls are
  wiped rather than accumulated.
- The pacing width baseline averages 4 values (slice `[0:4]`), although the
  docstring speaks of five.
- A cycle without rows is not an error for either baseline rule. The means are
  NaN but are written to no row, so nothing changes. `update_start_time` does
  fail on such a cycle, because `float()` of an empty selection raises.
- In `average_cycle`, an empty cycle range fails (`max()` of nothing), and so
  does a cycle without rows (`min()` of nothing, reported for the first such
  cycle in range order). Cycles whose time ranges do not overlap are not an
  error. When the latest start is at least one step (0.02) past the earliest
  end, the grid is empty and so are the mean and variance. With a smaller gap
  the grid holds one point, and the earlier-ending cycle is read there as its
  last value. A cycle with a single sample is accepted.
- After `update_cycle_no`, only cycle `i` and cycle 0 have rows. So
  `average_cycle` over a range holding two different non-zero cycle numbers
  always fails: at least one of them has no rows.
- Interpolation follows `np.interp` on non-decreasing sample times: where a
  calibrated time repeats, a grid point equal to it takes the strain of the
  last row with that time.

## Model

| member | source | states |
|---|---|---|
| `Contractility.Table.UpdateCycleNo` | functions.py:11-13 | The new `Cycle` column is the window labelling of the times: `i` inside `[t_start, t_end]`, 0 elsewhere, whatever the old labels were; only `Cycle` may change. |
| `Columns.Labels` | functions.py:11-13 | The labelling has one label per row. |
| `Columns.LabelledRowsAreWindow` | functions.py:11-13 | For `i != 0`, a row carries `i` exactly when its time lies in the closed window, and the rows labelled `i` select exactly the in-window times in table order. |
| `Columns.InWindow` | functions.py:12 | Every time the window mask keeps lies in `[t_start, t_end]`. |
| `Columns.LabelledRowsContiguous` | functions.py:11-13 | In a time-ordered table, the rows labelled `i != 0` form one contiguous block. |
| `Columns.Select` | functions.py:22 | `df[df['Cycle'] == i][c]` has one value per row that carries `i`, each drawn from the column. |
| `Columns.SelectSameLength` | functions.py:34-36 | Two columns selected by the same cycle have the same number of values. |
| `Columns.FirstRow` | functions.py:22-23 | The first row of cycle `i` carries `i`, no earlier row does, and there is none exactly when no row carries `i`. |
| `Columns.SelectHeadIsFirstRow` | functions.py:22-23 | `head(1)` of a non-empty selection is the value on the cycle's first row. |
| `Columns.CycleStart` | functions.py:22-23 | The start time is absent exactly when no row carries `i`; otherwise it is the time of some row of the cycle. |
| `Columns.CycleStartIsFirstRow` | functions.py:22-23 | The start time is the time on the cycle's first row; in a time-ordered table it is the cycle's earliest time. |
| `Columns.Broadcast` | functions.py:24 | The masked assignment keeps the column's length. |
| `Columns.BroadcastEffect` | functions.py:24 | After the masked assignment every row of cycle `i` holds `v`, every other row keeps its value, and with no row of cycle `i` the column is unchanged. |
| `Columns.BroadcastIdempotent` | functions.py:24 | Assigning the same value to the same cycle twice equals assigning it once. |
| `Columns.StartTimeColumn` | functions.py:22-24 | The new start-time column is absent (the call raises) exactly when no row carries `i`, and otherwise has the column's length. |
| `Columns.StartTimeIdempotent` | functions.py:22-24 | Calling `update_start_time(i)` twice leaves the column as one call does. |
| `Columns.LabelThenStart` | functions.py:11-24 | Labelling a non-empty window and then stamping its start time writes the first in-window time to the window's rows; in a time-ordered table that time is the smallest in the window. |
| `Contractility.Table.UpdateStartTime` | functions.py:22-24 | Fails exactly when no row carries `i`, leaving the column as it was; otherwise the new start-time column is the old one with the cycle's first time written on its rows; only `Start time (s)` may change. |
| `Contractility.Table.WriteBaselines` | functions.py:57-58 | Both baseline columns become the old columns with the given width and length baselines written on the rows of cycle `i`; the cycle labels, widths and lengths are unchanged. |
| `Contractility.Table.WriteCycle` | functions.py:37-38 | One masked assignment: the column becomes the old column with `v` written on the rows of cycle `i`. |
| `Contractility.Table.UpdateBaselineSpontaneous` | functions.py:34-38 | With no row in cycle `i` neither baseline column changes; otherwise both become the old column with the tail-15 mean of the cycle's widths (resp. lengths) written on the cycle's rows. |
| `Stats.SuffixSlice` | functions.py:35-36 | `tail(15)`, i.e. the slice `[-15:]`, takes the last `min(15, n)` values. |
| `Baseline.SpontaneousBaseline` | functions.py:35-36 | `tail(15)[c].mean()`: the mean of the last `min(15, n)` values lies between the cycle's minimum and maximum value. |
| `Baseline.SpontaneousShortCycle` | functions.py:35-36 | A cycle of at most 15 rows averages all its rows. |
| `Baseline.SpontaneousIgnoresEarlyRows` | functions.py:35-36 | Rows before the last 15 do not affect the spontaneous baseline. |
| `Baseline.SpontaneousConstantTail` | functions.py:35-36 | If the last `min(15, n)` values all equal `c`, the baseline is `c`. |
| `Contractility.Table.UpdateBaselinePacing` | functions.py:50-58 | With no row in cycle `i` neither baseline column changes; otherwise they become the old columns with the pacing width and length baselines written on the cycle's rows. |
| `Contractility.PacingWidth` | functions.py:51-52 | Copying the widths into an array, sorting it in place and averaging `[0:4]` yields the pacing width baseline. |
| `Contractility.PacingLength` | functions.py:53-54 | Copying the lengths into an array, sorting it in place and averaging `[-5:]` yields the pacing length baseline. |
| `Baseline.SortInPlace` | functions.py:52 | `ndarray.sort()` leaves the array ascending and a permutation of its old contents. |
| `Baseline.SortedCopy` | functions.py:51-52 | The sorted array is exactly the ascending arrangement of the channel. |
| `Stats.SortSeq` | functions.py:52 | The ascending arrangement is sorted, a permutation of its input, and keeps its length and sum. |
| `Stats.SortedUnique` | functions.py:52 | Two ascending arrangements of the same multiset are equal. |
| `Stats.PySlice` | functions.py:55-56 | Python slicing never yields more values than the sequence holds, and on in-range bounds `s[a:b]` is exactly the values at positions `a .. b-1`. |
| `Stats.PrefixSlice` | functions.py:55 | The slice `[0:k]` takes the first `min(k, n)` values. |
| `Baseline.Smallest` | functions.py:55 | The sorted prefix holds `min(4, n)` values drawn from the channel, none larger than any value left out; it is the prefix of the ascending arrangement. |
| `Baseline.Largest` | functions.py:56 | The sorted suffix holds `min(5, n)` values drawn from the channel, none smaller than any value left out; it is the suffix of the ascending arrangement. |
| `Baseline.PacingOrderIndependent` | functions.py:50-56 | Both pacing baselines depend only on the multiset of the cycle's values, not on row order. |
| `Baseline.PacingWidthBaseline` | functions.py:51-55 | The mean of `[0:4]` of the sorted widths lies between the cycle's minimum width and its mean width. |
| `Baseline.PacingLengthBaseline` | functions.py:53-56 | The mean of `[-5:]` of the sorted lengths lies between the cycle's mean length and its maximum length. |
| `Baseline.PacingWidthExample` | functions.py:55 | Widths 5, 1, 2, 8, 9 give the width baseline 4 (the mean of 1, 2, 5, 8). |
| `Baseline.PacingLengthExample` | functions.py:56 | Lengths 1, 2, 3, 4, 9, 10 give the length baseline 5.6 (the mean of 2, 3, 4, 9, 10). |
| `Stats.SplitMean` | functions.py:55-56 | When every value of one part is at most every value of the other, the lower part's mean, the whole mean and the upper part's mean are in that order. |
| `Contractility.Table.AverageCycle` | functions.py:60-90 | The result is `AverageCycles` of the cycles `start_cycle .. end_cycle-1` read from the table, so every property below holds of it; the table is not changed. |
| `Contractility.Table.StrainColumn` | functions.py:77 | `df[strain_type]` is one of the two strain columns. |
| `Alignment.CycleSeries` | functions.py:75-78 | A cycle's time and strain series both have one value per row of the cycle. |
| `Alignment.CycleRange` | functions.py:73-79 | There are `end - start` datasets (none for an empty range), the `d`-th being cycle `start + d`, each with equal-length x and y. |
| `Alignment.GatherCycles` | functions.py:73-79 | The first loop builds exactly the cycle range. |
| `Alignment.FirstEmpty` | functions.py:81 | The first dataset without rows, if any: it is empty, all earlier ones are not, and there is none exactly when every dataset has rows. |
| `Alignment.FindEmptyCycle` | functions.py:81 | Scanning the datasets in order finds exactly the first one without rows. |
| `Stats.Min` | functions.py:81-82 | `min()` returns one of the values and none is smaller. |
| `Stats.Max` | functions.py:81-82 | `max()` returns one of the values and none is larger. |
| `Alignment.GridStart` | functions.py:81 | The grid starts at a value that no cycle's earliest time exceeds and that is the earliest time of some cycle. |
| `Alignment.GridStop` | functions.py:82 | The grid bound is a value that no cycle's latest time undercuts and that is the latest time of some cycle. |
| `Alignment.GridStartIsLatestStart` | functions.py:81 | An earliest time of one cycle that no cycle's earliest time exceeds is the grid start. |
| `Alignment.GridStopIsEarliestEnd` | functions.py:82 | A latest time of one cycle that no cycle's latest time undercuts is the grid's stop value. |
| `Alignment.Ceil` | functions.py:80-83 | The ceiling is the least integer at or above its argument. |
| `Alignment.TickCount` | functions.py:80-83 | The point count of `np.arange` leaves every point below the stop and the next one at or past it. |
| `Alignment.Arange` | functions.py:80-83 | `np.arange(start, stop, step)` is `start + k*step` for `k = 0, 1, ...`, every point in `[start, stop)`, as many as fit. |
| `Alignment.CommonGrid` | functions.py:80-83 | `common_x` is the points latest-start + k·0.02, all in [latest start, earliest end + 0.02), continuing until the next point would reach that bound. |
| `Alignment.GridInsideDomains` | functions.py:80-83 | Every grid point lies in every cycle's time range (up to one step past the earliest end), the grid begins at the latest start and rises by 0.02, and it is non-empty when the latest start is at most the earliest end. |
| `Alignment.DomainExample` | functions.py:80-83 | Cycles spanning [0, 5], [0.1, 4.8] and [0, 6] give a grid of 236 points from 0.1 to 4.8. |
| `Alignment.GridEndsExample` | functions.py:81-82 | For those cycles the grid runs from 0.1 to 4.8. |
| `Alignment.GridLengthExample` | functions.py:80-83 | `np.arange(0.1, 4.82, 0.02)` has 236 points, the first 0.1 and the last 4.8. |
| `Alignment.Interp` | functions.py:86 | `np.interp` at one point: left of the first sample time it gives the first value, and on non-decreasing times at or right of the last sample time it gives the last value. |
| `Alignment.InterpAtSample` | functions.py:86 | On non-decreasing sample times, interpolating at a sample time returns the value of the last sample with that time (on strictly increasing times, that sample's own value). |
| `Alignment.InterpRepeatedSample` | functions.py:86 | With sample times 0, 1, 1, 2 and values 0, 10, 20, 30, interpolating at 1 gives 20, the value of the repeated time's last sample. |
| `Alignment.InterpWithin` | functions.py:86 | Interpolated values stay within any bounds that hold for every sample value. |
| `Alignment.InterpolateSeries` | functions.py:86 | One interpolated value per grid point. |
| `Alignment.Interpolated` | functions.py:84-87 | One interpolated row per cycle, each the grid's length. |
| `Alignment.InterpolateAll` | functions.py:84-87 | The second loop builds exactly the interpolated rows. |
| `Alignment.ColumnAt` | functions.py:88-89 | The values across cycles at one grid point, one per cycle. |
| `Alignment.PointwiseMean` | functions.py:88 | The mean across cycles has one entry per grid point. |
| `Alignment.PointwiseVariance` | functions.py:89 | The variance across cycles has one entry per grid point. |
| `Alignment.AverageCycles` | functions.py:73-90 | Fails exactly on an empty range or a cycle without rows, with `EmptyCycleRange` for the former and `EmptyCycle` naming the first empty cycle for the latter; on success both arrays have the grid's length. |
| `Alignment.RelabelledRangeFails` | functions.py:73-81 | Averaging, over the labelling left by `update_cycle_no`, a cycle range that holds two different non-zero cycle numbers always fails. |
| `Alignment.AverageOfCycles` | functions.py:80-90 | From the datasets on, the code computes exactly `AverageCycles`. |
| `Alignment.TrendIsMeanOfCycles` | functions.py:88 | Each entry of `ave_trend` is the mean over cycles of their interpolated values at that grid point. |
| `Alignment.TrendWithinData` | functions.py:86-88 | When every cycle's strain lies in `[lo, hi]`, so does every entry of the average trend. |
| `Alignment.IdenticalCycles` | functions.py:88-89 | Cycles whose interpolations onto the common grid agree average to that interpolation, with zero variance everywhere. |
| `Stats.Variance` | functions.py:89 | The population variance across cycles (what `np.std` squares) is never negative. |
| `Stats.ConstantVariance` | functions.py:89 | Values that are all equal have zero variance. |
| `Stats.Mean` | functions.py:35-36 | `mean()`: the mean times the number of values is their sum. |
| `Stats.MeanBounds` | functions.py:88 | A mean lies within any bounds that hold for every value averaged. |
| `Stats.MeanOfConstant` | functions.py:88 | The mean of values all equal to `c` is `c`. |

## Left out

- `strain_rate_plot` (functions.py:92-114) is not part of this model. It only draws
  with matplotlib, and its smoothing is floating-point convolution.
- Plotting and the return of plot objects are left out. Only the values that
  `average_cycle` returns are modelled.
- The implicit global `df` becomes the `Table` object. Pandas and NumPy are
  replaced by sequence functions: selection, `head`, `tail`, `loc`, `np.array`,
  `sort`, `np.mean`, `np.arange`, `np.interp` and `np.std`.
- Every value is an exact `real`. Floating-point rounding is not modelled. In
  particular, `np.arange`'s float accumulation can add or drop the last grid
  point, whereas here the point count is `ceil((stop - start) / step)` computed
  exactly.
- Alignment.Interp: `np.interp` leaves its result unspecified when the sample
  times decrease somewhere. The model then scans the samples from the left,
  and its contract promises the end values only for non-decreasing times.
- Alignment.PointwiseVariance: states the population variance (`np.std` with
  `ddof = 0`) without the square root, because square roots of reals are not
  computable here.
- NaN is not modelled. The baseline rules on a cycle without rows produce NaN
  means that reach no row, so the model leaves the columns as they were.
- A column that does not yet exist in the data frame (pandas creates it on first
  assignment, filled with NaN) is modelled as already present with given values.
- `strain_type` names a column of the data frame. The model only offers the
  width and length strain columns, through `StrainType`.
