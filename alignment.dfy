/**
 * The structural half of average_cycle: the cycles start_cycle..end_cycle-1,
 * each as a (calibrated time, strain) series; the common grid running from the
 * latest cycle start to the earliest cycle end (plus one step); linear
 * interpolation of every cycle onto that grid; and the pointwise mean and
 * population variance across cycles.
 */
module Alignment {
  import opened Wrappers
  import opened Stats
  import opened Columns

  /** Grid resolution of np.arange(..., 0.02). */
  const Step: real := 0.02

  /** One cycle's calibrated times (x) and strain values (y), in table order. */
  datatype Series = Series(x: seq<real>, y: seq<real>)

  /** Both failures are Python ValueErrors: max() of no cycles, min() of a cycle without rows. */
  datatype AlignError = EmptyCycleRange | EmptyCycle(cycle: int)

  /** ave_trend and the squared std (population variance), one entry per grid point. */
  datatype Trend = Trend(mean: seq<real>, variance: seq<real>)

  // ---------------------------------------------------------------------------
  // The cycles of a range
  // ---------------------------------------------------------------------------

  /** {'x': df_cycle['Calibrate time (s)'], 'y': df_cycle[strain_type]} for cycle i. */
  function CycleSeries(keys: seq<int>, xs: seq<real>, ys: seq<real>, i: int): (s: Series)
    requires |keys| == |xs| == |ys|
    ensures |s.x| == |s.y| == multiset(keys)[i]
  {
    Series(Select(keys, xs, i), Select(keys, ys, i))
  }

  ghost predicate WellFormed(ds: seq<Series>)
  {
    forall d :: 0 <= d < |ds| ==> |ds[d].x| == |ds[d].y|
  }

  /** The datasets list built by `for i in range(first, last)`: one series per cycle, in order. */
  function CycleRange(keys: seq<int>, xs: seq<real>, ys: seq<real>, first: int, last: int): (ds: seq<Series>)
    requires |keys| == |xs| == |ys|
    ensures |ds| == if first < last then last - first else 0
    ensures forall d :: 0 <= d < |ds| ==> ds[d] == CycleSeries(keys, xs, ys, first + d)
    ensures WellFormed(ds)
    decreases last - first
  {
    if last <= first then []
    else CycleRange(keys, xs, ys, first, last - 1) + [CycleSeries(keys, xs, ys, last - 1)]
  }

  /** The first series without rows, if any. */
  function FirstEmpty(ds: seq<Series>): (r: Option<nat>)
    ensures r.Some? ==> r.value < |ds| && |ds[r.value].x| == 0
    ensures r.Some? ==> forall d :: 0 <= d < r.value ==> |ds[d].x| > 0
    ensures r.None? <==> forall d :: 0 <= d < |ds| ==> |ds[d].x| > 0
  {
    if ds == [] then None
    else if |ds[0].x| == 0 then Some(0)
    else
      match FirstEmpty(ds[1..])
      case None => None
      case Some(d) => Some(d + 1)
  }

  ghost predicate AllNonEmpty(ds: seq<Series>)
  {
    forall d :: 0 <= d < |ds| ==> |ds[d].x| > 0
  }

  // ---------------------------------------------------------------------------
  // The common grid
  // ---------------------------------------------------------------------------

  /** max(min(data['x']) for data in datasets): the latest start among the cycles. */
  function GridStart(ds: seq<Series>): (lo: real)
    requires |ds| > 0 && AllNonEmpty(ds)
    ensures forall d :: 0 <= d < |ds| ==> Min(ds[d].x) <= lo
    ensures exists d :: 0 <= d < |ds| && lo == Min(ds[d].x)
  {
    var mins := seq(|ds|, d requires 0 <= d < |ds| => Min(ds[d].x));
    assert forall d :: 0 <= d < |ds| ==> mins[d] == Min(ds[d].x);
    Max(mins)
  }

  /** min(max(data['x']) for data in datasets): the earliest end among the cycles. */
  function GridStop(ds: seq<Series>): (hi: real)
    requires |ds| > 0 && AllNonEmpty(ds)
    ensures forall d :: 0 <= d < |ds| ==> hi <= Max(ds[d].x)
    ensures exists d :: 0 <= d < |ds| && hi == Max(ds[d].x)
  {
    var maxs := seq(|ds|, d requires 0 <= d < |ds| => Max(ds[d].x));
    assert forall d :: 0 <= d < |ds| ==> maxs[d] == Max(ds[d].x);
    Min(maxs)
  }

  /** The least integer at or above q. */
  function Ceil(q: real): (n: int)
    ensures n as real - 1.0 < q <= n as real
  {
    var f := q.Floor;
    if f as real == q then f else f + 1
  }

  /** The k-th point of np.arange(start, ..., step). */
  function Tick(start: real, step: real, k: nat): real
  {
    start + k as real * step
  }

  /** Number of points of np.arange(start, stop, step): ceil((stop - start) / step), or 0. */
  function TickCount(start: real, stop: real, step: real): (n: nat)
    requires step > 0.0
    ensures forall k: nat :: k < n ==> Tick(start, step, k) < stop
    ensures stop <= Tick(start, step, n)
  {
    if stop <= start then 0
    else
      var n := Ceil((stop - start) / step);
      TickCountBounds(start, stop, step, n);
      n
  }

  lemma TickCountBounds(start: real, stop: real, step: real, n: nat)
    requires step > 0.0 && start < stop
    requires n == Ceil((stop - start) / step)
    ensures forall k: nat :: k < n ==> Tick(start, step, k) < stop
    ensures stop <= Tick(start, step, n)
  {
    var q := (stop - start) / step;
    assert q * step == stop - start;
    forall k: nat | k < n ensures Tick(start, step, k) < stop {
      ScaleStrict(k as real, q, step);
    }
    ScaleBound(q, n as real, step);
  }

  lemma ScaleStrict(x: real, y: real, k: real)
    requires x < y && k > 0.0
    ensures x * k < y * k
  {
  }

  /**
   * np.arange(start, stop, step) on exact reals: start, start + step, ...,
   * every point below stop, and as many as fit.
   */
  function Arange(start: real, stop: real, step: real): (g: seq<real>)
    requires step > 0.0
    ensures forall k :: 0 <= k < |g| ==> start <= g[k] < stop
    ensures forall k :: 0 <= k < |g| ==> g[k] == Tick(start, step, k)
    ensures stop <= Tick(start, step, |g|)
  {
    var n := TickCount(start, stop, step);
    seq(n, k requires 0 <= k < n => Tick(start, step, k))
  }

  /** The common_x of average_cycle. */
  function CommonGrid(ds: seq<Series>): (g: seq<real>)
    requires |ds| > 0 && AllNonEmpty(ds)
    ensures forall k :: 0 <= k < |g| ==> g[k] == GridStart(ds) + k as real * Step
    ensures forall k :: 0 <= k < |g| ==> GridStart(ds) <= g[k] < GridStop(ds) + Step
    ensures GridStop(ds) + Step <= GridStart(ds) + |g| as real * Step
  {
    Arange(GridStart(ds), GridStop(ds) + Step, Step)
  }

  /**
   * Every grid point lies in every cycle's time range, up to one step past the
   * earliest cycle end; the grid starts at the latest cycle start and rises by one step.
   */
  lemma GridInsideDomains(ds: seq<Series>)
    requires |ds| > 0 && AllNonEmpty(ds)
    ensures forall k, d :: 0 <= k < |CommonGrid(ds)| && 0 <= d < |ds| ==>
      Min(ds[d].x) <= CommonGrid(ds)[k] < Max(ds[d].x) + Step
    ensures |CommonGrid(ds)| > 0 ==> CommonGrid(ds)[0] == GridStart(ds)
    ensures forall k :: 0 < k < |CommonGrid(ds)| ==> CommonGrid(ds)[k] == CommonGrid(ds)[k - 1] + Step
    ensures GridStart(ds) <= GridStop(ds) ==> |CommonGrid(ds)| > 0
  {
    var g := CommonGrid(ds);
    forall k | 0 < k < |g| ensures g[k] == g[k - 1] + Step {
      assert g[k] == Tick(GridStart(ds), Step, k);
      assert g[k - 1] == Tick(GridStart(ds), Step, k - 1);
    }
  }

  // ---------------------------------------------------------------------------
  // Linear interpolation (np.interp)
  // ---------------------------------------------------------------------------

  /**
   * np.interp(x, xp, fp) for one point on non-decreasing sample times: fp[0]
   * left of xp[0], the last fp at or right of the last xp, and otherwise the
   * straight line from (xp[j], fp[j]) towards (xp[j + 1], fp[j + 1]) for the
   * j with xp[j] <= x < xp[j + 1]. A repeated sample time therefore takes the
   * value of its last occurrence.
   */
  function Interp(xp: seq<real>, fp: seq<real>, x: real): (r: real)
    requires |xp| == |fp| > 0
    ensures x < xp[0] ==> r == fp[0]
    ensures Sorted(xp) && xp[|xp| - 1] <= x ==> r == fp[|fp| - 1]
    decreases |xp|
  {
    if |xp| == 1 || x < xp[0] then fp[0]
    else if x < xp[1] then (fp[1] - fp[0]) / (xp[1] - xp[0]) * (x - xp[0]) + fp[0]
    else Interp(xp[1..], fp[1..], x)
  }

  /**
   * At a sample time, interpolation returns the value of the last sample with
   * that time (on strictly increasing times, simply that sample's value).
   */
  lemma {:induction false} InterpAtSample(xp: seq<real>, fp: seq<real>, j: nat)
    requires |xp| == |fp| && j < |xp|
    requires Sorted(xp)
    requires j + 1 == |xp| || xp[j] < xp[j + 1]
    ensures Interp(xp, fp, xp[j]) == fp[j]
  {
    if j == 0 {
      if |xp| > 1 {
        assert (fp[1] - fp[0]) / (xp[1] - xp[0]) * (xp[0] - xp[0]) == 0.0;
      }
    } else {
      assert xp[0] <= xp[1] <= xp[j];
      assert xp[1..][j - 1] == xp[j] && fp[1..][j - 1] == fp[j];
      InterpAtSample(xp[1..], fp[1..], j - 1);
      assert Interp(xp, fp, xp[j]) == Interp(xp[1..], fp[1..], xp[j]);
    }
  }

  /** With sample times 0, 1, 1, 2 the repeated time 1 takes its second value, 20. */
  lemma InterpRepeatedSample(xp: seq<real>, fp: seq<real>)
    requires xp == [0.0, 1.0, 1.0, 2.0] && fp == [0.0, 10.0, 20.0, 30.0]
    ensures Interp(xp, fp, 1.0) == 20.0
  {
    InterpAtSample(xp, fp, 2);
  }

  /** Interpolated values stay within any bounds that hold for every sample value. */
  lemma {:induction false} InterpWithin(xp: seq<real>, fp: seq<real>, x: real, lo: real, hi: real)
    requires |xp| == |fp| > 0
    requires forall k :: 0 <= k < |fp| ==> lo <= fp[k] <= hi
    ensures lo <= Interp(xp, fp, x) <= hi
    decreases |xp|
  {
    if |xp| == 1 || x < xp[0] {
    } else if x < xp[1] {
      assert lo <= fp[0] <= hi && lo <= fp[1] <= hi;
      var v := (fp[1] - fp[0]) / (xp[1] - xp[0]) * (x - xp[0]) + fp[0];
      assert Interp(xp, fp, x) == v;
      LinearBetween(xp[0], xp[1], fp[0], fp[1], x);
      if fp[0] <= fp[1] {
        assert fp[0] <= v <= fp[1];
      } else {
        assert fp[1] <= v <= fp[0];
      }
    } else {
      InterpWithin(xp[1..], fp[1..], x, lo, hi);
    }
  }

  /** A point of the segment from (x0, f0) towards (x1, f1) lies between f0 and f1. */
  lemma LinearBetween(x0: real, x1: real, f0: real, f1: real, x: real)
    requires x0 <= x < x1
    ensures var v := (f1 - f0) / (x1 - x0) * (x - x0) + f0;
      (f0 <= f1 ==> f0 <= v <= f1) && (f1 <= f0 ==> f1 <= v <= f0)
  {
    var t := (x - x0) / (x1 - x0);
    RatioInUnit(x - x0, x1 - x0);
    assert (f1 - f0) / (x1 - x0) * (x - x0) == t * (f1 - f0);
  }

  lemma RatioInUnit(a: real, w: real)
    requires 0.0 <= a < w
    ensures 0.0 <= a / w < 1.0
  {
    assert a / w * w == a;
  }

  /** np.interp(common_x, data['x'], data['y']). */
  function InterpolateSeries(s: Series, grid: seq<real>): (v: seq<real>)
    requires |s.x| == |s.y| > 0
    ensures |v| == |grid|
  {
    seq(|grid|, k requires 0 <= k < |grid| => Interp(s.x, s.y, grid[k]))
  }

  /** interpolated_datasets: every cycle interpolated onto the grid. */
  function Interpolated(ds: seq<Series>, grid: seq<real>): (rows: seq<seq<real>>)
    requires WellFormed(ds) && AllNonEmpty(ds)
    ensures |rows| == |ds|
    ensures forall d :: 0 <= d < |rows| ==> |rows[d]| == |grid|
  {
    seq(|ds|, d requires 0 <= d < |ds| => InterpolateSeries(ds[d], grid))
  }

  // ---------------------------------------------------------------------------
  // Pointwise statistics across cycles (np.mean / np.std with axis=0)
  // ---------------------------------------------------------------------------

  /** The values of all rows at grid point k. */
  function ColumnAt(rows: seq<seq<real>>, k: nat): (c: seq<real>)
    requires forall d :: 0 <= d < |rows| ==> k < |rows[d]|
    ensures |c| == |rows|
  {
    seq(|rows|, d requires 0 <= d < |rows| => rows[d][k])
  }

  function PointwiseMean(rows: seq<seq<real>>, m: nat): (v: seq<real>)
    requires |rows| > 0
    requires forall d :: 0 <= d < |rows| ==> |rows[d]| == m
    ensures |v| == m
  {
    seq(m, k requires 0 <= k < m => Mean(ColumnAt(rows, k)))
  }

  function PointwiseVariance(rows: seq<seq<real>>, m: nat): (v: seq<real>)
    requires |rows| > 0
    requires forall d :: 0 <= d < |rows| ==> |rows[d]| == m
    ensures |v| == m
  {
    seq(m, k requires 0 <= k < m => Variance(ColumnAt(rows, k)))
  }

  // ---------------------------------------------------------------------------
  // average_cycle
  // ---------------------------------------------------------------------------

  /**
   * The result of average_cycle over the series of cycles first, first+1, ...:
   * no cycles fails (max() of nothing), a cycle without rows fails (min() of
   * nothing, the first such cycle), otherwise the pointwise mean and variance
   * of the interpolated cycles on the common grid.
   */
  function AverageCycles(ds: seq<Series>, first: int): (r: Result<Trend, AlignError>)
    requires WellFormed(ds)
    ensures r.Failure? <==> |ds| == 0 || !AllNonEmpty(ds)
    ensures r.Failure? && |ds| == 0 ==> r.error == EmptyCycleRange
    ensures r.Failure? && |ds| > 0 ==> (r.error.EmptyCycle? &&
      var d := r.error.cycle - first;
      0 <= d < |ds| && |ds[d].x| == 0 && forall e :: 0 <= e < d ==> |ds[e].x| > 0)
    ensures r.Success? ==>
      |r.value.mean| == |CommonGrid(ds)| && |r.value.variance| == |CommonGrid(ds)|
  {
    if |ds| == 0 then Failure(EmptyCycleRange)
    else
      match FirstEmpty(ds)
      case Some(d) => Failure(EmptyCycle(first + d))
      case None =>
        var grid := CommonGrid(ds);
        var rows := Interpolated(ds, grid);
        Success(Trend(PointwiseMean(rows, |grid|), PointwiseVariance(rows, |grid|)))
  }

  // ---------------------------------------------------------------------------
  // The loops of average_cycle
  // ---------------------------------------------------------------------------

  /** The first loop: datasets.append(...) for i in range(first, last). */
  method GatherCycles(keys: seq<int>, xs: seq<real>, ys: seq<real>, first: int, last: int)
    returns (datasets: seq<Series>)
    requires |keys| == |xs| == |ys|
    ensures datasets == CycleRange(keys, xs, ys, first, last)
  {
    datasets := [];
    var i := first;
    while i < last
      invariant first <= i
      invariant i <= last || i == first
      invariant datasets == CycleRange(keys, xs, ys, first, i)
      decreases last - i
    {
      assert CycleRange(keys, xs, ys, first, i + 1)
        == CycleRange(keys, xs, ys, first, i) + [CycleSeries(keys, xs, ys, i)];
      datasets := datasets + [CycleSeries(keys, xs, ys, i)];
      i := i + 1;
    }
  }

  /**
   * The generator min(data['x']) for data in datasets, run until it meets a
   * series without rows (where min() raises): the index of that series, if any.
   */
  method FindEmptyCycle(datasets: seq<Series>) returns (e: Option<nat>)
    ensures e == FirstEmpty(datasets)
  {
    var d := 0;
    while d < |datasets| && |datasets[d].x| > 0
      invariant 0 <= d <= |datasets|
      invariant forall j :: 0 <= j < d ==> |datasets[j].x| > 0
    {
      d := d + 1;
    }
    e := if d < |datasets| then Some(d) else None;
  }

  /** The second loop: interpolated_datasets.append(np.interp(common_x, ...)) per series. */
  method InterpolateAll(datasets: seq<Series>, grid: seq<real>) returns (rows: seq<seq<real>>)
    requires WellFormed(datasets) && AllNonEmpty(datasets)
    ensures rows == Interpolated(datasets, grid)
  {
    rows := [];
    for d := 0 to |datasets|
      invariant |rows| == d
      invariant forall j :: 0 <= j < d ==> rows[j] == InterpolateSeries(datasets[j], grid)
    {
      rows := rows + [InterpolateSeries(datasets[d], grid)];
    }
  }

  /**
   * Everything average_cycle does once datasets is built: the failures of
   * max() over no cycles and of min() over a cycle without rows, the grid,
   * the interpolation loop, and the pointwise mean and variance.
   */
  method AverageOfCycles(datasets: seq<Series>, first: int) returns (r: Result<Trend, AlignError>)
    requires WellFormed(datasets)
    ensures r == AverageCycles(datasets, first)
  {
    if datasets == [] {
      return Failure(EmptyCycleRange);
    }
    var e := FindEmptyCycle(datasets);
    AverageCyclesCases(datasets, first);
    if e.Some? {
      return Failure(EmptyCycle(first + e.value));
    }
    var grid := CommonGrid(datasets);
    var interpolated := InterpolateAll(datasets, grid);
    r := Success(Trend(PointwiseMean(interpolated, |grid|), PointwiseVariance(interpolated, |grid|)));
  }

  /** How AverageCycles ends once the range is known to be non-empty. */
  lemma AverageCyclesCases(ds: seq<Series>, first: int)
    requires WellFormed(ds) && |ds| > 0
    ensures FirstEmpty(ds).Some? ==>
      AverageCycles(ds, first) == Failure(EmptyCycle(first + FirstEmpty(ds).value))
    ensures FirstEmpty(ds).None? ==> (AllNonEmpty(ds) &&
      AverageCycles(ds, first) == Success(Trend(
        PointwiseMean(Interpolated(ds, CommonGrid(ds)), |CommonGrid(ds)|),
        PointwiseVariance(Interpolated(ds, CommonGrid(ds)), |CommonGrid(ds)|))))
  {
  }

  /** Each entry of ave_trend is the mean over cycles of their interpolated values at that grid point. */
  lemma TrendIsMeanOfCycles(ds: seq<Series>, first: int, k: nat)
    requires WellFormed(ds) && |ds| > 0 && AllNonEmpty(ds)
    requires k < |CommonGrid(ds)|
    ensures AverageCycles(ds, first).Success?
    ensures AverageCycles(ds, first).value.mean[k]
         == Mean(seq(|ds|, d requires 0 <= d < |ds| => Interp(ds[d].x, ds[d].y, CommonGrid(ds)[k])))
  {
    var grid := CommonGrid(ds);
    var rows := Interpolated(ds, grid);
    assert ColumnAt(rows, k) == seq(|ds|, d requires 0 <= d < |ds| => Interp(ds[d].x, ds[d].y, grid[k]));
  }

  /** When every cycle's values lie in [lo, hi], so does every entry of the average trend. */
  lemma TrendWithinData(ds: seq<Series>, first: int, lo: real, hi: real)
    requires WellFormed(ds) && |ds| > 0 && AllNonEmpty(ds)
    requires forall d, j :: 0 <= d < |ds| && 0 <= j < |ds[d].y| ==> lo <= ds[d].y[j] <= hi
    ensures AverageCycles(ds, first).Success?
    ensures forall k :: 0 <= k < |AverageCycles(ds, first).value.mean| ==>
      lo <= AverageCycles(ds, first).value.mean[k] <= hi
  {
    var grid := CommonGrid(ds);
    var rows := Interpolated(ds, grid);
    forall k | 0 <= k < |grid| ensures lo <= Mean(ColumnAt(rows, k)) <= hi {
      var c := ColumnAt(rows, k);
      forall d | 0 <= d < |ds| ensures lo <= c[d] <= hi {
        assert c[d] == Interp(ds[d].x, ds[d].y, grid[k]);
        InterpWithin(ds[d].x, ds[d].y, grid[k], lo, hi);
      }
      MeanBounds(c, lo, hi);
    }
  }

  /**
   * Cycles whose interpolations onto the common grid all agree average to that
   * interpolation, with zero variance at every grid point.
   */
  lemma IdenticalCycles(ds: seq<Series>, first: int)
    requires WellFormed(ds) && |ds| > 0 && AllNonEmpty(ds)
    requires forall d :: 0 <= d < |ds| ==>
      InterpolateSeries(ds[d], CommonGrid(ds)) == InterpolateSeries(ds[0], CommonGrid(ds))
    ensures AverageCycles(ds, first).Success?
    ensures AverageCycles(ds, first).value.mean == InterpolateSeries(ds[0], CommonGrid(ds))
    ensures forall k :: 0 <= k < |CommonGrid(ds)| ==> AverageCycles(ds, first).value.variance[k] == 0.0
  {
    var grid := CommonGrid(ds);
    var rows := Interpolated(ds, grid);
    var base := InterpolateSeries(ds[0], grid);
    forall k | 0 <= k < |grid|
      ensures Mean(ColumnAt(rows, k)) == base[k]
      ensures Variance(ColumnAt(rows, k)) == 0.0
    {
      var c := ColumnAt(rows, k);
      forall d | 0 <= d < |c| ensures c[d] == base[k] {
        assert rows[d] == InterpolateSeries(ds[d], grid) == base;
      }
      MeanOfConstant(c, base[k]);
      ConstantVariance(c, base[k]);
    }
  }

  /**
   * update_cycle_no leaves rows only under cycle i and cycle 0, so averaging a
   * cycle range that holds two different non-zero cycle numbers always fails:
   * at least one of them has no rows.
   */
  lemma RelabelledRangeFails(times: seq<real>, xs: seq<real>, ys: seq<real>, i: int,
                             tStart: real, tEnd: real, first: int, last: int, a: int, b: int)
    requires |times| == |xs| == |ys|
    requires first <= a < b < last && a != 0 && b != 0
    ensures AverageCycles(CycleRange(Labels(times, i, tStart, tEnd), xs, ys, first, last), first).Failure?
  {
    var labels := Labels(times, i, tStart, tEnd);
    var j := if a != i then a else b;
    assert j !in labels;
    assert multiset(labels)[j] == 0;
    var ds := CycleRange(labels, xs, ys, first, last);
    assert |ds[j - first].x| == 0;
  }

  /** A two-sample time range [a, b] with a <= b. */
  ghost predicate Span(s: seq<real>, a: real, b: real)
  {
    |s| == 2 && s[0] == a && s[1] == b && a <= b
  }

  lemma SpanBounds(s: seq<real>, a: real, b: real)
    requires Span(s, a, b)
    ensures Min(s) == a && Max(s) == b
  {
    assert s[1..] == [b];
  }

  /**
   * Worked domain: cycles spanning [0, 5], [0.1, 4.8] and [0, 6] give a grid
   * from 0.1 to 4.8 in steps of 0.02 (236 points), its last point the earliest end.
   */
  lemma {:induction false} DomainExample(ds: seq<Series>)
    requires |ds| == 3
    requires Span(ds[0].x, 0.0, 5.0) && Span(ds[1].x, 0.1, 4.8) && Span(ds[2].x, 0.0, 6.0)
    ensures AllNonEmpty(ds)
    ensures GridStart(ds) == 0.1 && GridStop(ds) == 4.8
    ensures |CommonGrid(ds)| == 236
    ensures CommonGrid(ds)[0] == 0.1 && CommonGrid(ds)[235] == 4.8
  {
    SpanBounds(ds[0].x, 0.0, 5.0);
    SpanBounds(ds[1].x, 0.1, 4.8);
    SpanBounds(ds[2].x, 0.0, 6.0);
    assert AllNonEmpty(ds);
    GridEndsExample(ds);
    GridLengthExample();
    assert CommonGrid(ds) == Arange(0.1, 4.8 + Step, Step);
  }

  lemma GridEndsExample(ds: seq<Series>)
    requires |ds| == 3 && AllNonEmpty(ds)
    requires Min(ds[0].x) == 0.0 && Min(ds[1].x) == 0.1 && Min(ds[2].x) == 0.0
    requires Max(ds[0].x) == 5.0 && Max(ds[1].x) == 4.8 && Max(ds[2].x) == 6.0
    ensures GridStart(ds) == 0.1 && GridStop(ds) == 4.8
  {
    forall d | 0 <= d < |ds| ensures Min(ds[d].x) <= 0.1 && 4.8 <= Max(ds[d].x) {
      assert d == 0 || d == 1 || d == 2;
    }
    GridStartIsLatestStart(ds, 0.1, 1);
    GridStopIsEarliestEnd(ds, 4.8, 1);
  }

  /** A start that no cycle's start exceeds, attained by cycle d0, is the grid start. */
  lemma GridStartIsLatestStart(ds: seq<Series>, c: real, d0: nat)
    requires |ds| > 0 && AllNonEmpty(ds)
    requires d0 < |ds| && Min(ds[d0].x) == c
    requires forall d :: 0 <= d < |ds| ==> Min(ds[d].x) <= c
    ensures GridStart(ds) == c
  {
    var d :| 0 <= d < |ds| && GridStart(ds) == Min(ds[d].x);
  }

  /** An end that no cycle's end undercuts, attained by cycle d0, is the grid stop. */
  lemma GridStopIsEarliestEnd(ds: seq<Series>, c: real, d0: nat)
    requires |ds| > 0 && AllNonEmpty(ds)
    requires d0 < |ds| && Max(ds[d0].x) == c
    requires forall d :: 0 <= d < |ds| ==> c <= Max(ds[d].x)
    ensures GridStop(ds) == c
  {
    var d :| 0 <= d < |ds| && GridStop(ds) == Max(ds[d].x);
  }

  lemma GridLengthExample()
    ensures |Arange(0.1, 4.8 + Step, Step)| == 236
    ensures Arange(0.1, 4.8 + Step, Step)[0] == 0.1
    ensures Arange(0.1, 4.8 + Step, Step)[235] == 4.8
  {
    assert (4.8 + Step - 0.1) / Step == 236.0;
    assert Ceil(236.0) == 236;
  }
}
