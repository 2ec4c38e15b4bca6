/**
 * The per-sample table of one contraction recording and the operations that
 * update it in place: labelling a cycle, stamping its start time, stamping its
 * zero-strain baselines (spontaneous beating or electrical pacing), and the
 * read-only average trend over a range of cycles.
 *
 * Every column is an array of one common length n; the columns the operations
 * write (Cycle, Start time, width and length baselines) are arrays of their own,
 * never shared with the columns the operations read.
 */
module Contractility {
  import opened Wrappers
  import opened Stats
  import opened Columns
  import opened Baseline
  import opened Alignment

  /** The strain column average_cycle reads: the width strain or the length strain. */
  datatype StrainType = WidthStrain | LengthStrain

  /** Why update_start_time cannot run: the cycle has no rows, so there is no first time. */
  datatype StartTimeError = NoRowsInCycle(cycle: int)

  /** np.mean(a[0:4]) after a = np.array(widths); a.sort(). */
  method PacingWidth(ws: seq<real>) returns (wb: real)
    requires |ws| > 0
    ensures wb == PacingWidthBaseline(ws)
  {
    var widthArray := SortedCopy(ws);
    ghost var sorted := widthArray[..];
    PrefixSlice(sorted, PacingWidthCount);
    assert PySlice(sorted, 0, PacingWidthCount) == Smallest(ws, PacingWidthCount);
    wb := Mean(PySlice(widthArray[..], 0, PacingWidthCount));
  }

  /** np.mean(a[-5:]) after a = np.array(lengths); a.sort(). */
  method PacingLength(ls: seq<real>) returns (lb: real)
    requires |ls| > 0
    ensures lb == PacingLengthBaseline(ls)
  {
    var lengthArray := SortedCopy(ls);
    ghost var sorted := lengthArray[..];
    SuffixSlice(sorted, PacingLengthCount);
    assert PySlice(sorted, -(PacingLengthCount as int), |sorted|) == Largest(ls, PacingLengthCount);
    lb := Mean(PySlice(lengthArray[..], -(PacingLengthCount as int), lengthArray.Length));
  }

  /** A fresh column holding the given values. */
  method NewColumn<T(0)>(vals: seq<T>) returns (a: array<T>)
    ensures fresh(a) && a[..] == vals
  {
    a := new T[|vals|](k requires 0 <= k < |vals| => vals[k]);
  }

  class Table {
    /** Number of rows. */
    const n: nat
    /** 'Time (s)': the acquisition time of each row. */
    const time: array<real>
    /** 'Calibrate time (s)': the time measured from the start of the row's cycle. */
    const calibTime: array<real>
    /** 'RRWidth' and 'RRLength': the measured cell width and length. */
    const rrWidth: array<real>
    const rrLength: array<real>
    /** The width and length strain columns that average_cycle reads. */
    const widthStrain: array<real>
    const lengthStrain: array<real>
    /** 'Cycle': the cycle label of each row (0 for rows outside the labelled cycle). */
    const cycle: array<int>
    /** 'Start time (s)', 'width_baseline', 'length_baseline'. */
    const startTime: array<real>
    const widthBaseline: array<real>
    const lengthBaseline: array<real>

    ghost predicate Valid()
      reads this
    {
      && time.Length == n && calibTime.Length == n
      && rrWidth.Length == n && rrLength.Length == n
      && widthStrain.Length == n && lengthStrain.Length == n
      && cycle.Length == n
      && startTime.Length == n && widthBaseline.Length == n && lengthBaseline.Length == n
      && Derived(startTime) && Derived(widthBaseline) && Derived(lengthBaseline)
      && startTime != widthBaseline && startTime != lengthBaseline && widthBaseline != lengthBaseline
    }

    /** A written column is none of the measured columns the operations read. */
    ghost predicate Derived(a: array<real>)
      reads this
    {
      a != time && a != calibTime && a != rrWidth && a != rrLength && a != widthStrain && a != lengthStrain
    }

    /** A table loaded with the given columns, all of one length. */
    constructor (time0: seq<real>, calibTime0: seq<real>, rrWidth0: seq<real>, rrLength0: seq<real>,
                 widthStrain0: seq<real>, lengthStrain0: seq<real>, cycle0: seq<int>,
                 startTime0: seq<real>, widthBaseline0: seq<real>, lengthBaseline0: seq<real>)
      requires |calibTime0| == |rrWidth0| == |rrLength0| == |time0|
      requires |widthStrain0| == |lengthStrain0| == |cycle0| == |time0|
      requires |startTime0| == |widthBaseline0| == |lengthBaseline0| == |time0|
      ensures Valid() && n == |time0|
      ensures time[..] == time0 && calibTime[..] == calibTime0
      ensures rrWidth[..] == rrWidth0 && rrLength[..] == rrLength0
      ensures widthStrain[..] == widthStrain0 && lengthStrain[..] == lengthStrain0
      ensures cycle[..] == cycle0 && startTime[..] == startTime0
      ensures widthBaseline[..] == widthBaseline0 && lengthBaseline[..] == lengthBaseline0
    {
      n := |time0|;
      var timeCol := NewColumn(time0);
      var calibTimeCol := NewColumn(calibTime0);
      var rrWidthCol := NewColumn(rrWidth0);
      var rrLengthCol := NewColumn(rrLength0);
      var widthStrainCol := NewColumn(widthStrain0);
      var lengthStrainCol := NewColumn(lengthStrain0);
      var cycleCol := NewColumn(cycle0);
      var startTimeCol := NewColumn(startTime0);
      var widthBaselineCol := NewColumn(widthBaseline0);
      var lengthBaselineCol := NewColumn(lengthBaseline0);
      time := timeCol;
      calibTime := calibTimeCol;
      rrWidth := rrWidthCol;
      rrLength := rrLengthCol;
      widthStrain := widthStrainCol;
      lengthStrain := lengthStrainCol;
      cycle := cycleCol;
      startTime := startTimeCol;
      widthBaseline := widthBaselineCol;
      lengthBaseline := lengthBaselineCol;
    }

    /** The strain column named by strain. */
    function StrainColumn(strain: StrainType): (a: array<real>)
      reads this
      ensures a == widthStrain || a == lengthStrain
    {
      match strain
      case WidthStrain => widthStrain
      case LengthStrain => lengthStrain
    }

    /**
     * update_cycle_no: every row is reset to cycle 0, then the rows whose time
     * lies in [tStart, tEnd] are labelled i. No other column changes.
     */
    method UpdateCycleNo(i: int, tStart: real, tEnd: real)
      requires Valid()
      modifies cycle
      ensures Valid()
      ensures cycle[..] == Labels(time[..], i, tStart, tEnd)
    {
      forall k | 0 <= k < cycle.Length {
        cycle[k] := 0;
      }
      forall k | 0 <= k < cycle.Length && tStart <= time[k] <= tEnd {
        cycle[k] := i;
      }
    }

    /**
     * update_start_time: every row of cycle i gets the time of the cycle's first
     * row; a cycle without rows fails and leaves the table as it was.
     */
    method UpdateStartTime(i: int) returns (r: Outcome<StartTimeError>)
      requires Valid()
      modifies startTime
      ensures Valid()
      ensures r.Fail? <==> i !in cycle[..]
      ensures r.Fail? ==> r.error == NoRowsInCycle(i) && startTime[..] == old(startTime[..])
      ensures r.Pass? ==>
        startTime[..] == StartTimeColumn(cycle[..], time[..], old(startTime[..]), i).value
    {
      var keys, times := cycle[..], time[..];
      ghost var col := startTime[..];
      match CycleStart(keys, times, i)
      case None =>
        r := Fail(NoRowsInCycle(i));
      case Some(t) =>
        forall k | 0 <= k < startTime.Length && cycle[k] == i {
          startTime[k] := t;
        }
        assert cycle[..] == keys && time[..] == times;
        assert startTime[..] == Broadcast(keys, col, i, t);
        r := Pass;
    }

    /**
     * update_baseline_spontaneous_beating: every row of cycle i gets the mean of
     * the cycle's last 15 widths and the mean of its last 15 lengths. A cycle
     * without rows has no row to write, so nothing changes.
     */
    method UpdateBaselineSpontaneous(i: int)
      requires Valid()
      modifies widthBaseline, lengthBaseline
      ensures Valid()
      ensures var ws := Select(cycle[..], rrWidth[..], i);
        var ls := Select(cycle[..], rrLength[..], i);
        if ws == [] then
          widthBaseline[..] == old(widthBaseline[..]) && lengthBaseline[..] == old(lengthBaseline[..])
        else
          |ls| == |ws|
          && widthBaseline[..] == Broadcast(cycle[..], old(widthBaseline[..]), i, SpontaneousBaseline(ws))
          && lengthBaseline[..] == Broadcast(cycle[..], old(lengthBaseline[..]), i, SpontaneousBaseline(ls))
    {
      var keys, widths, lengths := cycle[..], rrWidth[..], rrLength[..];
      var ws := Select(keys, widths, i);
      var ls := Select(keys, lengths, i);
      SelectSameLength(keys, widths, lengths, i);
      if ws != [] {
        var wb := SpontaneousBaseline(ws);
        var lb := SpontaneousBaseline(ls);
        WriteBaselines(i, wb, lb);
      }
    }

    /**
     * update_baseline_electrical_pacing: the cycle's widths and lengths are
     * copied and sorted ascending in place; every row of cycle i gets the mean
     * of the first 4 sorted widths and the mean of the last 5 sorted lengths.
     * A cycle without rows has no row to write, so nothing changes.
     */
    method UpdateBaselinePacing(i: int)
      requires Valid()
      modifies widthBaseline, lengthBaseline
      ensures Valid()
      ensures var ws := Select(cycle[..], rrWidth[..], i);
        var ls := Select(cycle[..], rrLength[..], i);
        if ws == [] then
          widthBaseline[..] == old(widthBaseline[..]) && lengthBaseline[..] == old(lengthBaseline[..])
        else
          |ls| == |ws|
          && widthBaseline[..] == Broadcast(cycle[..], old(widthBaseline[..]), i, PacingWidthBaseline(ws))
          && lengthBaseline[..] == Broadcast(cycle[..], old(lengthBaseline[..]), i, PacingLengthBaseline(ls))
    {
      var keys, widths, lengths := cycle[..], rrWidth[..], rrLength[..];
      var ws := Select(keys, widths, i);
      var ls := Select(keys, lengths, i);
      SelectSameLength(keys, widths, lengths, i);
      if ws != [] {
        var wb := PacingWidth(ws);
        var lb := PacingLength(ls);
        WriteBaselines(i, wb, lb);
      }
    }

    /** Stamps both baseline columns of cycle i. */
    method WriteBaselines(i: int, wb: real, lb: real)
      requires Valid()
      modifies widthBaseline, lengthBaseline
      ensures Valid()
      ensures widthBaseline[..] == Broadcast(cycle[..], old(widthBaseline[..]), i, wb)
      ensures lengthBaseline[..] == Broadcast(cycle[..], old(lengthBaseline[..]), i, lb)
      ensures cycle[..] == old(cycle[..]) && rrWidth[..] == old(rrWidth[..]) && rrLength[..] == old(rrLength[..])
    {
      WriteCycle(widthBaseline, i, wb);
      WriteCycle(lengthBaseline, i, lb);
    }

    /** df.loc[df['Cycle'] == i, column] = v for one written column. */
    method WriteCycle(column: array<real>, i: int, v: real)
      requires Valid()
      requires column == startTime || column == widthBaseline || column == lengthBaseline
      modifies column
      ensures column[..] == Broadcast(cycle[..], old(column[..]), i, v)
    {
      forall k | 0 <= k < column.Length && cycle[k] == i {
        column[k] := v;
      }
    }

    /**
     * average_cycle: gathers the cycles startCycle..endCycle-1 as (calibrated
     * time, strain) series, fails on an empty range or on the first cycle
     * without rows, and otherwise returns the pointwise mean and variance of
     * the cycles interpolated onto the common grid. The table is not changed.
     */
    method AverageCycle(strain: StrainType, startCycle: int, endCycle: int)
      returns (r: Result<Trend, AlignError>)
      requires Valid()
      ensures r == AverageCycles(
        CycleRange(cycle[..], calibTime[..], StrainColumn(strain)[..], startCycle, endCycle), startCycle)
    {
      var keys, xs, ys := cycle[..], calibTime[..], StrainColumn(strain)[..];
      var datasets := GatherCycles(keys, xs, ys, startCycle, endCycle);
      r := AverageOfCycles(datasets, startCycle);
    }
  }
}
