/**
 * Column-level operations of the per-sample table: selecting the rows of one
 * cycle (df[df['Cycle'] == i]), the cycle labelling of update_cycle_no, and
 * the masked broadcast df.loc[df['Cycle'] == i, column] = value.
 * A column is a sequence indexed by row; all columns of a table have one length.
 */
module Columns {
  import opened Wrappers
  import opened Stats

  // ---------------------------------------------------------------------------
  // Selecting the rows of one cycle
  // ---------------------------------------------------------------------------

  /**
   * The values of `col` on the rows whose key is i, in table order.
   * There is one value per row carrying the key.
   */
  function Select<T>(keys: seq<int>, col: seq<T>, i: int): (r: seq<T>)
    requires |keys| == |col|
    ensures |r| == multiset(keys)[i]
    ensures forall x :: x in r ==> x in col
  {
    if keys == [] then []
    else
      assert keys == [keys[0]] + keys[1..];
      (if keys[0] == i then [col[0]] else []) + Select(keys[1..], col[1..], i)
  }

  /** The first row (in table order) whose key is i, if any. */
  function FirstRow(keys: seq<int>, i: int): (r: Option<nat>)
    ensures r.Some? ==> r.value < |keys| && keys[r.value] == i
    ensures r.Some? ==> forall k :: 0 <= k < r.value ==> keys[k] != i
    ensures r.None? <==> i !in keys
  {
    if keys == [] then None
    else if keys[0] == i then Some(0)
    else
      match FirstRow(keys[1..], i)
      case None => None
      case Some(k) => Some(k + 1)
  }

  /** head(1) of a cycle's selection is the value on its first row. */
  lemma {:induction false} SelectHeadIsFirstRow<T>(keys: seq<int>, col: seq<T>, i: int)
    requires |keys| == |col|
    requires i in keys
    ensures |Select(keys, col, i)| > 0
    ensures FirstRow(keys, i).Some?
    ensures Select(keys, col, i)[0] == col[FirstRow(keys, i).value]
  {
    assert multiset(keys)[i] > 0;
    if keys[0] != i {
      assert i in keys[1..] by {
        var k :| 0 <= k < |keys| && keys[k] == i;
        assert keys[1..][k - 1] == i;
      }
      SelectHeadIsFirstRow(keys[1..], col[1..], i);
    }
  }

  /** Two columns selected by the same key column have the same length. */
  lemma SelectSameLength<T, U>(keys: seq<int>, a: seq<T>, b: seq<U>, i: int)
    requires |keys| == |a| == |b|
    ensures |Select(keys, a, i)| == |Select(keys, b, i)|
  {
  }

  // ---------------------------------------------------------------------------
  // Cycle labelling (update_cycle_no)
  // ---------------------------------------------------------------------------

  /** The Cycle column after resetting it to 0 and stamping i on the window [tStart, tEnd]. */
  function Labels(times: seq<real>, i: int, tStart: real, tEnd: real): (labels: seq<int>)
    ensures |labels| == |times|
  {
    seq(|times|, k requires 0 <= k < |times| => if tStart <= times[k] <= tEnd then i else 0)
  }

  /**
   * For a non-zero label, a row carries i exactly when its time lies in the
   * closed window; the rows that carry i select exactly the window's times.
   */
  lemma {:induction false} LabelledRowsAreWindow(times: seq<real>, i: int, tStart: real, tEnd: real)
    requires i != 0
    ensures forall k :: 0 <= k < |times| ==>
      (Labels(times, i, tStart, tEnd)[k] == i <==> tStart <= times[k] <= tEnd)
    ensures Select(Labels(times, i, tStart, tEnd), times, i) == InWindow(times, tStart, tEnd)
  {
    var labels := Labels(times, i, tStart, tEnd);
    if times != [] {
      assert labels[1..] == Labels(times[1..], i, tStart, tEnd);
      LabelledRowsAreWindow(times[1..], i, tStart, tEnd);
    }
  }

  /** The times that lie in [tStart, tEnd], in table order. */
  function InWindow(times: seq<real>, tStart: real, tEnd: real): (r: seq<real>)
    ensures forall x :: x in r ==> tStart <= x <= tEnd
  {
    if times == [] then []
    else (if tStart <= times[0] <= tEnd then [times[0]] else []) + InWindow(times[1..], tStart, tEnd)
  }

  /** With a time-ordered table, the rows labelled i (i != 0) form one contiguous block. */
  lemma LabelledRowsContiguous(times: seq<real>, i: int, tStart: real, tEnd: real, p: nat, q: nat, m: nat)
    requires Sorted(times)
    requires i != 0
    requires p <= m <= q < |times|
    requires Labels(times, i, tStart, tEnd)[p] == i && Labels(times, i, tStart, tEnd)[q] == i
    ensures Labels(times, i, tStart, tEnd)[m] == i
  {
  }

  // ---------------------------------------------------------------------------
  // Masked broadcast (df.loc[df['Cycle'] == i, column] = v)
  // ---------------------------------------------------------------------------

  /** `col` with every row whose key is i overwritten by v. */
  function Broadcast(keys: seq<int>, col: seq<real>, i: int, v: real): (r: seq<real>)
    requires |keys| == |col|
    ensures |r| == |col|
  {
    seq(|col|, k requires 0 <= k < |col| => if keys[k] == i then v else col[k])
  }

  /**
   * After a broadcast every row of cycle i carries the same value v, and every
   * other row keeps its value; with no row in cycle i nothing changes.
   */
  lemma BroadcastEffect(keys: seq<int>, col: seq<real>, i: int, v: real)
    requires |keys| == |col|
    ensures forall k :: 0 <= k < |col| && keys[k] == i ==> Broadcast(keys, col, i, v)[k] == v
    ensures forall k :: 0 <= k < |col| && keys[k] != i ==> Broadcast(keys, col, i, v)[k] == col[k]
    ensures i !in keys ==> Broadcast(keys, col, i, v) == col
  {
  }

  /** Broadcasting the same value twice is the same as broadcasting it once. */
  lemma BroadcastIdempotent(keys: seq<int>, col: seq<real>, i: int, v: real)
    requires |keys| == |col|
    ensures Broadcast(keys, Broadcast(keys, col, i, v), i, v) == Broadcast(keys, col, i, v)
  {
  }

  // ---------------------------------------------------------------------------
  // Cycle start time (update_start_time)
  // ---------------------------------------------------------------------------

  /** float(df_cycle.head(1)['Time (s)']): the time on the cycle's first row; None when the cycle is empty. */
  function CycleStart(keys: seq<int>, times: seq<real>, i: int): (r: Option<real>)
    requires |keys| == |times|
    ensures r.None? <==> i !in keys
    ensures r.Some? ==> exists k :: 0 <= k < |keys| && keys[k] == i && r.value == times[k]
  {
    var rows := Select(keys, times, i);
    if rows == [] then None
    else
      SelectHeadIsFirstRow(keys, times, i);
      Some(rows[0])
  }

  /**
   * The start time is the time of the first row of the cycle in table order;
   * in a time-ordered table it is the earliest time of the cycle.
   */
  lemma CycleStartIsFirstRow(keys: seq<int>, times: seq<real>, i: int)
    requires |keys| == |times|
    requires i in keys
    ensures FirstRow(keys, i).Some?
    ensures CycleStart(keys, times, i) == Some(times[FirstRow(keys, i).value])
    ensures Sorted(times) ==>
      forall k :: 0 <= k < |keys| && keys[k] == i ==> CycleStart(keys, times, i).value <= times[k]
  {
    SelectHeadIsFirstRow(keys, times, i);
  }

  /** The Start time column after update_start_time(i); None when the cycle is empty (the source raises). */
  function StartTimeColumn(keys: seq<int>, times: seq<real>, col: seq<real>, i: int): (r: Option<seq<real>>)
    requires |keys| == |times| == |col|
    ensures r.None? <==> i !in keys
    ensures r.Some? ==> |r.value| == |col|
  {
    match CycleStart(keys, times, i)
    case None => None
    case Some(t) => Some(Broadcast(keys, col, i, t))
  }

  /** update_start_time is idempotent: a second call leaves the column as the first left it. */
  lemma StartTimeIdempotent(keys: seq<int>, times: seq<real>, col: seq<real>, i: int)
    requires |keys| == |times| == |col|
    requires i in keys
    ensures StartTimeColumn(keys, times, StartTimeColumn(keys, times, col, i).value, i)
         == StartTimeColumn(keys, times, col, i)
  {
    var t := CycleStart(keys, times, i).value;
    BroadcastIdempotent(keys, col, i, t);
  }

  /**
   * Labelling cycle i (i != 0) and then stamping its start time gives every
   * row of the window the first in-window time in table order, which in a
   * time-ordered table is the earliest time at or after tStart.
   */
  lemma LabelThenStart(times: seq<real>, col: seq<real>, i: int, tStart: real, tEnd: real)
    requires |times| == |col| && i != 0
    requires InWindow(times, tStart, tEnd) != []
    ensures StartTimeColumn(Labels(times, i, tStart, tEnd), times, col, i).Some?
    ensures StartTimeColumn(Labels(times, i, tStart, tEnd), times, col, i).value
         == Broadcast(Labels(times, i, tStart, tEnd), col, i, InWindow(times, tStart, tEnd)[0])
    ensures Sorted(times) ==> forall k :: 0 <= k < |times| && tStart <= times[k] <= tEnd ==>
      InWindow(times, tStart, tEnd)[0] <= times[k]
  {
    var labels := Labels(times, i, tStart, tEnd);
    LabelledRowsAreWindow(times, i, tStart, tEnd);
    assert |Select(labels, times, i)| > 0;
    assert i in multiset(labels);
    CycleStartIsFirstRow(labels, times, i);
  }
}
