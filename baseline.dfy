/**
 * The two zero-strain baseline rules of one cycle, as values computed from
 * the cycle's rows (in table order):
 *  - spontaneous beating: the mean of the cycle's last 15 rows, per channel;
 *  - electrical pacing: the mean of the 4 smallest widths and the mean of the
 *    5 largest lengths, after sorting each channel ascending in place.
 */
module Baseline {
  import opened Stats

  /** Rows taken from the end of a cycle by the spontaneous rule (tail(15)). */
  const SpontaneousTailRows: nat := 15
  /** Width values kept by the pacing rule (slice [0:4]). */
  const PacingWidthCount: nat := 4
  /** Length values kept by the pacing rule (slice [-5:]). */
  const PacingLengthCount: nat := 5

  // ---------------------------------------------------------------------------
  // Spontaneous beating
  // ---------------------------------------------------------------------------

  /** df_cycle.tail(15)[channel].mean(): the mean of the last min(15, n) rows. */
  function SpontaneousBaseline(vals: seq<real>): (b: real)
    requires |vals| > 0
    ensures Min(vals) <= b <= Max(vals)
  {
    SuffixSlice(vals, SpontaneousTailRows);
    TailMeanWithin(vals, if SpontaneousTailRows < |vals| then |vals| - SpontaneousTailRows else 0);
    Mean(PySlice(vals, -(SpontaneousTailRows as int), |vals|))
  }

  /** A cycle of at most 15 rows uses all of them. */
  lemma SpontaneousShortCycle(vals: seq<real>)
    requires 0 < |vals| <= SpontaneousTailRows
    ensures SpontaneousBaseline(vals) == Mean(vals)
  {
    SuffixSlice(vals, SpontaneousTailRows);
    assert vals[0..] == vals;
  }

  /** Rows before the last 15 do not influence the spontaneous baseline. */
  lemma SpontaneousIgnoresEarlyRows(early: seq<real>, tail: seq<real>)
    requires |tail| == SpontaneousTailRows
    ensures SpontaneousBaseline(early + tail) == Mean(tail)
  {
    var all := early + tail;
    SuffixSlice(all, SpontaneousTailRows);
    assert all[|all| - SpontaneousTailRows..] == tail;
  }

  /** When the last min(15, n) rows all equal c, the baseline is exactly c. */
  lemma SpontaneousConstantTail(vals: seq<real>, c: real)
    requires |vals| > 0
    requires forall k :: |vals| - SpontaneousTailRows <= k < |vals| && 0 <= k ==> vals[k] == c
    ensures SpontaneousBaseline(vals) == c
  {
    SuffixSlice(vals, SpontaneousTailRows);
    var t := PySlice(vals, -(SpontaneousTailRows as int), |vals|);
    MeanOfConstant(t, c);
  }

  /** The mean of a non-empty tail lies between the smallest and largest value. */
  lemma TailMeanWithin(vals: seq<real>, off: nat)
    requires off < |vals|
    ensures Min(vals) <= Mean(vals[off..]) <= Max(vals)
  {
    var t := vals[off..];
    forall k | 0 <= k < |t| ensures Min(vals) <= t[k] <= Max(vals) {
      assert t[k] == vals[off + k];
    }
    MeanBounds(t, Min(vals), Max(vals));
  }

  // ---------------------------------------------------------------------------
  // Electrical pacing
  // ---------------------------------------------------------------------------

  /** The k smallest values: sort ascending, then take the slice [0:k]. */
  function Smallest(vals: seq<real>, k: nat): (r: seq<real>)
    ensures |r| == if k < |vals| then k else |vals|
    ensures r == SortSeq(vals)[..|r|]
    ensures multiset(r) <= multiset(vals)
    ensures forall x, y :: x in multiset(r) && y in multiset(vals) - multiset(r) ==> x <= y
  {
    var m := if k < |vals| then k else |vals|;
    SortedFront(vals, m);
    SortSeq(vals)[..m]
  }

  /** The k largest values: sort ascending, then take the slice [-k:]. */
  function Largest(vals: seq<real>, k: nat): (r: seq<real>)
    requires k > 0
    ensures |r| == if k < |vals| then k else |vals|
    ensures r == SortSeq(vals)[|vals| - |r|..]
    ensures multiset(r) <= multiset(vals)
    ensures forall x, y :: x in multiset(vals) - multiset(r) && y in multiset(r) ==> x <= y
  {
    var m := if k < |vals| then |vals| - k else 0;
    SortedBack(vals, m);
    SortSeq(vals)[m..]
  }

  /** The first m sorted values are drawn from vals and lie below all the others. */
  lemma SortedFront(vals: seq<real>, m: nat)
    requires m <= |vals|
    ensures multiset(SortSeq(vals)[..m]) <= multiset(vals)
    ensures forall x, y :: x in multiset(SortSeq(vals)[..m]) && y in multiset(vals) - multiset(SortSeq(vals)[..m]) ==> x <= y
  {
    var s := SortSeq(vals);
    SortedSplit(s, m);
    LowerPart(vals, s[..m], s[m..]);
  }

  /** The sorted values from position m on are drawn from vals and lie above all the others. */
  lemma SortedBack(vals: seq<real>, m: nat)
    requires m <= |vals|
    ensures multiset(SortSeq(vals)[m..]) <= multiset(vals)
    ensures forall x, y :: x in multiset(vals) - multiset(SortSeq(vals)[m..]) && y in multiset(SortSeq(vals)[m..]) ==> x <= y
  {
    var s := SortSeq(vals);
    SortedSplit(s, m);
    UpperPart(vals, s[..m], s[m..]);
  }

  lemma LowerPart(vals: seq<real>, lower: seq<real>, upper: seq<real>)
    requires multiset(vals) == multiset(lower) + multiset(upper)
    requires forall x, y :: x in multiset(lower) && y in multiset(upper) ==> x <= y
    ensures multiset(lower) <= multiset(vals)
    ensures forall x, y :: x in multiset(lower) && y in multiset(vals) - multiset(lower) ==> x <= y
  {
    assert multiset(vals) - multiset(lower) == multiset(upper);
  }

  lemma UpperPart(vals: seq<real>, lower: seq<real>, upper: seq<real>)
    requires multiset(vals) == multiset(lower) + multiset(upper)
    requires forall x, y :: x in multiset(lower) && y in multiset(upper) ==> x <= y
    ensures multiset(upper) <= multiset(vals)
    ensures forall x, y :: x in multiset(vals) - multiset(upper) && y in multiset(upper) ==> x <= y
  {
    assert multiset(vals) - multiset(upper) == multiset(lower);
  }

  /** Splitting an ascending sequence: every value of the front is at most every value of the back. */
  lemma SortedSplit(s: seq<real>, m: nat)
    requires Sorted(s) && m <= |s|
    ensures multiset(s) == multiset(s[..m]) + multiset(s[m..])
    ensures forall x, y :: x in multiset(s[..m]) && y in multiset(s[m..]) ==> x <= y
  {
    assert s == s[..m] + s[m..];
    forall x, y | x in multiset(s[..m]) && y in multiset(s[m..]) ensures x <= y {
      var p :| 0 <= p < m && s[..m][p] == x;
      var q :| 0 <= q < |s| - m && s[m..][q] == y;
      assert s[p] == x && s[m + q] == y;
    }
  }

  /**
   * np.mean(sorted widths[0:4]): the mean of the (at most) four smallest
   * widths, which lies between the smallest width and the mean width.
   */
  function PacingWidthBaseline(widths: seq<real>): (b: real)
    requires |widths| > 0
    ensures Min(widths) <= b <= Mean(widths)
  {
    var r := Smallest(widths, PacingWidthCount);
    SortedPrefixMeanBounds(widths, |r|);
    Mean(r)
  }

  /**
   * np.mean(sorted lengths[-5:]): the mean of the (at most) five largest
   * lengths, which lies between the mean length and the largest length.
   */
  function PacingLengthBaseline(lengths: seq<real>): (b: real)
    requires |lengths| > 0
    ensures Mean(lengths) <= b <= Max(lengths)
  {
    var r := Largest(lengths, PacingLengthCount);
    SortedSuffixMeanBounds(lengths, |lengths| - |r|);
    Mean(r)
  }

  /** The mean of the sorted channel is the mean of the channel. */
  lemma SortedMean(vals: seq<real>)
    requires |vals| > 0
    ensures Mean(SortSeq(vals)) == Mean(vals)
  {
  }

  /** Values drawn from a channel's multiset lie between its minimum and maximum. */
  lemma DrawnWithin(r: seq<real>, vals: seq<real>)
    requires |vals| > 0
    requires multiset(r) <= multiset(vals)
    ensures forall k :: 0 <= k < |r| ==> Min(vals) <= r[k] <= Max(vals)
  {
    forall k | 0 <= k < |r| ensures Min(vals) <= r[k] <= Max(vals) {
      assert r[k] in multiset(r);
      assert r[k] in vals;
    }
  }

  /** In an ascending sequence the mean of a non-empty prefix is at most the mean of the whole. */
  lemma {:induction false} PrefixMeanAtMost(s: seq<real>, m: nat)
    requires Sorted(s) && 0 < m <= |s|
    ensures Mean(s[..m]) <= Mean(s)
  {
    if m < |s| {
      assert s == s[..m] + s[m..];
      forall p, q | 0 <= p < m && 0 <= q < |s| - m ensures s[..m][p] <= s[m..][q] {
        assert s[..m][p] == s[p] && s[m..][q] == s[m + q];
      }
      SplitMean(s[..m], s[m..]);
    } else {
      assert s[..m] == s;
    }
  }

  /** In an ascending sequence the mean of a non-empty suffix is at least the mean of the whole. */
  lemma {:induction false} SuffixMeanAtLeast(s: seq<real>, m: nat)
    requires Sorted(s) && m < |s|
    ensures Mean(s) <= Mean(s[m..])
  {
    if 0 < m {
      assert s == s[..m] + s[m..];
      forall p, q | 0 <= p < m && 0 <= q < |s| - m ensures s[..m][p] <= s[m..][q] {
        assert s[..m][p] == s[p] && s[m..][q] == s[m + q];
      }
      SplitMean(s[..m], s[m..]);
    } else {
      assert s[m..] == s;
    }
  }

  /** Both halves of a split hold values of the whole. */
  lemma SliceMultisets(s: seq<real>, m: nat)
    requires m <= |s|
    ensures multiset(s[..m]) <= multiset(s) && multiset(s[m..]) <= multiset(s)
  {
    assert s == s[..m] + s[m..];
  }

  /** A non-empty prefix of the sorted values averages between the minimum and the mean. */
  lemma SortedPrefixMeanBounds(vals: seq<real>, m: nat)
    requires 0 < m <= |vals|
    ensures Min(vals) <= Mean(SortSeq(vals)[..m]) <= Mean(vals)
  {
    var s := SortSeq(vals);
    var t := s[..m];
    SliceMultisets(s, m);
    DrawnWithin(t, vals);
    MeanBounds(t, Min(vals), Max(vals));
    PrefixMeanAtMost(s, m);
    SortedMean(vals);
  }

  /** A non-empty suffix of the sorted values averages between the mean and the maximum. */
  lemma SortedSuffixMeanBounds(vals: seq<real>, m: nat)
    requires m < |vals|
    ensures Mean(vals) <= Mean(SortSeq(vals)[m..]) <= Max(vals)
  {
    var s := SortSeq(vals);
    var t := s[m..];
    SliceMultisets(s, m);
    DrawnWithin(t, vals);
    MeanBounds(t, Min(vals), Max(vals));
    SuffixMeanAtLeast(s, m);
    SortedMean(vals);
  }

  /**
   * Both pacing baselines depend only on the multiset of the cycle's values,
   * not on the order of its rows.
   */
  lemma PacingOrderIndependent(a: seq<real>, b: seq<real>)
    requires |a| > 0
    requires multiset(a) == multiset(b)
    ensures |b| > 0
    ensures PacingWidthBaseline(a) == PacingWidthBaseline(b)
    ensures PacingLengthBaseline(a) == PacingLengthBaseline(b)
  {
    assert |a| == |multiset(a)| == |multiset(b)| == |b|;
    SortedUnique(SortSeq(a), SortSeq(b));
  }

  /**
   * Worked value: the width baseline of [5, 1, 2, 8, 9] is the mean of four
   * values (1, 2, 5, 8), which is 4, not the mean of five.
   */
  lemma PacingWidthExample(w: seq<real>)
    requires |w| == 5
    requires w[0] == 5.0 && w[1] == 1.0 && w[2] == 2.0 && w[3] == 8.0 && w[4] == 9.0
    ensures PacingWidthBaseline(w) == 4.0
  {
    SmallestWidthsExample(w);
    MeanOfFour(Smallest(w, PacingWidthCount), 1.0, 2.0, 5.0, 8.0);
  }

  lemma SmallestWidthsExample(w: seq<real>)
    requires |w| == 5
    requires w[0] == 5.0 && w[1] == 1.0 && w[2] == 2.0 && w[3] == 8.0 && w[4] == 9.0
    ensures Smallest(w, PacingWidthCount) == [1.0, 2.0, 5.0, 8.0]
  {
    var ws := [1.0, 2.0, 5.0, 8.0, 9.0];
    SortedWidthsExample(w);
    assert Sorted(ws);
    SmallestOfSorted(w, ws, PacingWidthCount);
  }

  lemma MeanOfFour(r: seq<real>, a: real, b: real, c: real, d: real)
    requires r == [a, b, c, d]
    ensures Mean(r) == (a + b + c + d) / 4.0
  {
    SumOfFour(r);
    MeanOfSum(r, a + b + c + d, 4.0);
  }

  /** [5, 1, 2, 8, 9] and [1, 2, 5, 8, 9] hold the same values, by two neighbour exchanges. */
  lemma SortedWidthsExample(w: seq<real>)
    requires |w| == 5
    requires w[0] == 5.0 && w[1] == 1.0 && w[2] == 2.0 && w[3] == 8.0 && w[4] == 9.0
    ensures multiset([1.0, 2.0, 5.0, 8.0, 9.0]) == multiset(w)
  {
    SwapKeepsMultiset([], 5.0, 1.0, [2.0, 8.0, 9.0]);
    assert w == [] + [5.0, 1.0] + [2.0, 8.0, 9.0];
    assert [] + [1.0, 5.0] + [2.0, 8.0, 9.0] == [1.0] + [5.0, 2.0] + [8.0, 9.0];
    SwapKeepsMultiset([1.0], 5.0, 2.0, [8.0, 9.0]);
    assert [1.0] + [2.0, 5.0] + [8.0, 9.0] == [1.0, 2.0, 5.0, 8.0, 9.0];
  }

  /**
   * Worked value: the length baseline of [1, 2, 3, 4, 9, 10] is the mean of the
   * five largest values (2, 3, 4, 9, 10), which is 5.6, not the mean of all six.
   */
  lemma PacingLengthExample(l: seq<real>)
    requires |l| == 6
    requires l[0] == 1.0 && l[1] == 2.0 && l[2] == 3.0 && l[3] == 4.0 && l[4] == 9.0 && l[5] == 10.0
    ensures PacingLengthBaseline(l) == 5.6
  {
    LargestLengthsExample(l);
    MeanOfFive(Largest(l, PacingLengthCount), 2.0, 3.0, 4.0, 9.0, 10.0);
  }

  lemma LargestLengthsExample(l: seq<real>)
    requires |l| == 6
    requires l[0] == 1.0 && l[1] == 2.0 && l[2] == 3.0 && l[3] == 4.0 && l[4] == 9.0 && l[5] == 10.0
    ensures Largest(l, PacingLengthCount) == [2.0, 3.0, 4.0, 9.0, 10.0]
  {
    var top := [2.0, 3.0, 4.0, 9.0, 10.0];
    assert l == [1.0] + top;
    assert Sorted(l);
    LargestOfSorted(l, l, PacingLengthCount);
    assert l[1..] == top;
  }

  lemma MeanOfFive(r: seq<real>, a: real, b: real, c: real, d: real, e: real)
    requires r == [a, b, c, d, e]
    ensures Mean(r) == (a + b + c + d + e) / 5.0
  {
    SumOfFive(r);
    MeanOfSum(r, a + b + c + d + e, 5.0);
  }

  lemma MeanOfSum(s: seq<real>, total: real, n: real)
    requires |s| > 0 && Sum(s) == total && |s| as real == n
    ensures Mean(s) == total / n
  {
  }

  lemma SumOfFive(s: seq<real>)
    requires |s| == 5
    ensures Sum(s) == s[0] + s[1] + s[2] + s[3] + s[4]
  {
    SumStep(s, 4);
    SumStep(s, 3);
    SumStep(s, 2);
    SumStep(s, 1);
    SumStep(s, 0);
  }

  lemma SumStep(s: seq<real>, k: nat)
    requires k < |s|
    ensures Sum(s[k..]) == s[k] + Sum(s[k + 1..])
  {
    assert s[k..][1..] == s[k + 1..];
  }

  /** Any sorted arrangement of the values is the one SortSeq produces. */
  lemma SortSeqOfSorted(vals: seq<real>, s: seq<real>)
    requires Sorted(s) && multiset(s) == multiset(vals)
    ensures SortSeq(vals) == s && |vals| == |s|
  {
    SortedUnique(SortSeq(vals), s);
  }

  lemma SmallestOfSorted(vals: seq<real>, s: seq<real>, k: nat)
    requires Sorted(s) && multiset(s) == multiset(vals)
    ensures Smallest(vals, k) == s[..if k < |s| then k else |s|]
  {
    SortSeqOfSorted(vals, s);
  }

  lemma LargestOfSorted(vals: seq<real>, s: seq<real>, k: nat)
    requires k > 0
    requires Sorted(s) && multiset(s) == multiset(vals)
    ensures Largest(vals, k) == s[if k < |s| then |s| - k else 0..]
  {
    SortSeqOfSorted(vals, s);
    var m := if k < |s| then |s| - k else 0;
    var r := Largest(vals, k);
    assert |vals| - |r| == m;
    assert r == SortSeq(vals)[m..];
  }

  lemma SumOfFour(s: seq<real>)
    requires |s| == 4
    ensures Sum(s) == s[0] + s[1] + s[2] + s[3]
  {
    SumStep(s, 3);
    SumStep(s, 2);
    SumStep(s, 1);
    SumStep(s, 0);
  }

  // ---------------------------------------------------------------------------
  // The in-place ascending sort of the pacing rule (ndarray.sort)
  // ---------------------------------------------------------------------------

  method SortInPlace(a: array<real>)
    modifies a
    ensures Sorted(a[..])
    ensures multiset(a[..]) == multiset(old(a[..]))
  {
    var i := 0;
    while i < a.Length
      invariant 0 <= i <= a.Length
      invariant Sorted(a[..i])
      invariant multiset(a[..]) == multiset(old(a[..]))
    {
      var j := i;
      while j > 0 && a[j - 1] > a[j]
        invariant 0 <= j <= i
        invariant forall p, q :: 0 <= p < q <= i && q != j ==> a[p] <= a[q]
        invariant multiset(a[..]) == multiset(old(a[..]))
      {
        SwapDown(a, j);
        j := j - 1;
      }
      i := i + 1;
    }
  }

  /** Exchanges a[j - 1] and a[j]; the array keeps its values. */
  method SwapDown(a: array<real>, j: int)
    requires 0 < j < a.Length
    modifies a
    ensures a[j - 1] == old(a[j]) && a[j] == old(a[j - 1])
    ensures forall k :: 0 <= k < a.Length && k != j - 1 && k != j ==> a[k] == old(a[k])
    ensures multiset(a[..]) == multiset(old(a[..]))
  {
    ghost var before := a[..];
    a[j - 1], a[j] := a[j], a[j - 1];
    assert a[..] == before[j - 1 := before[j]][j := before[j - 1]];
  }

  /** The sorted copy produced in place is exactly SortSeq of the channel. */
  method SortedCopy(vals: seq<real>) returns (a: array<real>)
    ensures fresh(a)
    ensures a[..] == SortSeq(vals)
  {
    a := new real[|vals|](k requires 0 <= k < |vals| => vals[k]);
    assert a[..] == vals;
    SortInPlace(a);
    SortedUnique(a[..], SortSeq(vals));
  }
}
