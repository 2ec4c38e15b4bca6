/**
 * Exact (real-valued) statistics over the selected rows of a column:
 * sums and means, minimum and maximum, ascending sort, Python slicing,
 * and the population variance. These are the reductions the contraction
 * analysis applies to the rows of one cycle or to the cycles at one grid point.
 */
module Stats {

  // ---------------------------------------------------------------------------
  // Sums and means
  // ---------------------------------------------------------------------------

  function Sum(s: seq<real>): real
  {
    if s == [] then 0.0 else s[0] + Sum(s[1..])
  }

  /** Arithmetic mean of a non-empty sequence (numpy.mean, pandas Series.mean). */
  function Mean(s: seq<real>): (m: real)
    requires |s| > 0
    ensures m * (|s| as real) == Sum(s)
  {
    Sum(s) / (|s| as real)
  }

  lemma {:induction false} SumConcat(a: seq<real>, b: seq<real>)
    ensures Sum(a + b) == Sum(a) + Sum(b)
  {
    if a == [] {
      assert a + b == b;
    } else {
      assert (a + b)[1..] == a[1..] + b;
      SumConcat(a[1..], b);
    }
  }

  lemma {:induction false} SumAtLeast(s: seq<real>, lo: real)
    requires forall k :: 0 <= k < |s| ==> lo <= s[k]
    ensures (|s| as real) * lo <= Sum(s)
  {
    if s != [] {
      SumAtLeast(s[1..], lo);
      assert (|s| as real) * lo == lo + (|s[1..]| as real) * lo;
    }
  }

  lemma {:induction false} SumAtMost(s: seq<real>, hi: real)
    requires forall k :: 0 <= k < |s| ==> s[k] <= hi
    ensures Sum(s) <= (|s| as real) * hi
  {
    if s != [] {
      SumAtMost(s[1..], hi);
      assert (|s| as real) * hi == hi + (|s[1..]| as real) * hi;
    }
  }

  /** A mean lies within any bounds that hold for every element. */
  lemma MeanBounds(s: seq<real>, lo: real, hi: real)
    requires |s| > 0
    requires forall k :: 0 <= k < |s| ==> lo <= s[k] <= hi
    ensures lo <= Mean(s) <= hi
  {
    var n := |s| as real;
    SumAtLeast(s, lo);
    SumAtMost(s, hi);
    DivideBounds(n * lo, Sum(s), n);
    DivideBounds(Sum(s), n * hi, n);
  }

  lemma DivideBounds(x: real, y: real, n: real)
    requires n > 0.0 && x <= y
    ensures x / n <= y / n
  {
  }

  /** The mean of a sequence whose elements all equal c is c. */
  lemma MeanOfConstant(s: seq<real>, c: real)
    requires |s| > 0
    requires forall k :: 0 <= k < |s| ==> s[k] == c
    ensures Mean(s) == c
  {
    MeanBounds(s, c, c);
  }

  /**
   * When every element of a lies at or below every element of b, the mean of
   * the lower part, of the whole and of the upper part are in that order.
   */
  lemma {:induction false} SplitMean(a: seq<real>, b: seq<real>)
    requires |a| > 0 && |b| > 0
    requires forall p, q :: 0 <= p < |a| && 0 <= q < |b| ==> a[p] <= b[q]
    ensures Mean(a) <= Mean(a + b) <= Mean(b)
  {
    var c := Max(a);
    assert forall q :: 0 <= q < |b| ==> c <= b[q] by {
      var p0 :| 0 <= p0 < |a| && a[p0] == c;
    }
    SplitSums(a, b, c);
    MeanOrder(a, b);
  }

  lemma {:induction false} MeanOrder(a: seq<real>, b: seq<real>)
    requires |a| > 0 && |b| > 0
    requires Sum(a) * (|b| as real) <= (|a| as real) * Sum(b)
    ensures Mean(a) <= Mean(a + b) <= Mean(b)
  {
    SumConcat(a, b);
    assert |a + b| == |a| + |b|;
    RatioOrder(Sum(a), Sum(b), |a| as real, |b| as real);
  }

  lemma {:induction false} SplitSums(a: seq<real>, b: seq<real>, c: real)
    requires forall p :: 0 <= p < |a| ==> a[p] <= c
    requires forall q :: 0 <= q < |b| ==> c <= b[q]
    ensures Sum(a) * (|b| as real) <= (|a| as real) * Sum(b)
  {
    var sa, sb, na, nb := Sum(a), Sum(b), |a| as real, |b| as real;
    SumAtMost(a, c);
    SumAtLeast(b, c);
    CrossProducts(sa, sb, na, nb, c);
    assert sa * nb <= na * sb;
  }

  /** The combined ratio of two parts lies between the parts' ratios. */
  lemma RatioOrder(sa: real, sb: real, na: real, nb: real)
    requires na > 0.0 && nb > 0.0 && sa * nb <= na * sb
    ensures sa / na <= (sa + sb) / (na + nb) <= sb / nb
  {
    assert sa * (na + nb) == sa * na + sa * nb;
    assert (sa + sb) * na == sa * na + sb * na;
    CrossDivide(sa, na, sa + sb, na + nb);
    assert (sa + sb) * nb == sa * nb + sb * nb;
    assert sb * (na + nb) == sb * na + sb * nb;
    CrossDivide(sa + sb, na + nb, sb, nb);
  }

  lemma CrossProducts(sa: real, sb: real, na: real, nb: real, c: real)
    requires na >= 0.0 && nb >= 0.0
    requires sa <= na * c && nb * c <= sb
    ensures sa * nb <= na * sb
  {
    ScaleBound(sa, na * c, nb);
    ScaleBound(nb * c, sb, na);
  }

  lemma ScaleBound(x: real, y: real, k: real)
    requires x <= y && k >= 0.0
    ensures x * k <= y * k
  {
  }

  lemma CrossDivide(x: real, m: real, y: real, n: real)
    requires m > 0.0 && n > 0.0 && x * n <= y * m
    ensures x / m <= y / n
  {
    assert x / m == (x * n) / (m * n);
    assert y / n == (y * m) / (m * n);
    DivideBounds(x * n, y * m, m * n);
  }

  // ---------------------------------------------------------------------------
  // Minimum and maximum
  // ---------------------------------------------------------------------------

  /** Python's min() over a non-empty sequence. */
  function Min(s: seq<real>): (m: real)
    requires |s| > 0
    ensures m in s
    ensures forall k :: 0 <= k < |s| ==> m <= s[k]
  {
    if |s| == 1 then s[0]
    else
      var rest := Min(s[1..]);
      if s[0] <= rest then s[0] else rest
  }

  /** Python's max() over a non-empty sequence. */
  function Max(s: seq<real>): (m: real)
    requires |s| > 0
    ensures m in s
    ensures forall k :: 0 <= k < |s| ==> s[k] <= m
  {
    if |s| == 1 then s[0]
    else
      var rest := Max(s[1..]);
      if s[0] >= rest then s[0] else rest
  }

  // ---------------------------------------------------------------------------
  // Ascending sort
  // ---------------------------------------------------------------------------

  ghost predicate Sorted(s: seq<real>)
  {
    forall p, q :: 0 <= p < q < |s| ==> s[p] <= s[q]
  }

  /** Inserts x into an ascending sequence, keeping it ascending. */
  function Insert(x: real, s: seq<real>): (r: seq<real>)
    requires Sorted(s)
    ensures Sorted(r)
    ensures multiset(r) == multiset(s) + multiset{x}
    ensures Sum(r) == x + Sum(s)
    ensures |r| == |s| + 1 && (r[0] == x || (|s| > 0 && r[0] == s[0]))
  {
    if s == [] || x <= s[0] then
      ConsFacts(x, s);
      [x] + s
    else
      SortedTail(s);
      var tail := Insert(x, s[1..]);
      ConsFacts(s[0], tail);
      InsertMultiset(x, s, tail);
      [s[0]] + tail
  }

  lemma InsertMultiset(x: real, s: seq<real>, tail: seq<real>)
    requires |s| > 0 && multiset(tail) == multiset(s[1..]) + multiset{x}
    ensures multiset([s[0]] + tail) == multiset(s) + multiset{x}
  {
    assert s == [s[0]] + s[1..];
    calc {
      multiset([s[0]] + tail);
      multiset{s[0]} + multiset(tail);
      multiset{s[0]} + multiset(s[1..]) + multiset{x};
      multiset(s) + multiset{x};
    }
  }

  lemma SortedTail(s: seq<real>)
    requires Sorted(s) && |s| > 0
    ensures Sorted(s[1..])
  {
  }

  /** Putting a value no larger than the head in front keeps a sequence ascending. */
  lemma ConsFacts(h: real, t: seq<real>)
    requires Sorted(t) && (|t| > 0 ==> h <= t[0])
    ensures Sorted([h] + t)
    ensures multiset([h] + t) == multiset{h} + multiset(t)
    ensures Sum([h] + t) == h + Sum(t)
  {
    assert ([h] + t)[1..] == t;
  }

  /** The ascending arrangement of s (what numpy's ndarray.sort leaves behind). */
  function SortSeq(s: seq<real>): (r: seq<real>)
    ensures Sorted(r)
    ensures multiset(r) == multiset(s)
    ensures |r| == |s|
    ensures Sum(r) == Sum(s)
  {
    if s == [] then []
    else
      assert s == [s[0]] + s[1..];
      Insert(s[0], SortSeq(s[1..]))
  }

  /** An ascending arrangement of a multiset is unique. */
  lemma {:induction false} SortedUnique(a: seq<real>, b: seq<real>)
    requires Sorted(a) && Sorted(b)
    requires multiset(a) == multiset(b)
    ensures a == b
    decreases |a|
  {
    assert |a| == |multiset(a)| == |multiset(b)| == |b|;
    if a != [] {
      assert a[0] in multiset(b);
      assert b[0] in multiset(a);
      assert a[0] == b[0];
      assert a == [a[0]] + a[1..];
      assert b == [b[0]] + b[1..];
      assert multiset(a) == multiset{a[0]} + multiset(a[1..]);
      assert multiset(b) == multiset{b[0]} + multiset(b[1..]);
      assert multiset(a[1..]) == multiset(a) - multiset{a[0]};
      assert multiset(b[1..]) == multiset(b) - multiset{b[0]};
      SortedUnique(a[1..], b[1..]);
    }
  }

  /** Exchanging two neighbouring values keeps the multiset. */
  lemma SwapKeepsMultiset(front: seq<real>, a: real, b: real, back: seq<real>)
    ensures multiset(front + [b, a] + back) == multiset(front + [a, b] + back)
  {
    assert multiset([b, a]) == multiset([a, b]);
    calc {
      multiset(front + [b, a] + back);
      multiset(front) + multiset([b, a]) + multiset(back);
      multiset(front) + multiset([a, b]) + multiset(back);
      multiset(front + [a, b] + back);
    }
  }

  // ---------------------------------------------------------------------------
  // Python slicing
  // ---------------------------------------------------------------------------

  function ClampIndex(k: int, n: nat): (c: nat)
  {
    if k < 0 then 0 else if k > n then n else k
  }

  /**
   * Python's s[start:stop] (step 1): a negative bound counts from the end,
   * then both bounds are clamped to 0..|s|; an inverted range is empty.
   */
  function PySlice<T>(s: seq<T>, start: int, stop: int): (r: seq<T>)
    ensures |r| <= |s|
    ensures 0 <= start <= stop <= |s| ==> r == s[start..stop]
  {
    var a := ClampIndex(if start < 0 then start + |s| else start, |s|);
    var b := ClampIndex(if stop < 0 then stop + |s| else stop, |s|);
    if a < b then s[a..b] else []
  }

  /** s[0:k] takes the first min(k, |s|) elements, whatever exists. */
  lemma PrefixSlice<T>(s: seq<T>, k: nat)
    ensures PySlice(s, 0, k) == s[..if k < |s| then k else |s|]
  {
  }

  /** s[-k:] takes the last min(k, |s|) elements, whatever exists. */
  lemma SuffixSlice<T>(s: seq<T>, k: nat)
    requires k > 0
    ensures PySlice(s, -(k as int), |s|) == s[(if k < |s| then |s| - k else 0)..]
  {
  }

  // ---------------------------------------------------------------------------
  // Population variance (numpy.std without the square root)
  // ---------------------------------------------------------------------------

  lemma SquareNonNegative(x: real)
    ensures 0.0 <= x * x
  {
    if x < 0.0 {
      assert x * x == (-x) * (-x);
    }
  }

  function SquaredDeviations(s: seq<real>, m: real): (d: seq<real>)
    ensures |d| == |s|
    ensures forall k :: 0 <= k < |d| ==> 0.0 <= d[k]
  {
    var d := seq(|s|, k requires 0 <= k < |s| => (s[k] - m) * (s[k] - m));
    assert forall k :: 0 <= k < |d| ==> 0.0 <= d[k] by {
      forall k | 0 <= k < |d|
        ensures 0.0 <= d[k]
      {
        SquareNonNegative(s[k] - m);
      }
    }
    d
  }

  /** Mean squared deviation from the mean, divided by the count (ddof = 0). */
  function Variance(s: seq<real>): (v: real)
    requires |s| > 0
    ensures v >= 0.0
  {
    var d := SquaredDeviations(s, Mean(s));
    SumAtLeast(d, 0.0);
    DivideBounds(0.0, Sum(d), |d| as real);
    Mean(d)
  }

  /** A constant sequence has zero variance. */
  lemma ConstantVariance(s: seq<real>, c: real)
    requires |s| > 0
    requires forall k :: 0 <= k < |s| ==> s[k] == c
    ensures Variance(s) == 0.0
  {
    MeanOfConstant(s, c);
    MeanOfConstant(SquaredDeviations(s, c), 0.0);
  }
}
