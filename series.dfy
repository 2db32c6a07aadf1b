/**
 * Sequence arithmetic that the risk engine builds on: sums, an ascending sort,
 * numpy's linear-interpolation percentile, the "at or below a threshold" tail
 * and its mean, counting true flags, and pandas' cumulative product and
 * cumulative maximum. Everything is over exact reals and indexed by position.
 */
module Series {

  /** A value that may be missing (pandas' NaN in an otherwise numeric series). */
  datatype Option<T> = None | Some(value: T)

  /** Sum of a sequence, accumulated from the left. */
  function Sum(s: seq<real>): real
  {
    if |s| == 0 then 0.0 else Sum(s[..|s| - 1]) + s[|s| - 1]
  }

  /** Prepending an element adds it to the sum. */
  lemma {:induction false} SumCons(x: real, s: seq<real>)
    ensures Sum([x] + s) == x + Sum(s)
  {
    if |s| > 0 {
      SumCons(x, s[..|s| - 1]);
      assert ([x] + s)[..|s|] == [x] + s[..|s| - 1];
    }
  }

  /** Dividing every element by d divides the sum by d. */
  lemma {:induction false} SumDivided(s: seq<real>, d: real)
    requires d != 0.0
    ensures Sum(seq(|s|, i requires 0 <= i < |s| => s[i] / d)) == Sum(s) / d
  {
    var q := seq(|s|, i requires 0 <= i < |s| => s[i] / d);
    if |s| > 0 {
      var init := s[..|s| - 1];
      SumDivided(init, d);
      assert q[..|s| - 1] == seq(|init|, i requires 0 <= i < |init| => init[i] / d);
      assert Sum(init) / d + s[|s| - 1] / d == (Sum(init) + s[|s| - 1]) / d;
    }
  }

  /** The sum of a sequence all of whose elements are at most v is at most |s| * v. */
  lemma {:induction false} SumAtMost(s: seq<real>, v: real)
    requires forall i :: 0 <= i < |s| ==> s[i] <= v
    ensures Sum(s) <= |s| as real * v
  {
    if |s| > 0 {
      SumAtMost(s[..|s| - 1], v);
    }
  }

  /** The sum of a sequence all of whose elements are at least v is at least |s| * v. */
  lemma {:induction false} SumAtLeast(s: seq<real>, v: real)
    requires forall i :: 0 <= i < |s| ==> v <= s[i]
    ensures |s| as real * v <= Sum(s)
  {
    if |s| > 0 {
      SumAtLeast(s[..|s| - 1], v);
    }
  }

  /** Ascending order, stated one neighbour at a time. */
  ghost predicate Sorted(s: seq<real>)
  {
    |s| <= 1 || (s[0] <= s[1] && Sorted(s[1..]))
  }

  /** In a sorted sequence every element is at most every later one. */
  lemma {:induction false} SortedOrder(s: seq<real>, i: nat, j: nat)
    requires Sorted(s) && i <= j < |s|
    ensures s[i] <= s[j]
  {
    if i < j {
      if i == 0 {
        SortedOrder(s[1..], 0, j - 1);
      } else {
        SortedOrder(s[1..], i - 1, j - 1);
      }
    }
  }

  /** Inserts x into a sorted sequence, before the first element it does not exceed. */
  function Insert(x: real, s: seq<real>): (r: seq<real>)
    ensures |r| == |s| + 1
    ensures multiset(r) == multiset(s) + multiset{x}
    ensures r[0] == x || (|s| > 0 && r[0] == s[0])
    ensures Sorted(s) ==> Sorted(r)
  {
    if |s| == 0 then [x]
    else if x <= s[0] then [x] + s
    else
      var rest := Insert(x, s[1..]);
      assert s == [s[0]] + s[1..];
      assert ([s[0]] + rest)[1..] == rest;
      [s[0]] + rest
  }

  /** Ascending sort (the order statistics numpy's percentile works on). */
  function Sort(s: seq<real>): (r: seq<real>)
    ensures |r| == |s|
    ensures multiset(r) == multiset(s)
    ensures Sorted(r)
  {
    if |s| == 0 then []
    else
      assert s == [s[0]] + s[1..];
      Insert(s[0], Sort(s[1..]))
  }

  /** Linear interpolation a + (b - a) * g: for a fraction g in [0, 1] it stays between a and b. */
  function Interpolate(a: real, b: real, g: real): (r: real)
    ensures a <= b && 0.0 <= g <= 1.0 ==> a <= r <= b
  {
    if a <= b && 0.0 <= g <= 1.0 then
      ProductNonNegative(b - a, g);
      ProductNonNegative(b - a, 1.0 - g);
      a + (b - a) * g
    else
      a + (b - a) * g
  }

  /** Between a <= b, interpolation does not decrease as the fraction grows. */
  lemma InterpolateMonotone(a: real, b: real, g1: real, g2: real)
    requires a <= b && g1 <= g2
    ensures Interpolate(a, b, g1) <= Interpolate(a, b, g2)
  {
    ProductNonNegative(b - a, g2 - g1);
    assert (b - a) * g2 == (b - a) * g1 + (b - a) * (g2 - g1);
  }

  lemma ProductNonNegative(x: real, y: real)
    requires x >= 0.0 && y >= 0.0
    ensures x * y >= 0.0
  {
  }

  /**
   * numpy's virtual index for the fraction p of n observations under the
   * linear method, (n - 1) * p: a position between the first and the last
   * order statistic. It is accumulated as n - 1 additions of p, which keeps
   * the product out of the definition (VirtualIndexIsProduct).
   */
  function VirtualIndex(n: nat, p: real): (h: real)
    requires n > 0 && 0.0 <= p <= 1.0
    ensures 0.0 <= h <= (n - 1) as real
  {
    if n == 1 then 0.0 else VirtualIndex(n - 1, p) + p
  }

  /** The virtual index is numpy's (n - 1) * p. */
  lemma {:induction false} VirtualIndexIsProduct(n: nat, p: real)
    requires n > 0 && 0.0 <= p <= 1.0
    ensures VirtualIndex(n, p) == (n - 1) as real * p
  {
    if n > 1 {
      VirtualIndexIsProduct(n - 1, p);
      assert (n - 2) as real * p + p == (n - 1) as real * p;
    }
  }

  /** A larger fraction never gives a smaller virtual index. */
  lemma {:induction false} VirtualIndexMonotone(n: nat, p1: real, p2: real)
    requires n > 0 && 0.0 <= p1 <= p2 <= 1.0
    ensures VirtualIndex(n, p1) <= VirtualIndex(n, p2)
  {
    if n > 1 {
      VirtualIndexMonotone(n - 1, p1, p2);
    }
  }

  /** numpy's lower neighbour floor(h) of the virtual index h. */
  function LowerIndex(n: nat, p: real): (lo: nat)
    requires n > 0 && 0.0 <= p <= 1.0
    ensures lo < n
    ensures lo as real <= VirtualIndex(n, p) < lo as real + 1.0
  {
    VirtualIndex(n, p).Floor
  }

  /** The interpolation weight h - floor(h) of the upper neighbour. */
  function Fraction(n: nat, p: real): (g: real)
    requires n > 0 && 0.0 <= p <= 1.0
    ensures 0.0 <= g < 1.0
  {
    VirtualIndex(n, p) - LowerIndex(n, p) as real
  }

  /**
   * numpy's default ("linear") percentile of an already sorted sequence at
   * the fraction p = q / 100: the virtual index h falls between the order
   * statistics floor(h) and floor(h) + 1 (clipped to the last one), and the
   * result interpolates linearly between them.
   */
  function Percentile(s: seq<real>, p: real): real
    requires |s| > 0 && 0.0 <= p <= 1.0
  {
    var lo := LowerIndex(|s|, p);
    var g := Fraction(|s|, p);
    if lo + 1 < |s| then Interpolate(s[lo], s[lo + 1], g) else s[lo]
  }

  /** On sorted data the percentile lies between the two order statistics around the virtual index. */
  lemma PercentileBetweenNeighbours(s: seq<real>, p: real)
    requires |s| > 0 && 0.0 <= p <= 1.0 && Sorted(s)
    ensures var lo := LowerIndex(|s|, p);
      s[lo] <= Percentile(s, p) && (lo + 1 < |s| ==> Percentile(s, p) <= s[lo + 1])
  {
    var lo := LowerIndex(|s|, p);
    if lo + 1 < |s| {
      SortedOrder(s, lo, lo + 1);
    }
  }

  /** On sorted data the percentile lies between the smallest and the largest observation. */
  lemma PercentileWithinRange(s: seq<real>, p: real)
    requires |s| > 0 && 0.0 <= p <= 1.0 && Sorted(s)
    ensures s[0] <= Percentile(s, p) <= s[|s| - 1]
  {
    PercentileBetweenNeighbours(s, p);
    var lo := LowerIndex(|s|, p);
    SortedOrder(s, 0, lo);
    if lo + 1 < |s| {
      SortedOrder(s, lo + 1, |s| - 1);
    }
  }

  /** At a virtual index that is a whole number k the percentile is the k-th order statistic. */
  lemma PercentileAtOrderStatistic(s: seq<real>, p: real, k: nat)
    requires |s| > 0 && 0.0 <= p <= 1.0
    requires VirtualIndex(|s|, p) == k as real
    ensures k < |s| && Percentile(s, p) == s[k]
  {
    assert LowerIndex(|s|, p) == k;
    assert Fraction(|s|, p) == 0.0;
  }

  /** The percentile of a sorted sequence does not decrease as the fraction grows. */
  lemma PercentileMonotone(s: seq<real>, p1: real, p2: real)
    requires |s| > 0 && Sorted(s)
    requires 0.0 <= p1 <= p2 <= 1.0
    ensures Percentile(s, p1) <= Percentile(s, p2)
  {
    var n := |s|;
    VirtualIndexMonotone(n, p1, p2);
    var lo1, lo2 := LowerIndex(n, p1), LowerIndex(n, p2);
    assert lo1 <= lo2;
    if lo1 == lo2 {
      if lo1 + 1 < n {
        SortedOrder(s, lo1, lo1 + 1);
        InterpolateMonotone(s[lo1], s[lo1 + 1], Fraction(n, p1), Fraction(n, p2));
      }
    } else {
      PercentileBetweenNeighbours(s, p1);
      PercentileBetweenNeighbours(s, p2);
      SortedOrder(s, lo1 + 1, lo2);
    }
  }

  /** np.percentile on an unsorted sequence at the fraction p: the percentile of its order statistics. */
  function Quantile(s: seq<real>, p: real): real
    requires |s| > 0 && 0.0 <= p <= 1.0
  {
    Percentile(Sort(s), p)
  }

  /** The sample percentile lies between two observations of the sample. */
  lemma QuantileWithinSample(s: seq<real>, p: real)
    requires |s| > 0 && 0.0 <= p <= 1.0
    ensures exists i :: 0 <= i < |s| && s[i] <= Quantile(s, p)
    ensures exists j :: 0 <= j < |s| && Quantile(s, p) <= s[j]
  {
    var sorted := Sort(s);
    PercentileWithinRange(sorted, p);
    assert sorted[0] in multiset(s) && sorted[|s| - 1] in multiset(s);
  }

  /** The sample percentile does not decrease as the fraction grows. */
  lemma QuantileMonotone(s: seq<real>, p1: real, p2: real)
    requires |s| > 0 && 0.0 <= p1 <= p2 <= 1.0
    ensures Quantile(s, p1) <= Quantile(s, p2)
  {
    PercentileMonotone(Sort(s), p1, p2);
  }

  /** The observations at or below v, in their original order (a boolean mask). */
  function TailAtOrBelow(s: seq<real>, v: real): (r: seq<real>)
    ensures forall k :: 0 <= k < |r| ==> r[k] <= v
    ensures forall k :: 0 <= k < |r| ==> r[k] in s
    ensures forall i :: 0 <= i < |s| && s[i] <= v ==> s[i] in r
  {
    if |s| == 0 then []
    else
      var init := TailAtOrBelow(s[..|s| - 1], v);
      assert forall x :: x in s[..|s| - 1] ==> x in s;
      assert forall i :: 0 <= i < |s| - 1 ==> s[i] == s[..|s| - 1][i];
      if s[|s| - 1] <= v then init + [s[|s| - 1]] else init
  }

  /**
   * The mask keeps every observation at or below v as often as it occurs in
   * s, and nothing else: it is s with the observations above v removed.
   */
  lemma {:induction false} TailAtOrBelowCounts(s: seq<real>, v: real)
    ensures forall x :: multiset(TailAtOrBelow(s, v))[x] == if x <= v then multiset(s)[x] else 0
  {
    if |s| > 0 {
      var init := s[..|s| - 1];
      TailAtOrBelowCounts(init, v);
      assert s == init + [s[|s| - 1]];
    }
  }

  /**
   * A sorted arrangement of s begins with an element of s that is at most
   * every element and ends with one that is at least every element.
   */
  lemma SortedArrangementExtremes(sorted: seq<real>, s: seq<real>)
    requires |s| > 0 && Sorted(sorted) && multiset(sorted) == multiset(s)
    ensures |sorted| == |s|
    ensures sorted[0] in s && sorted[|s| - 1] in s
    ensures forall i :: 0 <= i < |s| ==> sorted[0] <= s[i] <= sorted[|s| - 1]
  {
    assert |sorted| == |multiset(sorted)| == |s|;
    assert sorted[0] in multiset(sorted) && sorted[|s| - 1] in multiset(sorted);
    forall i | 0 <= i < |s|
      ensures sorted[0] <= s[i] <= sorted[|s| - 1]
    {
      assert s[i] in multiset(sorted);
      var k :| 0 <= k < |sorted| && sorted[k] == s[i];
      SortedOrder(sorted, 0, k);
      SortedOrder(sorted, k, |s| - 1);
    }
  }

  /** The first order statistic is the minimum of the sequence and the last one its maximum. */
  lemma SortExtremes(s: seq<real>)
    requires |s| > 0
    ensures Sort(s)[0] in s && Sort(s)[|s| - 1] in s
    ensures forall i :: 0 <= i < |s| ==> Sort(s)[0] <= s[i] <= Sort(s)[|s| - 1]
  {
    SortedArrangementExtremes(Sort(s), s);
  }

  /** Arithmetic mean of a non-empty sequence. */
  function Mean(s: seq<real>): real
    requires |s| > 0
  {
    Sum(s) / |s| as real
  }

  /** The mean lies between any lower and any upper bound of the elements. */
  lemma MeanBetween(s: seq<real>, lower: real, upper: real)
    requires |s| > 0
    requires forall k :: 0 <= k < |s| ==> lower <= s[k] <= upper
    ensures lower <= Mean(s) <= upper
  {
    SumAtMost(s, upper);
    SumAtLeast(s, lower);
    var n := |s| as real;
    assert Sum(s) / n <= upper by {
      assert Sum(s) <= n * upper;
    }
    assert lower <= Sum(s) / n by {
      assert n * lower <= Sum(s);
    }
  }

  /**
   * When some observation is at or below v, the tail at or below v is not
   * empty and its mean lies between the minimum of s and v.
   */
  lemma TailMeanBounds(s: seq<real>, v: real)
    requires exists i :: 0 <= i < |s| && s[i] <= v
    ensures |TailAtOrBelow(s, v)| > 0
    ensures Sort(s)[0] <= Mean(TailAtOrBelow(s, v)) <= v
  {
    var tail := TailAtOrBelow(s, v);
    var i :| 0 <= i < |s| && s[i] <= v;
    assert s[i] in tail;
    SortExtremes(s);
    forall k | 0 <= k < |tail|
      ensures Sort(s)[0] <= tail[k] <= v
    {
      var j :| 0 <= j < |s| && s[j] == tail[k];
    }
    MeanBetween(tail, Sort(s)[0], v);
  }

  /** Number of true flags, counted from the left (pandas' sum of a boolean mask). */
  function CountTrue(b: seq<bool>): nat
  {
    if |b| == 0 then 0 else CountTrue(b[..|b| - 1]) + (if b[|b| - 1] then 1 else 0)
  }

  /** The count is the size of the set of positions holding true. */
  lemma {:induction false} CountTrueIsCardinality(b: seq<bool>)
    ensures CountTrue(b) == |set t | 0 <= t < |b| && b[t]|
  {
    if |b| > 0 {
      var init := b[..|b| - 1];
      CountTrueIsCardinality(init);
      var before := set t | 0 <= t < |init| && init[t];
      var all := set t | 0 <= t < |b| && b[t];
      assert all == before + (if b[|b| - 1] then {|b| - 1} else {});
      assert |b| - 1 !in before;
    }
  }

  /** A mask whose first k flags are false has at most |b| - k true flags. */
  lemma {:induction false} CountTrueAfterFalsePrefix(b: seq<bool>, k: nat)
    requires k <= |b|
    requires forall t :: 0 <= t < k ==> !b[t]
    ensures CountTrue(b) <= |b| - k
  {
    if |b| > k {
      CountTrueAfterFalsePrefix(b[..|b| - 1], k);
    } else if |b| > 0 {
      CountTrueAfterFalsePrefix(b[..|b| - 1], k - 1);
    }
  }

  /** pandas' cumprod: entry t is the product of s[0..t]. */
  function CumProd(s: seq<real>): (r: seq<real>)
    ensures |r| == |s|
  {
    if |s| == 0 then []
    else
      var init := CumProd(s[..|s| - 1]);
      init + [(if |s| == 1 then 1.0 else init[|s| - 2]) * s[|s| - 1]]
  }

  /** The running product starts with s[0] and multiplies in one factor per step. */
  lemma {:induction false} CumProdStep(s: seq<real>, t: nat)
    requires t < |s|
    ensures CumProd(s)[t] == (if t == 0 then s[0] else CumProd(s)[t - 1] * s[t])
  {
    if t < |s| - 1 {
      CumProdStep(s[..|s| - 1], t);
      assert CumProd(s)[..|s| - 1] == CumProd(s[..|s| - 1]);
    }
  }

  /** A running product of positive factors stays positive. */
  lemma {:induction false} CumProdPositive(s: seq<real>)
    requires forall t :: 0 <= t < |s| ==> s[t] > 0.0
    ensures forall t :: 0 <= t < |s| ==> CumProd(s)[t] > 0.0
  {
    if |s| > 0 {
      var init := s[..|s| - 1];
      CumProdPositive(init);
      assert CumProd(s)[..|s| - 1] == CumProd(init);
      if |s| > 1 {
        assert CumProd(init)[|s| - 2] > 0.0;
      }
    }
  }

  function Max(a: real, b: real): real
  {
    if a < b then b else a
  }

  /** pandas' cummax: entry t is the largest of s[0..t]. */
  function CumMax(s: seq<real>): (r: seq<real>)
    ensures |r| == |s|
  {
    if |s| == 0 then []
    else
      var init := CumMax(s[..|s| - 1]);
      init + [if |s| == 1 then s[0] else Max(init[|s| - 2], s[|s| - 1])]
  }

  /**
   * Entry t of the running maximum bounds every element up to t and is itself
   * one of those elements.
   */
  lemma {:induction false} CumMaxAt(s: seq<real>, t: nat)
    requires t < |s|
    ensures forall k :: 0 <= k <= t ==> s[k] <= CumMax(s)[t]
    ensures exists k :: 0 <= k <= t && CumMax(s)[t] == s[k]
  {
    var init := s[..|s| - 1];
    if t < |s| - 1 {
      CumMaxAt(init, t);
      assert CumMax(s)[..|s| - 1] == CumMax(init);
      assert CumMax(s)[t] == CumMax(init)[t];
      var k :| 0 <= k <= t && CumMax(init)[t] == init[k];
      assert CumMax(s)[t] == s[k];
    } else if t > 0 {
      CumMaxAt(init, t - 1);
      assert CumMax(s)[..|s| - 1] == CumMax(init);
      var k :| 0 <= k <= t - 1 && CumMax(init)[t - 1] == init[k];
      if CumMax(s)[t] == s[t] {
        assert exists k :: 0 <= k <= t && CumMax(s)[t] == s[k];
      } else {
        assert CumMax(s)[t] == s[k];
      }
    }
  }
}
