/**
 * Euler decomposition of portfolio volatility: with weights w, a covariance
 * matrix C and the portfolio volatility s (s > 0, s * s = w'Cw), instrument i
 * contributes w[i] * (Cw)[i] / s, and the contributions add up to s. The
 * contributions are reported sorted from largest to smallest.
 */
module Decomposition {
  import opened Series

  /** a[0] * b[0] + ... + a[n - 1] * b[n - 1], accumulated from the left. */
  function DotUpTo(a: seq<real>, b: seq<real>, n: nat): real
    requires n <= |a| == |b|
  {
    if n == 0 then 0.0 else DotUpTo(a, b, n - 1) + a[n - 1] * b[n - 1]
  }

  /** Dot product a'b. */
  function Dot(a: seq<real>, b: seq<real>): real
    requires |a| == |b|
  {
    DotUpTo(a, b, |a|)
  }

  /** m has exactly `width` entries in every row. */
  ghost predicate HasWidth(m: seq<seq<real>>, width: nat)
  {
    forall i :: 0 <= i < |m| ==> |m[i]| == width
  }

  /** m is an n-by-n matrix. */
  ghost predicate IsSquare(m: seq<seq<real>>, n: nat)
  {
    |m| == n && HasWidth(m, n)
  }

  function Column(m: seq<seq<real>>, width: nat, j: nat): (c: seq<real>)
    requires HasWidth(m, width) && j < width
    ensures |c| == |m|
  {
    seq(|m|, i requires 0 <= i < |m| => m[i][j])
  }

  /** The matrix-vector product m @ v. */
  function MatVec(m: seq<seq<real>>, v: seq<real>): (r: seq<real>)
    requires HasWidth(m, |v|)
    ensures |r| == |m|
  {
    seq(|m|, i requires 0 <= i < |m| => Dot(m[i], v))
  }

  /** The vector-matrix product over the first n rows, u[..n] @ m[..n]. */
  function VecMatUpTo(u: seq<real>, m: seq<seq<real>>, width: nat, n: nat): (r: seq<real>)
    requires n <= |u| == |m| && HasWidth(m, width)
    ensures |r| == width
  {
    seq(width, j requires 0 <= j < width => DotUpTo(u, Column(m, width, j), n))
  }

  /** The vector-matrix product u @ m. */
  function VecMat(u: seq<real>, m: seq<seq<real>>, width: nat): (r: seq<real>)
    requires |u| == |m| && HasWidth(m, width)
    ensures |r| == width
  {
    VecMatUpTo(u, m, width, |u|)
  }

  lemma LinearStep(p: real, q: real, x: real, a: real, b: real, v: real)
    ensures (p + x * q) + (a + x * b) * v == (p + a * v) + x * (q + b * v)
  {
  }

  /** When c = a + x * b entry by entry, c'v = a'v + x * b'v (over any leading n entries). */
  lemma {:induction false} DotLinear(a: seq<real>, x: real, b: seq<real>, c: seq<real>, v: seq<real>, n: nat)
    requires n <= |a| == |b| == |c| == |v|
    requires forall j :: 0 <= j < |c| ==> c[j] == a[j] + x * b[j]
    ensures DotUpTo(c, v, n) == DotUpTo(a, v, n) + x * DotUpTo(b, v, n)
  {
    if n > 0 {
      DotLinear(a, x, b, c, v, n - 1);
      LinearStep(DotUpTo(a, v, n - 1), DotUpTo(b, v, n - 1), x, a[n - 1], b[n - 1], v[n - 1]);
    }
  }

  /** The dot product with a zero vector is zero. */
  lemma {:induction false} DotZero(z: seq<real>, v: seq<real>, n: nat)
    requires n <= |z| == |v| && forall j :: 0 <= j < |z| ==> z[j] == 0.0
    ensures DotUpTo(z, v, n) == 0.0
  {
    if n > 0 {
      DotZero(z, v, n - 1);
    }
  }

  /** Taking in one more row adds that row, scaled by its weight, to u[..n] @ m[..n]. */
  lemma VecMatStep(u: seq<real>, m: seq<seq<real>>, width: nat, n: nat)
    requires 0 < n <= |u| == |m| && HasWidth(m, width)
    ensures forall j :: 0 <= j < width ==>
      VecMatUpTo(u, m, width, n)[j] == VecMatUpTo(u, m, width, n - 1)[j] + u[n - 1] * m[n - 1][j]
  {
  }

  /** u[..n]'(m[..n] v) == (u[..n] @ m[..n]) v, for every (not necessarily symmetric) matrix m. */
  lemma {:induction false} AssociativityUpTo(u: seq<real>, m: seq<seq<real>>, v: seq<real>, n: nat)
    requires n <= |u| == |m| && HasWidth(m, |v|)
    ensures DotUpTo(u, MatVec(m, v), n) == Dot(VecMatUpTo(u, m, |v|, n), v)
  {
    var k := |v|;
    if n == 0 {
      DotZero(VecMatUpTo(u, m, k, 0), v, k);
    } else {
      AssociativityUpTo(u, m, v, n - 1);
      VecMatStep(u, m, k, n);
      DotLinear(VecMatUpTo(u, m, k, n - 1), u[n - 1], m[n - 1], VecMatUpTo(u, m, k, n), v, k);
    }
  }

  /** u'(m v) == (u'm) v for every (not necessarily symmetric) matrix m. */
  lemma Associativity(u: seq<real>, m: seq<seq<real>>, v: seq<real>)
    requires |u| == |m| && HasWidth(m, |v|)
    ensures Dot(u, MatVec(m, v)) == Dot(VecMat(u, m, |v|), v)
  {
    AssociativityUpTo(u, m, v, |u|);
  }

  /** Portfolio variance as numpy evaluates weights.T @ cov @ weights. */
  function Variance(w: seq<real>, cov: seq<seq<real>>): real
    requires IsSquare(cov, |w|)
  {
    Dot(VecMat(w, cov, |w|), w)
  }

  /** Marginal contributions cov @ w / s. */
  function Marginal(w: seq<real>, cov: seq<seq<real>>, s: real): (r: seq<real>)
    requires IsSquare(cov, |w|) && s != 0.0
    ensures |r| == |w|
  {
    var cw := MatVec(cov, w);
    seq(|w|, i requires 0 <= i < |w| => cw[i] / s)
  }

  /** Component contributions w * marginal, one per instrument. */
  function Components(w: seq<real>, cov: seq<seq<real>>, s: real): (r: seq<real>)
    requires IsSquare(cov, |w|) && s != 0.0
    ensures |r| == |w|
  {
    var m := Marginal(w, cov, s);
    seq(|w|, i requires 0 <= i < |w| => w[i] * m[i])
  }

  /** Summing a[i] * b[i] over the first n entries gives the partial dot product. */
  lemma {:induction false} SumOfProducts(a: seq<real>, b: seq<real>, n: nat)
    requires n <= |a| == |b|
    ensures Sum(seq(n, i requires 0 <= i < n => a[i] * b[i])) == DotUpTo(a, b, n)
  {
    if n > 0 {
      var q := seq(n, i requires 0 <= i < n => a[i] * b[i]);
      var q' := seq(n - 1, i requires 0 <= i < n - 1 => a[i] * b[i]);
      assert q[..n - 1] == q';
      SumOfProducts(a, b, n - 1);
    }
  }

  lemma ScaledProduct(x: real, y: real, s: real)
    requires s != 0.0
    ensures x * (y / s) == x * y / s
  {
  }

  lemma SquareOverRoot(s: real)
    requires s != 0.0
    ensures s * s / s == s
  {
  }

  /**
   * Euler identity: when s is the portfolio volatility (s > 0 and s * s is
   * the variance), the component contributions sum to s.
   */
  lemma EulerIdentity(w: seq<real>, cov: seq<seq<real>>, s: real)
    requires IsSquare(cov, |w|)
    requires s > 0.0 && s * s == Variance(w, cov)
    ensures Sum(Components(w, cov, s)) == s
  {
    var cw := MatVec(cov, w);
    var products := seq(|w|, i requires 0 <= i < |w| => w[i] * cw[i]);
    var scaled := seq(|w|, i requires 0 <= i < |w| => products[i] / s);
    forall i | 0 <= i < |w|
      ensures Components(w, cov, s)[i] == scaled[i]
    {
      ScaledProduct(w[i], cw[i], s);
    }
    assert Components(w, cov, s) == scaled;
    SumOfProducts(w, cw, |w|);
    SumDivided(products, s);
    Associativity(w, cov, w);
    assert Dot(w, cw) == s * s;
    SquareOverRoot(s);
  }

  /** Pairs each instrument identifier with its value, in portfolio order. */
  function Labelled(ids: seq<string>, values: seq<real>): (r: seq<(string, real)>)
    requires |ids| == |values|
    ensures |r| == |ids|
  {
    seq(|ids|, i requires 0 <= i < |ids| => (ids[i], values[i]))
  }

  function Values(s: seq<(string, real)>): (r: seq<real>)
    ensures |r| == |s|
  {
    seq(|s|, i requires 0 <= i < |s| => s[i].1)
  }

  /** Decreasing order of the values, stated one neighbour at a time. */
  ghost predicate SortedDescending(s: seq<(string, real)>)
  {
    |s| <= 1 || (s[0].1 >= s[1].1 && SortedDescending(s[1..]))
  }

  /** In a sequence sorted by decreasing value no value exceeds an earlier one. */
  lemma {:induction false} SortedDescendingOrder(s: seq<(string, real)>, i: nat, j: nat)
    requires SortedDescending(s) && i <= j < |s|
    ensures s[i].1 >= s[j].1
  {
    if i < j {
      if i == 0 {
        SortedDescendingOrder(s[1..], 0, j - 1);
      } else {
        SortedDescendingOrder(s[1..], i - 1, j - 1);
      }
    }
  }

  lemma ValuesCons(x: (string, real), s: seq<(string, real)>)
    ensures Sum(Values([x] + s)) == x.1 + Sum(Values(s))
  {
    assert Values([x] + s) == [x.1] + Values(s);
    SumCons(x.1, Values(s));
  }

  /** Inserts x into a sequence sorted by decreasing value, after every larger value. */
  function InsertDescending(x: (string, real), s: seq<(string, real)>): (r: seq<(string, real)>)
    ensures |r| == |s| + 1
    ensures multiset(r) == multiset(s) + multiset{x}
    ensures r[0] == x || (|s| > 0 && r[0] == s[0])
    ensures SortedDescending(s) ==> SortedDescending(r)
  {
    if |s| == 0 then [x]
    else if x.1 >= s[0].1 then [x] + s
    else
      var rest := InsertDescending(x, s[1..]);
      assert s == [s[0]] + s[1..];
      assert ([s[0]] + rest)[1..] == rest;
      [s[0]] + rest
  }

  /** pandas' sort_values(ascending=False): the same pairs, largest value first. */
  function SortDescending(s: seq<(string, real)>): (r: seq<(string, real)>)
    ensures |r| == |s|
    ensures multiset(r) == multiset(s)
    ensures SortedDescending(r)
  {
    if |s| == 0 then []
    else
      assert s == [s[0]] + s[1..];
      InsertDescending(s[0], SortDescending(s[1..]))
  }

  /** Inserting a pair adds its value to the total. */
  lemma {:induction false} InsertDescendingSum(x: (string, real), s: seq<(string, real)>)
    ensures Sum(Values(InsertDescending(x, s))) == x.1 + Sum(Values(s))
  {
    if |s| == 0 {
      ValuesCons(x, []);
    } else if x.1 >= s[0].1 {
      ValuesCons(x, s);
    } else {
      var rest := InsertDescending(x, s[1..]);
      InsertDescendingSum(x, s[1..]);
      assert s == [s[0]] + s[1..];
      ValuesCons(s[0], rest);
      ValuesCons(s[0], s[1..]);
    }
  }

  /** Sorting does not change the total of the values. */
  lemma {:induction false} SortDescendingSum(s: seq<(string, real)>)
    ensures Sum(Values(SortDescending(s))) == Sum(Values(s))
  {
    if |s| > 0 {
      SortDescendingSum(s[1..]);
      InsertDescendingSum(s[0], SortDescending(s[1..]));
      assert s == [s[0]] + s[1..];
      ValuesCons(s[0], s[1..]);
    }
  }
}
