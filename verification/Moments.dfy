/** Means and variances (src/stats/stats.service.ts:60-66), over reals.  The program reports the square root
    of the variance; spread is stated on the variance itself. */
module Moments {
  import opened Percentiles

  /** values.reduce((a, b) => a + f(b), 0) */
  function Total(f: real -> real, values: seq<real>): real {
    if values == [] then 0.0 else Total(f, values[..|values| - 1]) + f(values[|values| - 1])
  }

  function Itself(): real -> real {
    x => x
  }

  function Times(x: real, y: real): real {
    x * y
  }

  function Square(x: real): real {
    Times(x, x)
  }

  function SquareFrom(c: real): real -> real {
    x => Square(x - c)
  }

  function Mean(values: seq<real>): real
    requires |values| > 0
  {
    Total(Itself(), values) / |values| as real
  }

  function Variance(values: seq<real>): real {
    if |values| == 0 then 0.0 else Total(SquareFrom(Mean(values)), values) / |values| as real
  }

  // ----- The order of the samples does not matter -----

  lemma TotalOfExtension(f: real -> real, values: seq<real>, x: real)
    ensures Total(f, values + [x]) == Total(f, values) + f(x)
  {
    assert (values + [x])[..|values|] == values;
  }

  lemma {:induction false} TotalOfConcatenation(f: real -> real, s: seq<real>, t: seq<real>)
    ensures Total(f, s + t) == Total(f, s) + Total(f, t)
  {
    if t == [] {
      assert s + t == s;
    } else {
      var n := |t| - 1;
      TotalOfConcatenation(f, s, t[..n]);
      assert t == t[..n] + [t[n]] && s + t == (s + t[..n]) + [t[n]];
      TotalOfExtension(f, s + t[..n], t[n]);
      TotalOfExtension(f, t[..n], t[n]);
    }
  }

  lemma {:induction false} TotalDependsOnTheMultiset(f: real -> real, s: seq<real>, t: seq<real>)
    requires multiset(s) == multiset(t)
    ensures Total(f, s) == Total(f, t)
  {
    assert |s| == |multiset(s)| == |multiset(t)| == |t|;
    if s != [] {
      var n := |s| - 1;
      var k := WithoutLast(s, t);
      var left, right := t[..k], t[k + 1..];
      TotalDependsOnTheMultiset(f, s[..n], left + right);
      assert t == (left + [t[k]]) + right;
      TotalOfConcatenation(f, left + [t[k]], right);
      TotalOfExtension(f, left, t[k]);
      TotalOfConcatenation(f, left, right);
    }
  }

  lemma WithoutLast(s: seq<real>, t: seq<real>) returns (k: nat)
    requires multiset(s) == multiset(t) && s != []
    ensures k < |t| && t[k] == s[|s| - 1] && multiset(s[..|s| - 1]) == multiset(t[..k] + t[k + 1..])
  {
    var n := |s| - 1;
    assert s[n] in multiset(t);
    k :| 0 <= k < |t| && t[k] == s[n];
    WithoutOne(s, n);
    WithoutOne(t, k);
    assert s[..n] + s[n + 1..] == s[..n];
  }

  lemma WithoutOne<T>(s: seq<T>, k: nat)
    requires k < |s|
    ensures multiset(s[..k] + s[k + 1..]) == multiset(s) - multiset{s[k]}
  {
    var left, right := s[..k], s[k + 1..];
    assert s == left + ([s[k]] + right);
    assert multiset(s) == multiset(left) + multiset([s[k]] + right);
    assert multiset([s[k]] + right) == multiset{s[k]} + multiset(right);
  }

  /** So the sorted samples have the moments of the unsorted ones. */
  lemma MomentsDependOnTheMultiset(s: seq<real>, t: seq<real>)
    requires multiset(s) == multiset(t)
    ensures |s| == |t| && Variance(s) == Variance(t)
    ensures |s| > 0 ==> Mean(s) == Mean(t)
  {
    assert |s| == |multiset(s)| == |multiset(t)| == |t|;
    if |s| > 0 {
      TotalDependsOnTheMultiset(Itself(), s, t);
      TotalDependsOnTheMultiset(SquareFrom(Mean(s)), s, t);
    }
  }

  // ----- The mean -----

  lemma OneMore(x: real, n: nat)
    ensures x * (n + 1) as real == x * n as real + x
  {
  }

  lemma {:induction false} TotalIsBounded(values: seq<real>, low: real, high: real)
    requires forall x | x in values :: low <= x <= high
    ensures low * |values| as real <= Total(Itself(), values) <= high * |values| as real
  {
    if values != [] {
      var n := |values| - 1;
      assert forall x | x in values[..n] :: x in values;
      TotalIsBounded(values[..n], low, high);
      assert values[n] in values;
      OneMore(low, n);
      OneMore(high, n);
    }
  }

  lemma QuotientIsBounded(total: real, n: real, low: real, high: real)
    requires n > 0.0 && low * n <= total <= high * n
    ensures low <= total / n <= high
  {
    var q := total / n;
    assert q * n == total;
    if q < low { ProductIsPositive(low - q, n); }
    if q > high { ProductIsPositive(q - high, n); }
  }

  lemma ProductIsPositive(x: real, y: real)
    requires x > 0.0 && y > 0.0
    ensures x * y > 0.0
  {
  }

  lemma MeanIsBounded(values: seq<real>, low: real, high: real)
    requires |values| > 0 && forall x | x in values :: low <= x <= high
    ensures low <= Mean(values) <= high
  {
    TotalIsBounded(values, low, high);
    QuotientIsBounded(Total(Itself(), values), |values| as real, low, high);
  }

  /** The mean of one more sample, which with the mean of the first determines all means. */
  lemma RunningMean(values: seq<real>, x: real)
    ensures Mean([x]) == x
    ensures |values| > 0 ==> Mean(values + [x]) * (|values| + 1) as real == Mean(values) * |values| as real + x
  {
    TotalOfExtension(Itself(), [], x);
    assert [] + [x] == [x];
    TotalOfExtension(Itself(), values, x);
  }

  // ----- The variance -----

  lemma SquareExpands(x: real, c: real)
    ensures Square(x - c) == Square(x) - 2.0 * c * x + Square(c)
  {
  }

  lemma {:induction false} SquaresExpand(values: seq<real>, c: real)
    ensures Total(SquareFrom(c), values)
         == Total(SquareFrom(0.0), values) - 2.0 * c * Total(Itself(), values) + Square(c) * |values| as real
  {
    hide Square;
    if values != [] {
      var n := |values| - 1;
      var x, sum := values[n], Total(Itself(), values[..n]);
      SquaresExpand(values[..n], c);
      SquareExpands(x, c);
      SumDistributes(2.0 * c, sum, x);
      OneMore(Square(c), n);
      assert x - 0.0 == x;
    }
  }

  lemma SumDistributes(a: real, x: real, y: real)
    ensures a * (x + y) == a * x + a * y
  {
  }

  /** The deviations from any centre: the variance measures those from the mean, and no centre does better. */
  lemma DeviationsFromACentre(values: seq<real>, c: real)
    requires |values| > 0
    ensures Total(SquareFrom(c), values) / |values| as real == Variance(values) + Square(Mean(values) - c)
    ensures Variance(values) <= Total(SquareFrom(c), values) / |values| as real
  {
    hide Total, Square;
    var n, mean := |values| as real, Mean(values);
    var sum, squares := Total(Itself(), values), Total(SquareFrom(0.0), values);
    SquaresExpand(values, c);
    SquaresExpand(values, mean);
    Quotient(n, squares, sum, c);
    Quotient(n, squares, sum, mean);
    SquareExpands(mean, c);
    SquareExpands(mean, mean);
    assert Square(mean - mean) == 0.0 by { SquareOfZero(); }
    SquareIsNonNegative(mean - c);
  }

  lemma SquareOfZero()
    ensures Square(0.0) == 0.0
  {
  }

  lemma Quotient(n: real, squares: real, sum: real, c: real)
    requires n > 0.0
    ensures (squares - 2.0 * c * sum + Square(c) * n) / n == squares / n - 2.0 * c * (sum / n) + Square(c)
  {
    hide Square;
    var a, b := squares / n, sum / n;
    assert a * n == squares && b * n == sum;
    Factor(a, 2.0 * c, b, Square(c), n);
    assert (a - 2.0 * c * b + Square(c)) * n == squares - 2.0 * c * sum + Square(c) * n;
  }

  lemma Factor(a: real, c: real, b: real, d: real, n: real)
    ensures (a - c * b + d) * n == a * n - c * (b * n) + d * n
  {
  }

  lemma TimesIsPositive(x: real, y: real)
    requires (x > 0.0 && y > 0.0) || (x < 0.0 && y < 0.0)
    ensures Times(x, y) > 0.0
  {
    if x < 0.0 { ProductIsPositive(0.0 - x, 0.0 - y); }
  }

  lemma SquareIsPositive(x: real)
    requires x != 0.0
    ensures Square(x) > 0.0
  {
    hide Times;
    TimesIsPositive(x, x);
  }

  lemma SquareIsNonNegative(x: real)
    ensures Square(x) >= 0.0
    ensures Square(x) == 0.0 ==> x == 0.0
  {
    hide Square;
    if x != 0.0 { SquareIsPositive(x); } else { SquareOfZero(); }
  }

  /** Mean of squares minus square of the mean. */
  lemma VarianceByMeanOfSquares(values: seq<real>)
    requires |values| > 0
    ensures Variance(values) == Total(SquareFrom(0.0), values) / |values| as real - Square(Mean(values))
  {
    assert Mean(values) - 0.0 == Mean(values);
    DeviationsFromACentre(values, 0.0);
  }

  /** The variance of one more sample, by the recurrence of Welford. */
  lemma RunningVariance(values: seq<real>, x: real)
    requires |values| > 0
    ensures Variance([x]) == 0.0
    ensures Variance(values + [x]) * (|values| + 1) as real
         == Variance(values) * |values| as real + (x - Mean(values)) * (x - Mean(values + [x]))
  {
    hide Total;
    var n, all := |values| as real, values + [x];
    RunningMean(values, x);
    NoSpreadIffAllAgree([x]);
    VarianceByMeanOfSquares(values);
    VarianceByMeanOfSquares(all);
    TotalOfExtension(SquareFrom(0.0), values, x);
    var m, k, q := Mean(values), Mean(all), Total(SquareFrom(0.0), values);
    Welford(n, m, k, q, x, Variance(values), Variance(all));
  }

  lemma Welford(n: real, m: real, k: real, q: real, x: real, v: real, w: real)
    requires n > 0.0 && k * (n + 1.0) == m * n + x
    requires v == q / n - Square(m) && w == (q + Square(x - 0.0)) / (n + 1.0) - Square(k)
    ensures w * (n + 1.0) == v * n + (x - m) * (x - k)
  {
    hide Square;
    VarianceTimes(q, n, m, v);
    VarianceTimes(q + Square(x - 0.0), n + 1.0, k, w);
    MeansMeet(n, m, k, x);
    SquareFromZero(x);
    Deviations(x, m, k);
    Balance(w * (n + 1.0), v * n, q, x * x, (k * k) * (n + 1.0), (m * m) * n, m * x, m * k, k * x, (x - m) * (x - k));
  }

  lemma Balance(wn: real, vn: real, q: real, xx: real, kkn: real, mmn: real, mx: real, mk: real, kx: real, product: real)
    requires wn == q + xx - kkn && vn == q - mmn
    requires kkn == mmn + mx - mk + kx && product == xx - kx - mx + mk
    ensures wn == vn + product
  {
  }

  lemma SquareFromZero(x: real)
    ensures Square(x - 0.0) == x * x
  {
  }

  lemma VarianceTimes(q: real, n: real, m: real, v: real)
    requires n > 0.0 && v == q / n - Square(m)
    ensures v * n == q - (m * m) * n
  {
    var a := q / n;
    assert a * n == q;
  }

  lemma MeansMeet(n: real, m: real, k: real, x: real)
    requires k * (n + 1.0) == m * n + x
    ensures (k * k) * (n + 1.0) == (m * m) * n + m * x - m * k + k * x
  {
    var t := m * n + x;
    assert (k * k) * (n + 1.0) == k * t;
    assert k * t == (k * m) * n + k * x;
    assert m * t == (m * m) * n + m * x;
    assert m * t == (k * m) * n + m * k by { assert m * (k * (n + 1.0)) == (k * m) * n + m * k; }
  }

  lemma Deviations(x: real, m: real, k: real)
    ensures (x - m) * (x - k) == x * x - k * x - m * x + m * k
  {
  }

  lemma {:induction false} EachDeviationCounts(values: seq<real>, c: real)
    ensures Total(SquareFrom(c), values) >= 0.0
    ensures forall x | x in values :: Square(x - c) <= Total(SquareFrom(c), values)
  {
    hide Square;
    if values != [] {
      var n := |values| - 1;
      EachDeviationCounts(values[..n], c);
      SquareIsNonNegative(values[n] - c);
      assert forall x | x in values :: x in values[..n] || x == values[n];
    }
  }

  lemma {:induction false} NoDeviation(values: seq<real>, c: real)
    requires forall x | x in values :: x == c
    ensures Total(SquareFrom(c), values) == 0.0
  {
    if values != [] {
      var n := |values| - 1;
      assert values[n] in values && forall x | x in values[..n] :: x in values;
      NoDeviation(values[..n], c);
      SquareOfZero();
    }
  }

  /** There is no spread exactly when all samples agree. */
  lemma NoSpreadIffAllAgree(values: seq<real>)
    ensures Variance(values) >= 0.0
    ensures Variance(values) == 0.0 <==> forall x, y | x in values && y in values :: x == y
  {
    if |values| > 0 {
      hide Square;
      var n, mean := |values| as real, Mean(values);
      var squares := Total(SquareFrom(mean), values);
      EachDeviationCounts(values, mean);
      ShareIsNonNegative(squares, n);
      if Variance(values) == 0.0 {
        forall x | x in values ensures x == mean { SquareIsNonNegative(x - mean); }
      }
      if forall x, y | x in values && y in values :: x == y {
        assert values[0] in values;
        MeanIsBounded(values, values[0], values[0]);
        NoDeviation(values, mean);
      }
    }
  }

  lemma ShareIsNonNegative(x: real, n: real)
    requires x >= 0.0 && n > 0.0
    ensures x / n >= 0.0
    ensures x / n == 0.0 <==> x == 0.0
  {
    assert x / n * n == x;
    if x / n < 0.0 { ProductIsPositive(0.0 - x / n, n); }
  }
}
