/** The interpolated percentile (src/stats/stats.service.ts:68-75), over reals. */
module Percentiles {

  ghost predicate Ascending(s: seq<real>) {
    forall i, j | 0 <= i <= j < |s| :: s[i] <= s[j]
  }

  lemma ProductIsNonNegative(x: real, y: real)
    requires x >= 0.0 && y >= 0.0
    ensures x * y >= 0.0
  {
  }

  function Portion(share: real, whole: real): (r: real)
    requires 0.0 <= share <= 1.0 && 0.0 <= whole
    ensures 0.0 <= r <= whole
  {
    ProductIsNonNegative(share, whole);
    ProductIsNonNegative(1.0 - share, whole);
    share * whole
  }

  /** (p / 100) * (n - 1) */
  function Position(p: real, n: nat): (idx: real)
    requires 0.0 <= p <= 100.0 && n >= 1
    ensures 0.0 <= idx <= (n - 1) as real
  {
    Portion(p / 100.0, (n - 1) as real)
  }

  function Ceiling(x: real): (c: int)
    ensures x <= c as real < x + 1.0
  {
    if x == x.Floor as real then x.Floor else x.Floor + 1
  }

  function Blend(a: real, b: real, t: real): real {
    a + (b - a) * t
  }

  function Interpolate(sorted: seq<real>, idx: real): real
    requires 0.0 <= idx <= (|sorted| - 1) as real
  {
    var lower, upper := idx.Floor, Ceiling(idx);
    if lower == upper then sorted[lower] else Blend(sorted[lower], sorted[upper], idx - lower as real)
  }

  function Percentile(sorted: seq<real>, p: real): real
    requires 0.0 <= p <= 100.0
  {
    if |sorted| == 0 then 0.0 else Interpolate(sorted, Position(p, |sorted|))
  }

  // ----- The value -----

  /** On a rank the percentile is the sample, and between two ranks it is linear in p. */
  lemma PercentileValue(sorted: seq<real>, p: real, k: nat)
    requires 0.0 <= p <= 100.0 && k + 1 < |sorted|
    requires k as real <= (p / 100.0) * (|sorted| - 1) as real <= (k + 1) as real
    ensures Percentile(sorted, p)
         == sorted[k] + (sorted[k + 1] - sorted[k]) * ((p / 100.0) * (|sorted| - 1) as real - k as real)
  {
    var idx := (p / 100.0) * (|sorted| - 1) as real;
    assert Position(p, |sorted|) == idx;
    InterpolatedValue(sorted, idx, k);
  }

  lemma InterpolatedValue(sorted: seq<real>, idx: real, k: nat)
    requires k + 1 < |sorted| && k as real <= idx <= (k + 1) as real
    ensures Interpolate(sorted, idx) == sorted[k] + (sorted[k + 1] - sorted[k]) * (idx - k as real)
  {
    var a, b := sorted[k], sorted[k + 1];
    if idx == k as real {
      assert idx - k as real == 0.0;
      assert (b - a) * 0.0 == 0.0;
    } else if idx == (k + 1) as real {
      assert idx - k as real == 1.0;
      assert (b - a) * 1.0 == b - a;
    } else {
      assert idx.Floor == k && Ceiling(idx) == k + 1;
    }
  }

  /** Every p lies at a rank or between two. */
  lemma RankOf(n: nat, p: real) returns (k: nat)
    requires 0.0 <= p <= 100.0 && n >= 2
    ensures k + 1 < n && k as real <= (p / 100.0) * (n - 1) as real <= (k + 1) as real
  {
    var idx := Position(p, n);
    assert idx == (p / 100.0) * (n - 1) as real;
    k := if idx.Floor < n - 1 then idx.Floor else n - 2;
  }

  /** Without samples the percentile is 0, and of one sample it is that one. */
  lemma PercentileOfFewSamples(sorted: seq<real>, p: real)
    requires 0.0 <= p <= 100.0
    ensures |sorted| == 0 ==> Percentile(sorted, p) == 0.0
    ensures |sorted| == 1 ==> Percentile(sorted, p) == sorted[0]
  {
    if |sorted| == 1 { assert Position(p, 1) == 0.0; }
  }

  /** The 90th percentile of 1, ..., 10 is 9.1. */
  lemma NinetiethOfTen()
    ensures Percentile([1.0, 2.0, 3.0, 4.0, 5.0, 6.0, 7.0, 8.0, 9.0, 10.0], 90.0) == 9.1
  {
    PercentileValue([1.0, 2.0, 3.0, 4.0, 5.0, 6.0, 7.0, 8.0, 9.0, 10.0], 90.0, 8);
  }

  // ----- Between the neighbouring order statistics -----

  lemma BlendIsBetween(a: real, b: real, t: real)
    requires a <= b && 0.0 <= t <= 1.0
    ensures a <= Blend(a, b, t) <= b
  {
    ProductIsNonNegative(b - a, t);
    ProductIsNonNegative(b - a, 1.0 - t);
  }

  lemma InterpolatesBetweenNeighbours(sorted: seq<real>, idx: real)
    requires Ascending(sorted) && 0.0 <= idx <= (|sorted| - 1) as real
    ensures sorted[idx.Floor] <= Interpolate(sorted, idx) <= sorted[Ceiling(idx)]
  {
    hide Blend;
    var lower, upper := idx.Floor, Ceiling(idx);
    BlendIsBetween(sorted[lower], sorted[upper], idx - lower as real);
  }

  /** At least as many values as the rank says are not above the percentile, and likewise below it. */
  lemma PercentileIsBetweenNeighbours(sorted: seq<real>, p: real)
    requires Ascending(sorted) && |sorted| > 0 && 0.0 <= p <= 100.0
    ensures var idx := Position(p, |sorted|);
            && (forall i | 0 <= i <= idx.Floor :: sorted[i] <= Percentile(sorted, p))
            && (forall i | Ceiling(idx) <= i < |sorted| :: Percentile(sorted, p) <= sorted[i])
  {
    InterpolatesBetweenNeighbours(sorted, Position(p, |sorted|));
  }

  /** A single value is every percentile of itself, and the extremes are the 0th and the 100th. */
  lemma ExtremePercentiles(sorted: seq<real>)
    requires Ascending(sorted) && |sorted| > 0
    ensures Percentile(sorted, 0.0) == sorted[0] && Percentile(sorted, 100.0) == sorted[|sorted| - 1]
  {
    assert Position(0.0, |sorted|) == 0.0;
    assert Position(100.0, |sorted|) == (|sorted| - 1) as real;
  }

  // ----- Monotone -----

  lemma BlendIsMonotone(a: real, b: real, t: real, u: real)
    requires a <= b && t <= u
    ensures Blend(a, b, t) <= Blend(a, b, u)
  {
    ProductIsNonNegative(b - a, u - t);
  }

  lemma InterpolateIsMonotone(sorted: seq<real>, t: real, u: real)
    requires Ascending(sorted) && 0.0 <= t <= u <= (|sorted| - 1) as real
    ensures Interpolate(sorted, t) <= Interpolate(sorted, u)
  {
    hide Blend;
    InterpolatesBetweenNeighbours(sorted, t);
    InterpolatesBetweenNeighbours(sorted, u);
    if t.Floor == u.Floor {
      if Ceiling(t) != t.Floor {
        BlendIsMonotone(sorted[t.Floor], sorted[Ceiling(t)], t - t.Floor as real, u - t.Floor as real);
      }
    } else {
      assert Ceiling(t) <= u.Floor;
    }
  }

  /** So p50 never exceeds p90. */
  lemma PercentileIsMonotone(sorted: seq<real>, p: real, q: real)
    requires Ascending(sorted) && 0.0 <= p <= q <= 100.0
    ensures Percentile(sorted, p) <= Percentile(sorted, q)
  {
    if |sorted| > 0 {
      var last := (|sorted| - 1) as real;
      ProductIsNonNegative(q / 100.0 - p / 100.0, last);
      assert Position(p, |sorted|) <= Position(q, |sorted|);
      InterpolateIsMonotone(sorted, Position(p, |sorted|), Position(q, |sorted|));
    }
  }

  // ----- Independent of the order of the samples -----

  function Insert(x: real, sorted: seq<real>): seq<real> {
    if sorted == [] then [x]
    else if x <= sorted[0] then [x] + sorted
    else [sorted[0]] + Insert(x, sorted[1..])
  }

  /** values.sort((a, b) => a - b) */
  function Sorted(values: seq<real>): seq<real> {
    if values == [] then [] else Insert(values[0], Sorted(values[1..]))
  }

  lemma {:induction false} InsertAdds(x: real, sorted: seq<real>)
    ensures multiset(Insert(x, sorted)) == multiset(sorted) + multiset{x}
  {
    if sorted != [] && x > sorted[0] {
      InsertAdds(x, sorted[1..]);
      assert sorted == [sorted[0]] + sorted[1..];
    }
  }

  predicate AtLeast(low: real, s: seq<real>) {
    forall i | 0 <= i < |s| :: low <= s[i]
  }

  lemma Prepend(low: real, s: seq<real>)
    requires Ascending(s) && AtLeast(low, s)
    ensures Ascending([low] + s)
  {
    forall i, j | 0 <= i <= j < |s| + 1 ensures ([low] + s)[i] <= ([low] + s)[j] {
      if i > 0 { assert s[i - 1] <= s[j - 1]; }
    }
  }

  lemma {:induction false} InsertKeepsOrder(x: real, sorted: seq<real>, low: real)
    requires Ascending(sorted) && AtLeast(low, sorted) && low <= x
    ensures Ascending(Insert(x, sorted)) && AtLeast(low, Insert(x, sorted))
  {
    if sorted != [] {
      if x <= sorted[0] {
        assert forall i | 0 <= i < |sorted| :: sorted[0] <= sorted[i];
        Prepend(x, sorted);
      } else {
        var first, rest := sorted[0], sorted[1..];
        assert forall i | 0 <= i < |rest| :: rest[i] == sorted[i + 1] && sorted[0] <= sorted[i + 1];
        assert Ascending(rest);
        InsertKeepsOrder(x, rest, first);
        Prepend(first, Insert(x, rest));
      }
    }
  }

  lemma {:induction false} SortedKeepsSamples(values: seq<real>)
    ensures multiset(Sorted(values)) == multiset(values) && |Sorted(values)| == |values|
  {
    if values != [] {
      SortedKeepsSamples(values[1..]);
      assert values == [values[0]] + values[1..];
      InsertAdds(values[0], Sorted(values[1..]));
    }
    assert |Sorted(values)| == |multiset(Sorted(values))| == |multiset(values)| == |values|;
  }

  lemma {:induction false} SortedAscends(values: seq<real>)
    ensures Ascending(Sorted(values))
  {
    if values != [] {
      var x, rest := values[0], Sorted(values[1..]);
      SortedAscends(values[1..]);
      var low := if rest != [] && rest[0] < x then rest[0] else x;
      assert AtLeast(low, rest) by { assert forall i | 0 <= i < |rest| :: rest[0] <= rest[i]; }
      InsertKeepsOrder(x, rest, low);
    }
  }

  lemma SortedIsAscending(values: seq<real>)
    ensures Ascending(Sorted(values)) && multiset(Sorted(values)) == multiset(values)
    ensures |Sorted(values)| == |values|
  {
    SortedAscends(values);
    SortedKeepsSamples(values);
  }

  lemma {:induction false} AscendingIsUnique(s: seq<real>, t: seq<real>)
    requires Ascending(s) && Ascending(t) && multiset(s) == multiset(t)
    ensures s == t
  {
    assert |s| == |multiset(s)| == |multiset(t)| == |t|;
    if s != [] {
      FirstIsLeast(s, t);
      FirstIsLeast(t, s);
      TailsAgree(s, t);
      AscendingTail(s);
      AscendingTail(t);
      AscendingIsUnique(s[1..], t[1..]);
      assert s == [s[0]] + s[1..] && t == [t[0]] + t[1..];
    }
  }

  lemma AscendingTail(s: seq<real>)
    requires Ascending(s) && s != []
    ensures Ascending(s[1..])
  {
    forall i, j | 0 <= i <= j < |s| - 1 ensures s[1..][i] <= s[1..][j] {
      assert s[i + 1] <= s[j + 1];
    }
  }

  lemma FirstIsLeast(s: seq<real>, t: seq<real>)
    requires Ascending(s) && multiset(s) == multiset(t) && s != [] && t != []
    ensures s[0] <= t[0]
  {
    hide Ascending;
    assert t[0] in multiset(t);
    assert t[0] in multiset(s);
    var k :| 0 <= k < |s| && s[k] == t[0];
    assert s[0] <= s[k] by { FirstBelow(s, k); }
  }

  lemma FirstBelow(s: seq<real>, k: nat)
    requires Ascending(s) && k < |s|
    ensures s[0] <= s[k]
  {
  }

  lemma TailsAgree(s: seq<real>, t: seq<real>)
    requires multiset(s) == multiset(t) && s != [] && t != [] && s[0] == t[0]
    ensures multiset(s[1..]) == multiset(t[1..])
  {
    assert s == [s[0]] + s[1..] && t == [t[0]] + t[1..];
    assert multiset(s[1..]) == multiset(s) - multiset{s[0]};
    assert multiset(t[1..]) == multiset(t) - multiset{t[0]};
  }

  /** Whatever the order of the rows and whatever sorting algorithm: the percentile is that of the multiset. */
  lemma PercentileDependsOnTheMultiset(values: seq<real>, others: seq<real>, sorted: seq<real>, p: real)
    requires multiset(values) == multiset(others) == multiset(sorted) && Ascending(sorted) && 0.0 <= p <= 100.0
    ensures Percentile(Sorted(values), p) == Percentile(Sorted(others), p) == Percentile(sorted, p)
  {
    SortedIsAscending(values);
    SortedIsAscending(others);
    AscendingIsUnique(Sorted(values), sorted);
    AscendingIsUnique(Sorted(others), sorted);
  }

  // ----- Units -----

  function Scale(a: real, b: real, x: real): real {
    a * x + b
  }

  function Unscale(a: real, b: real, y: real): real
    requires a != 0.0
  {
    (y - b) / a
  }

  function Rescaled(s: seq<real>, a: real, b: real): (r: seq<real>)
    ensures |r| == |s| && forall i | 0 <= i < |s| :: r[i] == Scale(a, b, s[i])
  {
    seq(|s|, i requires 0 <= i < |s| => Scale(a, b, s[i]))
  }

  function Reversed(s: seq<real>): (r: seq<real>)
    ensures |r| == |s| && forall i | 0 <= i < |s| :: r[i] == s[|s| - 1 - i]
  {
    seq(|s|, i requires 0 <= i < |s| => s[|s| - 1 - i])
  }

  lemma CountOfFirst(x: real, rest: seq<real>, y: real)
    ensures multiset([x] + rest)[y] == multiset(rest)[y] + if x == y then 1 else 0
  {
  }

  /** A scaled value occurs as often as the one sample it comes from. */
  lemma {:induction false} RescaledMultiset(s: seq<real>, a: real, b: real, y: real)
    requires a != 0.0
    ensures multiset(Rescaled(s, a, b))[y] == multiset(s)[Unscale(a, b, y)]
  {
    hide Scale, Unscale, Rescaled;
    if s != [] {
      var x, rest := s[0], s[1..];
      RescaledMultiset(rest, a, b, y);
      assert s == [x] + rest;
      assert Rescaled(s, a, b) == [Scale(a, b, x)] + Rescaled(rest, a, b);
      CountOfFirst(x, rest, Unscale(a, b, y));
      CountOfFirst(Scale(a, b, x), Rescaled(rest, a, b), y);
      UnscaleInverts(a, b, x, y);
    }
  }

  lemma UnscaleInverts(a: real, b: real, x: real, y: real)
    requires a != 0.0
    ensures Scale(a, b, x) == y <==> x == Unscale(a, b, y)
  {
    assert a * ((y - b) / a) == y - b;
    if a * x == y - b { assert a * (x - (y - b) / a) == 0.0; }
  }

  lemma RescaledMultisets(s: seq<real>, t: seq<real>, a: real, b: real)
    requires multiset(s) == multiset(t)
    ensures multiset(Rescaled(s, a, b)) == multiset(Rescaled(t, a, b))
  {
    if a == 0.0 {
      assert |s| == |multiset(s)| == |multiset(t)| == |t|;
      assert Rescaled(s, a, b) == Rescaled(t, a, b);
    } else {
      forall y: real ensures multiset(Rescaled(s, a, b))[y] == multiset(Rescaled(t, a, b))[y] {
        RescaledMultiset(s, a, b, y);
        RescaledMultiset(t, a, b, y);
      }
    }
  }

  lemma {:induction false} ReversedMultiset(s: seq<real>)
    ensures multiset(Reversed(s)) == multiset(s)
  {
    if s != [] {
      ReversedMultiset(s[1..]);
      assert s == [s[0]] + s[1..];
      assert Reversed(s) == Reversed(s[1..]) + [s[0]];
    }
  }

  lemma Scales(a: real, b: real, x: real, y: real)
    requires x <= y
    ensures a >= 0.0 ==> Scale(a, b, x) <= Scale(a, b, y)
    ensures a <= 0.0 ==> Scale(a, b, y) <= Scale(a, b, x)
  {
    if a >= 0.0 { ProductIsNonNegative(a, y - x); }
    if a <= 0.0 { ProductIsNonNegative(0.0 - a, y - x); }
  }

  lemma RescaledAscends(s: seq<real>, a: real, b: real)
    requires Ascending(s) && a >= 0.0
    ensures Ascending(Rescaled(s, a, b))
  {
    hide Scale;
    var r := Rescaled(s, a, b);
    forall i, j | 0 <= i <= j < |r| ensures r[i] <= r[j] { Scales(a, b, s[i], s[j]); }
  }

  lemma RescaledDescends(s: seq<real>, a: real, b: real)
    requires Ascending(s) && a <= 0.0
    ensures Ascending(Reversed(Rescaled(s, a, b)))
  {
    hide Scale;
    var n, r := |s|, Reversed(Rescaled(s, a, b));
    forall i, j | 0 <= i <= j < n ensures r[i] <= r[j] { Scales(a, b, s[n - 1 - j], s[n - 1 - i]); }
  }

  lemma BlendScales(a: real, b: real, x: real, y: real, t: real)
    ensures Blend(Scale(a, b, x), Scale(a, b, y), t) == Scale(a, b, Blend(x, y, t))
  {
    Distribute(a, y - x, t);
    assert a * (y - x) == a * y - a * x;
    assert a * (x + (y - x) * t) == a * x + a * ((y - x) * t);
  }

  lemma Distribute(a: real, d: real, t: real)
    ensures (a * d) * t == a * (d * t)
  {
  }

  lemma BlendMirrors(x: real, y: real, t: real)
    ensures Blend(y, x, 1.0 - t) == Blend(x, y, t)
  {
  }

  lemma InterpolateRescaled(s: seq<real>, idx: real, a: real, b: real)
    requires 0.0 <= idx <= (|s| - 1) as real
    ensures Interpolate(Rescaled(s, a, b), idx) == Scale(a, b, Interpolate(s, idx))
  {
    hide Blend, Scale;
    BlendScales(a, b, s[idx.Floor], s[Ceiling(idx)], idx - idx.Floor as real);
  }

  lemma MirroredFloor(idx: real, last: nat)
    requires 0.0 <= idx <= last as real
    ensures (last as real - idx).Floor == last - Ceiling(idx)
    ensures Ceiling(last as real - idx) == last - idx.Floor
  {
  }

  lemma InterpolateReversed(s: seq<real>, idx: real)
    requires 0.0 <= idx <= (|s| - 1) as real
    ensures Interpolate(Reversed(s), (|s| - 1) as real - idx) == Interpolate(s, idx)
  {
    hide Blend;
    MirroredFloor(idx, |s| - 1);
    BlendMirrors(s[idx.Floor], s[Ceiling(idx)], idx - idx.Floor as real);
  }

  /** Converting the unit of the samples converts the percentile. */
  lemma PercentileCommutesWithUnits(values: seq<real>, scaled: seq<real>, p: real, a: real, b: real)
    requires |values| > 0 && 0.0 <= p <= 100.0 && a >= 0.0
    requires |scaled| == |values| && forall i | 0 <= i < |values| :: scaled[i] == a * values[i] + b
    ensures Percentile(Sorted(scaled), p) == a * Percentile(Sorted(values), p) + b
  {
    hide Percentile, Rescaled, Sorted;
    IsRescaled(values, scaled, a, b);
    ScaledPercentile(values, p, a, b);
  }

  lemma IsRescaled(values: seq<real>, scaled: seq<real>, a: real, b: real)
    requires |scaled| == |values| && forall i | 0 <= i < |values| :: scaled[i] == a * values[i] + b
    ensures scaled == Rescaled(values, a, b)
  {
  }

  lemma ScaledPercentile(values: seq<real>, p: real, a: real, b: real)
    requires |values| > 0 && 0.0 <= p <= 100.0 && a >= 0.0
    ensures Percentile(Sorted(Rescaled(values, a, b)), p) == Scale(a, b, Percentile(Sorted(values), p))
  {
    hide Interpolate, Ascending, Rescaled, Position, Scale, Sorted;
    var s := Sorted(values);
    SortedIsAscending(values);
    SortedIsAscending(Rescaled(values, a, b));
    RescaledMultisets(s, values, a, b);
    RescaledAscends(s, a, b);
    AscendingIsUnique(Sorted(Rescaled(values, a, b)), Rescaled(s, a, b));
    InterpolateRescaled(s, Position(p, |s|), a, b);
  }

  /** Turning the axis around mirrors the rank: left of the target at p is right of it at 100 - p. */
  lemma PercentileOfTheMirroredAxis(values: seq<real>, scaled: seq<real>, p: real, a: real, b: real)
    requires |values| > 0 && 0.0 <= p <= 100.0 && a <= 0.0
    requires |scaled| == |values| && forall i | 0 <= i < |values| :: scaled[i] == a * values[i] + b
    ensures Percentile(Sorted(scaled), p) == a * Percentile(Sorted(values), 100.0 - p) + b
  {
    hide Percentile, Rescaled, Sorted;
    IsRescaled(values, scaled, a, b);
    MirroredPercentile(values, p, a, b);
  }

  lemma MirroredPercentile(values: seq<real>, p: real, a: real, b: real)
    requires |values| > 0 && 0.0 <= p <= 100.0 && a <= 0.0
    ensures Percentile(Sorted(Rescaled(values, a, b)), p) == Scale(a, b, Percentile(Sorted(values), 100.0 - p))
  {
    hide Interpolate, Ascending, Rescaled, Reversed, Position, Scale, Sorted;
    var s := Sorted(values);
    var r := Rescaled(s, a, b);
    SortedIsAscending(values);
    SortedIsAscending(Rescaled(values, a, b));
    RescaledMultisets(s, values, a, b);
    RescaledDescends(s, a, b);
    ReversedMultiset(r);
    AscendingIsUnique(Sorted(Rescaled(values, a, b)), Reversed(r));
    assert Sorted(Rescaled(values, a, b)) == Reversed(r) && |Reversed(r)| == |r| == |s|;
    hide Percentile;
    PercentileOfReversed(r, p);
    InterpolateRescaled(s, Position(100.0 - p, |s|), a, b);
    PercentileIsInterpolated(s, 100.0 - p);
  }

  lemma PercentileIsInterpolated(s: seq<real>, p: real)
    requires |s| > 0 && 0.0 <= p <= 100.0
    ensures Percentile(s, p) == Interpolate(s, Position(p, |s|))
  {
  }

  lemma PercentileOfReversed(s: seq<real>, p: real)
    requires |s| > 0 && 0.0 <= p <= 100.0
    ensures |Reversed(s)| == |s| && Percentile(Reversed(s), p) == Interpolate(s, Position(100.0 - p, |s|))
  {
    hide Interpolate, Position;
    MirroredPosition(p, |s|);
    InterpolateReversed(s, Position(100.0 - p, |s|));
  }

  lemma MirroredPosition(p: real, n: nat)
    requires 0.0 <= p <= 100.0 && n >= 1
    ensures Position(p, n) == (n - 1) as real - Position(100.0 - p, n)
  {
    assert (100.0 - p) / 100.0 == 1.0 - p / 100.0;
    assert (1.0 - p / 100.0) * (n - 1) as real == (n - 1) as real - (p / 100.0) * (n - 1) as real;
  }
}
