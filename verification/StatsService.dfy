/** Per-club statistics of a user (src/stats/stats.service.ts). */
module StatsService {
  import opened Domain
  import opened Moments
  import opened Percentiles
  import opened Pagination

  // ----- The selection -----

  const MAX_STATS_ROWS := 10_000
  const LOW_SAMPLE_SIZE_THRESHOLD := 10
  const PUTTER := "PT"

  datatype StatsQuery = StatsQuery(since: Date, until: Date, club: Option<string>)

  datatype StatsError = BadDate | EmptyWindow | UnknownClub

  predicate AcceptableStats(query: StatsQuery, now: int) {
    && !query.since.Unparsable?
    && !query.until.Unparsable?
    && WindowDate(query.since, now - DEFAULT_WINDOW_MS) < WindowDate(query.until, now)
    && KnownClub(query.club)
  }

  function StatsCriteria(filter: Filter, query: StatsQuery, now: int): Criteria
    requires AcceptableStats(query, now)
  {
    Criteria(WindowDate(query.since, now - DEFAULT_WINDOW_MS), WindowDate(query.until, now),
             filter.canonicalUserId, filter.vendor, filter.vendorUserId, query.club, true, None)
  }

  /** The rows that belong into the statistics: originals in the window, without putts. */
  function Matching(table: seq<Shot>, c: Criteria): set<Shot> {
    set row | row in table && Matches(c, row) && row.club != PUTTER
  }

  /** An answer to the query: ORDER BY captured_at_utc DESC LIMIT 10000, with ties in any order. */
  ghost predicate IsSelection(table: seq<Shot>, c: Criteria, rows: seq<Shot>) {
    && UniqueIds(rows)
    && |rows| <= MAX_STATS_ROWS
    && (forall row | row in rows :: row in Matching(table, c))
    && (forall i, j | 0 <= i < j < |rows| :: rows[i].capturedAt >= rows[j].capturedAt)
    && (forall row | row in Matching(table, c) && row !in rows ::
          |rows| == MAX_STATS_ROWS && forall r | r in rows :: r.capturedAt >= row.capturedAt)
  }

  lemma {:induction false} SizeOfDistinctRows(rows: seq<Shot>)
    requires UniqueIds(rows)
    ensures |set row | row in rows| == |rows|
  {
    if rows != [] {
      var n := |rows| - 1;
      SizeOfDistinctRows(rows[..n]);
      assert (set row | row in rows) == (set row | row in rows[..n]) + {rows[n]};
    }
  }

  lemma SubsetsAreSmaller<T>(small: set<T>, large: set<T>)
    requires small <= large
    ensures |small| <= |large| && (|small| == |large| ==> small == large)
  {
    assert large == small + (large - small);
    assert |large| == |small| + |large - small|;
    if large - small == {} { assert small == large; }
  }

  /** The flag says that 10000 rows or more matched.  Rows are missing only if it is set; but exactly 10000
      rows set it without any being missing. */
  lemma CappedIffTheLimitIsReached(table: seq<Shot>, c: Criteria, rows: seq<Shot>)
    requires IsSelection(table, c, rows)
    ensures |rows| == 10_000 <==> |Matching(table, c)| >= 10_000
    ensures (exists row :: row in Matching(table, c) && row !in rows) <==> |Matching(table, c)| > 10_000
  {
    hide Matches;
    SizeOfDistinctRows(rows);
    var selected := set row | row in rows;
    var matching := Matching(table, c);
    SubsetsAreSmaller(selected, matching);
    if |matching| > |rows| {
      assert selected != matching;
      var row :| row in matching && row !in selected;
    }
  }

  // ----- Grouping -----

  function Clubs(rows: seq<Shot>): (clubs: seq<string>)
    ensures |clubs| == |rows| && forall i | 0 <= i < |rows| :: clubs[i] == rows[i].club
  {
    seq(|rows|, i requires 0 <= i < |rows| => rows[i].club)
  }

  /** The keys of a Map or the elements of a Set, in the order of their first insertion. */
  function Distinct<T(==, !new)>(s: seq<T>): (r: seq<T>)
    ensures forall x :: x in r <==> x in s
    ensures forall i, j | 0 <= i < j < |r| :: r[i] != r[j]
  {
    if s == [] then []
    else
      var x, before := s[|s| - 1], Distinct(s[..|s| - 1]);
      assert s == s[..|s| - 1] + [x];
      if x in before then before else before + [x]
  }

  function Group(rows: seq<Shot>, club: string): seq<Shot> {
    if rows == [] then []
    else
      var row := rows[|rows| - 1];
      Group(rows[..|rows| - 1], club) + if row.club == club then [row] else []
  }

  lemma OneMoreRow(rows: seq<Shot>, row: Shot)
    ensures var clubs := Distinct(Clubs(rows));
            Distinct(Clubs(rows + [row])) == if row.club in clubs then clubs else clubs + [row.club]
    ensures forall club :: Group(rows + [row], club) == Group(rows, club) + if row.club == club then [row] else []
  {
    assert (rows + [row])[..|rows|] == rows;
    assert Clubs(rows + [row]) == Clubs(rows) + [row.club];
    assert (Clubs(rows) + [row.club])[..|rows|] == Clubs(rows);
  }

  lemma NoRows()
    ensures Distinct(Clubs([])) == [] && forall club :: Group([], club) == []
  {
  }

  method GroupByClub(rows: seq<Shot>) returns (clubs: seq<string>, byClub: map<string, seq<Shot>>)
    ensures clubs == Distinct(Clubs(rows))
    ensures forall club :: club in byClub <==> club in clubs
    ensures forall club | club in byClub :: byClub[club] == Group(rows, club)
  {
    hide Clubs, Distinct, Group;
    clubs, byClub := [], map[];
    NoRows();
    for i := 0 to |rows|
      invariant clubs == Distinct(Clubs(rows[..i]))
      invariant forall club :: club in byClub <==> club in clubs
      invariant forall club :: Group(rows[..i], club) == if club in byClub then byClub[club] else []
    {
      var row := rows[i];
      assert rows[..i + 1] == rows[..i] + [row];
      OneMoreRow(rows[..i], row);
      if row.club !in byClub {
        clubs := clubs + [row.club];
        byClub := byClub[row.club := []];
      }
      byClub := byClub[row.club := byClub[row.club] + [row]];
    }
    assert rows[..|rows|] == rows;
  }

  // ----- The groups partition the rows -----

  function Concatenated(rows: seq<Shot>, clubs: seq<string>): seq<Shot> {
    if clubs == [] then [] else Group(rows, clubs[0]) + Concatenated(rows, clubs[1..])
  }

  function TotalSize(rows: seq<Shot>, clubs: seq<string>): nat {
    if clubs == [] then 0 else |Group(rows, clubs[0])| + TotalSize(rows, clubs[1..])
  }

  lemma {:induction false} GroupCounts(rows: seq<Shot>, club: string, row: Shot)
    ensures multiset(Group(rows, club))[row] == if row.club == club then multiset(rows)[row] else 0
  {
    if rows != [] {
      var n := |rows| - 1;
      GroupCounts(rows[..n], club, row);
      assert rows == rows[..n] + [rows[n]];
    }
  }

  lemma {:induction false} ConcatenationCounts(rows: seq<Shot>, clubs: seq<string>, row: Shot)
    requires forall i, j | 0 <= i < j < |clubs| :: clubs[i] != clubs[j]
    ensures multiset(Concatenated(rows, clubs))[row] == if row.club in clubs then multiset(rows)[row] else 0
  {
    if clubs != [] {
      assert forall i | 0 <= i < |clubs[1..]| :: clubs[1..][i] == clubs[i + 1] != clubs[0];
      ConcatenationCounts(rows, clubs[1..], row);
      GroupCounts(rows, clubs[0], row);
      assert row.club in clubs <==> row.club == clubs[0] || row.club in clubs[1..];
    }
  }

  lemma {:induction false} SizeOfConcatenation(rows: seq<Shot>, clubs: seq<string>)
    ensures |Concatenated(rows, clubs)| == TotalSize(rows, clubs)
  {
    if clubs != [] { SizeOfConcatenation(rows, clubs[1..]); }
  }

  /** No shot is lost, repeated or attributed to another club, and the sample sizes add up to shot_count. */
  lemma GroupsPartitionTheRows(rows: seq<Shot>)
    ensures var clubs := Distinct(Clubs(rows));
            && multiset(Concatenated(rows, clubs)) == multiset(rows)
            && TotalSize(rows, clubs) == |rows|
  {
    hide Group, Distinct, Clubs, Concatenated, TotalSize;
    var clubs := Distinct(Clubs(rows));
    forall row ensures multiset(Concatenated(rows, clubs))[row] == multiset(rows)[row] {
      ConcatenationCounts(rows, clubs, row);
      if row in rows { ClubIsListed(rows, row); }
    }
    assert multiset(Concatenated(rows, clubs)) == multiset(rows);
    SizeOfConcatenation(rows, clubs);
    assert |rows| == |multiset(rows)| == |multiset(Concatenated(rows, clubs))|;
  }

  lemma ClubIsListed(rows: seq<Shot>, row: Shot)
    requires row in rows
    ensures row.club in Distinct(Clubs(rows))
  {
    var i :| 0 <= i < |rows| && rows[i] == row;
    assert Clubs(rows)[i] == row.club;
  }

  // ----- Aggregates -----

  datatype NumericStats = NumericStats(mean: real, variance: real, p50: Option<real>, p90: Option<real>)

  datatype Spread = Spread(mean: real, variance: real)

  datatype SpinStats = SpinStats(spread: Option<Spread>, sampleSize: nat, vendorsExcluded: seq<Vendor>)

  datatype ClubAggregate = ClubAggregate(
    club: string,
    sampleSize: nat,
    carry: NumericStats,
    lateral: NumericStats,
    ballSpeed: Spread,
    launchAngle: Spread,
    spin: SpinStats,
    lowSampleSize: bool)

  function Values(shots: seq<Shot>, f: Shot -> real): (values: seq<real>)
    ensures |values| == |shots| && forall i | 0 <= i < |shots| :: values[i] == f(shots[i])
  {
    seq(|shots|, i requires 0 <= i < |shots| => f(shots[i]))
  }

  function WithSpin(shots: seq<Shot>): (r: seq<Shot>)
    ensures forall shot | shot in r :: shot.spin.Some?
  {
    if shots == [] then []
    else WithSpin(shots[..|shots| - 1])
         + if shots[|shots| - 1].spin.Some? then [shots[|shots| - 1]] else []
  }

  function VendorsWithoutSpin(shots: seq<Shot>): seq<Vendor> {
    if shots == [] then []
    else VendorsWithoutSpin(shots[..|shots| - 1])
         + if shots[|shots| - 1].spin.None? then [shots[|shots| - 1].vendor] else []
  }

  function Carry(shot: Shot): real { shot.carry }

  function Lateral(shot: Shot): real { shot.lateral }

  function BallSpeed(shot: Shot): real { shot.ballSpeed }

  function LaunchAngle(shot: Shot): real { shot.launchAngle }

  function Spin(shot: Shot): real {
    if shot.spin.Some? then shot.spin.value as real else 0.0
  }

  function Numeric(values: seq<real>): NumericStats
    requires |values| > 0
  {
    var sorted := Sorted(values);
    SortedKeepsSamples(values);
    var low := |values| < LOW_SAMPLE_SIZE_THRESHOLD;
    NumericStats(Mean(sorted), Variance(sorted),
                 if low then None else Some(Percentile(sorted, 50.0)),
                 if low then None else Some(Percentile(sorted, 90.0)))
  }

  function SpreadOf(values: seq<real>): Spread
    requires |values| > 0
  {
    Spread(Mean(values), Variance(values))
  }

  function SpinOf(shots: seq<Shot>): SpinStats {
    var values := Sorted(Values(WithSpin(shots), Spin));
    SortedKeepsSamples(Values(WithSpin(shots), Spin));
    SpinStats(if |values| > 0 then Some(SpreadOf(values)) else None, |values|, Distinct(VendorsWithoutSpin(shots)))
  }

  function AggregateOf(club: string, shots: seq<Shot>): ClubAggregate
    requires |shots| > 0
  {
    ClubAggregate(club, |shots|,
                  Numeric(Values(shots, Carry)),
                  Numeric(Values(shots, Lateral)),
                  SpreadOf(Values(shots, BallSpeed)),
                  SpreadOf(Values(shots, LaunchAngle)),
                  SpinOf(shots),
                  |shots| < LOW_SAMPLE_SIZE_THRESHOLD)
  }

  lemma {:induction false} GroupIsInhabited(rows: seq<Shot>, club: string)
    requires club in Clubs(rows)
    ensures |Group(rows, club)| > 0
  {
    var i :| 0 <= i < |rows| && rows[i].club == club;
    GroupCounts(rows, club, rows[i]);
    assert rows[i] in multiset(rows);
    assert rows[i] in multiset(Group(rows, club));
  }

  // ----- What the numbers of a club mean -----

  /** Every reported figure lies within the samples, the median is not above the 90th percentile, and they are
      withheld exactly for small samples. */
  lemma NumericIsWithinTheSamples(values: seq<real>, low: real, high: real)
    requires |values| > 0 && forall x | x in values :: low <= x <= high
    ensures var n := Numeric(values);
            && low <= n.mean <= high
            && n.mean == Mean(values) && n.variance == Variance(values)
            && (n.p50.Some? <==> |values| >= 10) && (n.p90.Some? <==> |values| >= 10)
            && (n.p50.Some? ==> low <= n.p50.value <= n.p90.value <= high)
  {
    hide Sorted, Percentile, Mean, Variance, Ascending;
    var sorted := Sorted(values);
    SortedIsAscending(values);
    MomentsDependOnTheMultiset(sorted, values);
    MeanIsBounded(values, low, high);
    assert sorted[0] in multiset(sorted) && sorted[|sorted| - 1] in multiset(sorted);
    assert sorted[0] in values && sorted[|sorted| - 1] in values;
    PercentileIsMonotone(sorted, 0.0, 50.0);
    PercentileIsMonotone(sorted, 50.0, 90.0);
    PercentileIsMonotone(sorted, 90.0, 100.0);
    ExtremePercentiles(sorted);
  }

  /** Each figure of a club summarises its own column: mean and variance of the samples as they come, and
      percentiles of the samples in ascending order. */
  lemma FiguresOfAClub(club: string, shots: seq<Shot>, carry: seq<real>, lateral: seq<real>, speed: seq<real>,
                       angle: seq<real>, carries: seq<real>, laterals: seq<real>)
    requires |shots| > 0 && |carry| == |lateral| == |speed| == |angle| == |shots|
    requires forall i | 0 <= i < |shots| :: carry[i] == shots[i].carry && lateral[i] == shots[i].lateral
    requires forall i | 0 <= i < |shots| :: speed[i] == shots[i].ballSpeed && angle[i] == shots[i].launchAngle
    requires Ascending(carries) && multiset(carries) == multiset(carry)
    requires Ascending(laterals) && multiset(laterals) == multiset(lateral)
    ensures var a := AggregateOf(club, shots);
            && a.sampleSize == |shots| && a.club == club && (a.lowSampleSize <==> |shots| < 10)
            && a.carry.mean == Mean(carry) && a.carry.variance == Variance(carry)
            && a.carry.p50 == (if |shots| < 10 then None else Some(Percentile(carries, 50.0)))
            && a.carry.p90 == (if |shots| < 10 then None else Some(Percentile(carries, 90.0)))
            && a.lateral.mean == Mean(lateral) && a.lateral.variance == Variance(lateral)
            && a.lateral.p50 == (if |shots| < 10 then None else Some(Percentile(laterals, 50.0)))
            && a.lateral.p90 == (if |shots| < 10 then None else Some(Percentile(laterals, 90.0)))
            && a.ballSpeed.mean == Mean(speed) && a.ballSpeed.variance == Variance(speed)
            && a.launchAngle.mean == Mean(angle) && a.launchAngle.variance == Variance(angle)
  {
    assert carry == Values(shots, Carry) && lateral == Values(shots, Lateral);
    assert speed == Values(shots, BallSpeed) && angle == Values(shots, LaunchAngle);
    hide Sorted, Mean, Variance, Percentile, SpinOf, Ascending, Values;
    SummaryOfAColumn(Values(shots, Carry), carries);
    SummaryOfAColumn(Values(shots, Lateral), laterals);
  }

  predicate Summarises(n: NumericStats, values: seq<real>, ascending: seq<real>)
    requires |values| > 0
  {
    && n.mean == Mean(values) && n.variance == Variance(values)
    && n.p50 == (if |values| < 10 then None else Some(Percentile(ascending, 50.0)))
    && n.p90 == (if |values| < 10 then None else Some(Percentile(ascending, 90.0)))
  }

  lemma SummaryOfAColumn(values: seq<real>, ascending: seq<real>)
    requires |values| > 0 && Ascending(ascending) && multiset(ascending) == multiset(values)
    ensures Summarises(Numeric(values), values, ascending)
  {
    hide Sorted, Mean, Variance, Percentile, Ascending;
    SortedIsAscending(values);
    AscendingIsUnique(Sorted(values), ascending);
    MomentsDependOnTheMultiset(Sorted(values), values);
  }

  /** Each shot either contributes a spin sample or excludes its vendor. */
  lemma {:induction false} SpinAccountsForAllShots(shots: seq<Shot>)
    ensures |WithSpin(shots)| + |VendorsWithoutSpin(shots)| == |shots|
    ensures forall shot :: shot in WithSpin(shots) <==> shot in shots && shot.spin.Some?
    ensures forall v :: v in VendorsWithoutSpin(shots) <==> exists shot :: shot in shots && shot.spin.None? && shot.vendor == v
  {
    if shots != [] {
      var n := |shots| - 1;
      SpinAccountsForAllShots(shots[..n]);
      assert shots == shots[..n] + [shots[n]];
      assert forall shot :: shot in shots <==> shot in shots[..n] || shot == shots[n];
    }
  }

  /** Where the samples of the spin come from: the shots that have one, each once and in order. */
  lemma {:induction false} SpinSamples(shots: seq<Shot>) returns (index: seq<nat>)
    ensures |index| == |WithSpin(shots)|
    ensures forall k | 0 <= k < |index| :: index[k] < |shots| && shots[index[k]] == WithSpin(shots)[k]
    ensures forall k, l | 0 <= k < l < |index| :: index[k] < index[l]
    ensures forall i | 0 <= i < |shots| && shots[i].spin.Some? :: i in index
  {
    if shots == [] {
      index := [];
    } else {
      var n := |shots| - 1;
      var front := shots[..n];
      assert WithSpin(shots) == WithSpin(front) + if shots[n].spin.Some? then [shots[n]] else [];
      hide WithSpin;
      index := SpinSamples(front);
      assert forall i | 0 <= i < n :: front[i] == shots[i];
      if shots[n].spin.Some? { index := index + [n]; }
    }
  }

  /** The reported spread is the one of the spin samples, and a vendor is excluded for a shot without one. */
  lemma SpinOfAClub(shots: seq<Shot>) returns (index: seq<nat>, samples: seq<real>)
    ensures forall i :: i in index <==> 0 <= i < |shots| && shots[i].spin.Some?
    ensures forall k, l | 0 <= k < l < |index| :: index[k] < index[l]
    ensures |samples| == |index|
    ensures forall k | 0 <= k < |index| ::
              index[k] < |shots| && shots[index[k]].spin.Some? && samples[k] == shots[index[k]].spin.value as real
    ensures SpinOf(shots).sampleSize == |samples|
    ensures SpinOf(shots).spread == if samples == [] then None else Some(Spread(Mean(samples), Variance(samples)))
    ensures var spin := SpinOf(shots);
            && spin.sampleSize + |VendorsWithoutSpin(shots)| == |shots|
            && (spin.spread.Some? <==> exists shot :: shot in shots && shot.spin.Some?)
            && (forall v :: v in spin.vendorsExcluded <==> exists shot :: shot in shots && shot.spin.None? && shot.vendor == v)
            && (forall i, j | 0 <= i < j < |spin.vendorsExcluded| :: spin.vendorsExcluded[i] != spin.vendorsExcluded[j])
  {
    index := SpinSamples(shots);
    samples := Values(WithSpin(shots), Spin);
    SpreadOfSorted(samples);
    hide Sorted, Mean, Variance, SpreadOf, Distinct;
    SpinAccountsForAllShots(shots);
    assert forall i | i in index :: shots[i] in WithSpin(shots);
    if |WithSpin(shots)| > 0 { assert WithSpin(shots)[0] in WithSpin(shots); }
  }

  lemma SpreadOfSorted(values: seq<real>)
    ensures |Sorted(values)| == |values|
    ensures |values| > 0 ==> SpreadOf(Sorted(values)) == Spread(Mean(values), Variance(values))
  {
    hide Sorted, Mean, Variance;
    SortedKeepsSamples(values);
    MomentsDependOnTheMultiset(Sorted(values), values);
  }

  // ----- The report does not depend on how the database breaks ties -----

  lemma ValuesConcatenate(s: seq<Shot>, t: seq<Shot>, f: Shot -> real)
    ensures Values(s + t, f) == Values(s, f) + Values(t, f)
  {
  }

  lemma {:induction false} ValuesDependOnTheMultiset(s: seq<Shot>, t: seq<Shot>, f: Shot -> real)
    requires multiset(s) == multiset(t)
    ensures multiset(Values(s, f)) == multiset(Values(t, f))
  {
    assert |s| == |multiset(s)| == |multiset(t)| == |t|;
    if s != [] {
      var k := Removed(s, t);
      var left, right := t[..k], t[k + 1..];
      ValuesDependOnTheMultiset(s[1..], left + right, f);
      assert s == [s[0]] + s[1..] && t == left + [t[k]] + right;
      ValuesConcatenate([s[0]], s[1..], f);
      ValuesConcatenate(left, [t[k]], f);
      ValuesConcatenate(left + [t[k]], right, f);
      ValuesConcatenate(left, right, f);
      assert Values([s[0]], f) == Values([t[k]], f);
      hide Values;
    }
  }

  lemma Removed(s: seq<Shot>, t: seq<Shot>) returns (k: nat)
    requires multiset(s) == multiset(t) && s != []
    ensures k < |t| && t[k] == s[0] && multiset(s[1..]) == multiset(t[..k] + t[k + 1..])
  {
    assert s[0] in multiset(t);
    k :| 0 <= k < |t| && t[k] == s[0];
    WithoutFirst(s);
    WithoutOne(t, k);
  }

  lemma WithoutFirst(s: seq<Shot>)
    requires s != []
    ensures multiset(s[1..]) == multiset(s) - multiset{s[0]}
  {
    var rest := s[1..];
    assert s == [s[0]] + rest;
    assert multiset([s[0]] + rest) == multiset{s[0]} + multiset(rest);
  }

  lemma {:induction false} WithSpinCounts(shots: seq<Shot>, shot: Shot)
    ensures multiset(WithSpin(shots))[shot] == if shot.spin.Some? then multiset(shots)[shot] else 0
  {
    if shots != [] {
      var front, last := shots[..|shots| - 1], shots[|shots| - 1];
      assert WithSpin(shots) == WithSpin(front) + if last.spin.Some? then [last] else [];
      hide WithSpin;
      WithSpinCounts(front, shot);
      assert shots == front + [last];
      assert multiset(shots)[shot] == multiset(front)[shot] + multiset([last])[shot];
    }
  }

  lemma NumericDependsOnTheMultiset(s: seq<real>, t: seq<real>)
    requires multiset(s) == multiset(t) && |s| > 0 && |t| > 0
    ensures Numeric(s) == Numeric(t)
  {
    hide Sorted, Ascending;
    SortedIsAscending(s);
    SortedIsAscending(t);
    AscendingIsUnique(Sorted(s), Sorted(t));
  }

  /** Equal up to the order in which excluded vendors are listed. */
  predicate SameFigures(a: ClubAggregate, b: ClubAggregate) {
    && a.(spin := a.spin.(vendorsExcluded := [])) == b.(spin := b.spin.(vendorsExcluded := []))
    && forall v :: v in a.spin.vendorsExcluded <==> v in b.spin.vendorsExcluded
  }

  lemma AggregateDependsOnTheMultiset(club: string, s: seq<Shot>, t: seq<Shot>)
    requires multiset(s) == multiset(t) && |s| > 0 && |t| > 0
    ensures SameFigures(AggregateOf(club, s), AggregateOf(club, t))
  {
    hide Sorted, Mean, Variance, Percentile, Distinct, Numeric, WithSpin, VendorsWithoutSpin;
    assert |s| == |multiset(s)| == |multiset(t)| == |t|;
    ValuesDependOnTheMultiset(s, t, Carry);
    ValuesDependOnTheMultiset(s, t, Lateral);
    NumericDependsOnTheMultiset(Values(s, Carry), Values(t, Carry));
    NumericDependsOnTheMultiset(Values(s, Lateral), Values(t, Lateral));
    ValuesDependOnTheMultiset(s, t, BallSpeed);
    ValuesDependOnTheMultiset(s, t, LaunchAngle);
    MomentsDependOnTheMultiset(Values(s, BallSpeed), Values(t, BallSpeed));
    MomentsDependOnTheMultiset(Values(s, LaunchAngle), Values(t, LaunchAngle));
    SpinDependsOnTheMultiset(s, t);
  }

  lemma SpinDependsOnTheMultiset(s: seq<Shot>, t: seq<Shot>)
    requires multiset(s) == multiset(t)
    ensures SpinOf(s).(vendorsExcluded := []) == SpinOf(t).(vendorsExcluded := [])
    ensures forall v :: v in SpinOf(s).vendorsExcluded <==> v in SpinOf(t).vendorsExcluded
  {
    hide Sorted, Ascending, Mean, Variance, Distinct, WithSpin, VendorsWithoutSpin;
    forall shot ensures multiset(WithSpin(s))[shot] == multiset(WithSpin(t))[shot] {
      WithSpinCounts(s, shot);
      WithSpinCounts(t, shot);
    }
    ValuesDependOnTheMultiset(WithSpin(s), WithSpin(t), Spin);
    var x, y := Values(WithSpin(s), Spin), Values(WithSpin(t), Spin);
    SortedIsAscending(x);
    SortedIsAscending(y);
    AscendingIsUnique(Sorted(x), Sorted(y));
    var _, _ := SpinOfAClub(s);
    var _, _ := SpinOfAClub(t);
    assert forall shot :: shot in s <==> shot in multiset(s);
    assert forall shot :: shot in t <==> shot in multiset(t);
  }

  lemma SelectionsOfTheSameRows(table: seq<Shot>, c: Criteria, rows: seq<Shot>, others: seq<Shot>)
    requires IsSelection(table, c, rows) && IsSelection(table, c, others) && |Matching(table, c)| <= MAX_STATS_ROWS
    ensures multiset(rows) == multiset(others)
  {
    hide Matches, Matching;
    CappedIffTheLimitIsReached(table, c, rows);
    CappedIffTheLimitIsReached(table, c, others);
    forall row ensures multiset(rows)[row] == multiset(others)[row] {
      OnceEach(rows, row);
      OnceEach(others, row);
      assert row in Matching(table, c) && row !in rows ==> false;
      assert row in Matching(table, c) && row !in others ==> false;
    }
  }

  lemma {:induction false} OnceEach(rows: seq<Shot>, row: Shot)
    requires UniqueIds(rows)
    ensures multiset(rows)[row] == if row in rows then 1 else 0
  {
    if rows != [] {
      var n := |rows| - 1;
      OnceEach(rows[..n], row);
      assert rows == rows[..n] + [rows[n]];
      assert rows[n] !in rows[..n];
    }
  }

  /** Unless rows had to be dropped, the figures of each club are determined by the table alone. */
  lemma TiesDoNotMatter(table: seq<Shot>, c: Criteria, rows: seq<Shot>, others: seq<Shot>, club: string)
    requires IsSelection(table, c, rows) && IsSelection(table, c, others) && |Matching(table, c)| <= MAX_STATS_ROWS
    requires |Group(rows, club)| > 0
    ensures |Group(others, club)| > 0
    ensures SameFigures(AggregateOf(club, Group(rows, club)), AggregateOf(club, Group(others, club)))
  {
    hide IsSelection, Matching, AggregateOf, Group, SameFigures;
    SelectionsOfTheSameRows(table, c, rows, others);
    var s, t := Group(rows, club), Group(others, club);
    forall row ensures multiset(s)[row] == multiset(t)[row] {
      GroupCounts(rows, club, row);
      GroupCounts(others, club, row);
    }
    assert multiset(s) == multiset(t);
    assert |s| == |multiset(s)| == |multiset(t)| == |t|;
    AggregateDependsOnTheMultiset(club, s, t);
  }

  // ----- The query -----

  lemma AskedRows(table: seq<Shot>, filter: Filter, query: StatsQuery, now: int)
    requires AcceptableStats(query, now)
    ensures var since := if query.since.At? then query.since.ms else now - 2_592_000_000;
            var until := if query.until.At? then query.until.ms else now;
            Matching(table, StatsCriteria(filter, query, now)) == set row | row in table
              && since <= row.capturedAt <= until && row.duplicateOf.None? && row.club != "PT"
              && (filter.canonicalUserId.Some? ==> row.canonicalUserId == filter.canonicalUserId)
              && (filter.vendor.Some? ==> row.vendor == filter.vendor.value)
              && (filter.vendorUserId.Some? ==> row.vendorUserId == filter.vendorUserId.value)
              && (query.club.Some? ==> row.club == query.club.value)
  {
  }

  lemma NewestOf(table: seq<Shot>, c: Criteria, rows: seq<Shot>)
    requires IsSelection(table, c, rows)
    ensures forall row | row in rows :: row in Matching(table, c)
    ensures |rows| == if |Matching(table, c)| <= 10_000 then |Matching(table, c)| else 10_000
    ensures forall row, r | row in Matching(table, c) && row !in rows && r in rows :: r.capturedAt >= row.capturedAt
  {
    hide Matching;
    CappedIffTheLimitIsReached(table, c, rows);
    SizeOfDistinctRows(rows);
    var matching, selected := Matching(table, c), set row | row in rows;
    if |matching| <= 10_000 {
      forall row | row in matching ensures row in selected { assert row !in rows ==> |matching| > 10_000; }
      assert selected == matching;
    }
  }

  datatype Report = Report(
    since: int,
    until: int,
    club: Option<string>,
    shotCount: nat,
    capped: bool,
    byClub: seq<ClubAggregate>)

  /** selected is the answer of the database to the query over the table. */
  method ExecuteStatsQuery(ghost table: seq<Shot>, selected: seq<Shot>, filter: Filter, query: StatsQuery, now: int)
    returns (r: Result<Report, StatsError>)
    requires AcceptableStats(query, now) ==> IsSelection(table, StatsCriteria(filter, query, now), selected)
    ensures r.Ok? <==> AcceptableStats(query, now)
    ensures r.Ok? ==>
              && r.value.since == (if query.since.At? then query.since.ms else now - 2_592_000_000)
              && r.value.until == (if query.until.At? then query.until.ms else now)
              && r.value.since < r.value.until && r.value.club == query.club
    // The rows are the newest 10000 of those asked for: originals in the window that are no putts.
    ensures r.Ok? ==>
              var asked := set row | row in table
                && r.value.since <= row.capturedAt <= r.value.until && row.duplicateOf.None? && row.club != "PT"
                && (filter.canonicalUserId.Some? ==> row.canonicalUserId == filter.canonicalUserId)
                && (filter.vendor.Some? ==> row.vendor == filter.vendor.value)
                && (filter.vendorUserId.Some? ==> row.vendorUserId == filter.vendorUserId.value)
                && (query.club.Some? ==> row.club == query.club.value);
              && (forall row | row in selected :: row in asked)
              && |selected| == (if |asked| <= 10_000 then |asked| else 10_000)
              && (forall row, r | row in asked && row !in selected && r in selected :: r.capturedAt >= row.capturedAt)
              && (r.value.capped <==> |asked| >= 10_000)
    ensures r.Ok? ==>
              && r.value.shotCount == |selected|
              && |r.value.byClub| == |Distinct(Clubs(selected))|
              && forall k | 0 <= k < |r.value.byClub| ::
                   var club := Distinct(Clubs(selected))[k];
                   |Group(selected, club)| > 0 && r.value.byClub[k] == AggregateOf(club, Group(selected, club))
    ensures r == Err(BadDate) <==> query.since.Unparsable? || query.until.Unparsable?
    ensures r == Err(UnknownClub) <==>
              && r != Err(BadDate) && r != Err(EmptyWindow)
              && query.club.Some? && query.club.value != "" && query.club.value !in VALID_CLUB_CODES
    ensures r == Err(EmptyWindow) <==>
              && !query.since.Unparsable? && !query.until.Unparsable?
              && (if query.since.At? then query.since.ms else now - 2_592_000_000)
                 >= (if query.until.At? then query.until.ms else now)
  {
    hide Matching, StatsCriteria, IsSelection, AggregateOf, Group, Clubs, Distinct;
    if query.since.Unparsable? { return Err(BadDate); }
    var since := WindowDate(query.since, now - DEFAULT_WINDOW_MS);
    if query.until.Unparsable? { return Err(BadDate); }
    var until := WindowDate(query.until, now);
    if since >= until { return Err(EmptyWindow); }
    if Truthy(query.club).Some? && query.club.value !in VALID_CLUB_CODES { return Err(UnknownClub); }

    var clubs, byClub := GroupByClub(selected);
    var aggregates: seq<ClubAggregate> := [];
    for k := 0 to |clubs|
      invariant |aggregates| == k
      invariant forall i | 0 <= i < k ::
                  |Group(selected, clubs[i])| > 0 && aggregates[i] == AggregateOf(clubs[i], Group(selected, clubs[i]))
    {
      assert clubs[k] in Clubs(selected);
      GroupIsInhabited(selected, clubs[k]);
      aggregates := aggregates + [AggregateOf(clubs[k], byClub[clubs[k]])];
    }
    NewestOf(table, StatsCriteria(filter, query, now), selected);
    AskedRows(table, filter, query, now);
    r := Ok(Report(since, until, query.club, |selected|, |selected| == MAX_STATS_ROWS, aggregates));
  }
}
