/** The aggregate both summary reports compute over daily summary rows
    (COUNT, SUM and a conditional COUNT) and the nine statistics derived
    from it. */
module Aggregation {
  import opened Calendar
  import opened Users
  import opened DailySummaries
  import opened Rounding

  /** A row of the aggregate: `total_days`, `total_minutes`,
      `total_sessions`, `days_with_sleep`. */
  datatype Totals = Totals(totalDays: nat, totalMinutes: int, totalSessions: int, daysWithSleep: nat)

  function Plus(a: Totals, b: Totals): Totals {
    Totals(a.totalDays + b.totalDays, a.totalMinutes + b.totalMinutes,
           a.totalSessions + b.totalSessions, a.daysWithSleep + b.daysWithSleep)
  }

  /** The totals of one row. */
  function OfRow(r: DailySummary): Totals {
    Totals(1, r.minutes, r.sessions, if r.minutes > 0 then 1 else 0)
  }

  /** `COUNT(*)`, `COALESCE(SUM(minutes), 0)`, `COALESCE(SUM(sessions), 0)`
      and `COUNT(CASE WHEN minutes > 0 THEN 1 END)` over `rows`. */
  function Aggregate(rows: seq<DailySummary>): (t: Totals)
    ensures t.totalDays == |rows|
    ensures t.daysWithSleep <= t.totalDays
  {
    if rows == [] then Totals(0, 0, 0, 0)
    else Plus(OfRow(rows[0]), Aggregate(rows[1..]))
  }

  /** Over validated rows the sums are non-negative, and some day had sleep
      exactly when the minute total is positive. */
  lemma {:induction false} AggregateOfValidRows(rows: seq<DailySummary>)
    requires NonNegative(rows)
    ensures var t := Aggregate(rows);
      t.totalMinutes >= 0 && t.totalSessions >= 0 &&
      (t.daysWithSleep > 0 <==> t.totalMinutes > 0)
  {
    if rows != [] {
      assert rows[0].minutes >= 0;
      assert NonNegative(rows[1..]) by {
        forall i | 0 <= i < |rows[1..]| ensures rows[1..][i].minutes >= 0 && rows[1..][i].sessions >= 0 {
          assert rows[1..][i] == rows[i + 1];
        }
      }
      AggregateOfValidRows(rows[1..]);
    }
  }

  /** The aggregate of two row sets together is the sum of their aggregates. */
  lemma {:induction false} AggregateConcat(a: seq<DailySummary>, b: seq<DailySummary>)
    ensures Aggregate(a + b) == Plus(Aggregate(a), Aggregate(b))
  {
    if a == [] {
      assert a + b == b;
    } else {
      assert (a + b)[0] == a[0];
      assert (a + b)[1..] == a[1..] + b;
      AggregateConcat(a[1..], b);
    }
  }

  /** The aggregate depends on the row set only, not on the order the store
      keeps the rows in. */
  lemma {:induction false} AggregateIgnoresOrder(a: seq<DailySummary>, b: seq<DailySummary>)
    requires multiset(a) == multiset(b)
    ensures Aggregate(a) == Aggregate(b)
    decreases |a|
  {
    if a != [] {
      assert a[0] in multiset(b);
      var k :| 0 <= k < |b| && b[k] == a[0];
      var rest := b[..k] + b[k + 1..];
      RemoveMatching(a, b, k);
      AggregateIgnoresOrder(a[1..], rest);
      AggregateAround(b, k);
    }
  }

  /** Taking the first row off `a` and a copy of it off `b` leaves equal
      multisets. */
  lemma {:induction false} RemoveMatching(a: seq<DailySummary>, b: seq<DailySummary>, k: nat)
    requires multiset(a) == multiset(b) && a != [] && k < |b| && b[k] == a[0]
    ensures multiset(a[1..]) == multiset(b[..k] + b[k + 1..])
  {
    var rest := b[..k] + b[k + 1..];
    assert b == b[..k] + [b[k]] + b[k + 1..];
    assert a == [a[0]] + a[1..];
    assert multiset(b) == multiset(b[..k]) + multiset{b[k]} + multiset(b[k + 1..]);
    assert multiset(rest) == multiset(b[..k]) + multiset(b[k + 1..]);
    forall x ensures multiset(a[1..])[x] == multiset(rest)[x] {
      assert (multiset{a[0]} + multiset(a[1..]))[x] == (multiset{a[0]} + multiset(rest))[x];
    }
  }

  /** The aggregate of `b` is that of row k plus that of the other rows. */
  lemma {:induction false} AggregateAround(b: seq<DailySummary>, k: nat)
    requires k < |b|
    ensures Aggregate(b) == Plus(OfRow(b[k]), Aggregate(b[..k] + b[k + 1..]))
  {
    assert b == b[..k] + [b[k]] + b[k + 1..];
    AggregateSplit(b[..k], b[k], b[k + 1..]);
  }

  lemma {:induction false} AggregateSplit(left: seq<DailySummary>, x: DailySummary, right: seq<DailySummary>)
    ensures Aggregate(left + [x] + right) == Plus(OfRow(x), Aggregate(left + right))
  {
    AggregateConcat(left + [x], right);
    AggregateConcat(left, [x]);
    AggregateConcat(left, right);
    AggregateOfOne(x);
    PlusRearrange(Aggregate(left), OfRow(x), Aggregate(right));
  }

  lemma {:induction false} AggregateOfOne(x: DailySummary)
    ensures Aggregate([x]) == OfRow(x)
  {
    assert [x][1..] == [];
  }

  lemma PlusRearrange(a: Totals, b: Totals, c: Totals)
    ensures Plus(Plus(a, b), c) == Plus(b, Plus(a, c))
  {
  }

  /** The rows `where(user:, date: start..end)` selects, in store order. */
  function RowsFor(rows: seq<DailySummary>, u: UserId, p: Period): (r: seq<DailySummary>)
    ensures forall x :: x in r <==> x in rows && x.userId == u && Contains(p, x.date)
    ensures multiset(r) <= multiset(rows)
  {
    if rows == [] then []
    else
      var rest := RowsFor(rows[1..], u, p);
      assert rows == [rows[0]] + rows[1..];
      if rows[0].userId == u && Contains(p, rows[0].date) then [rows[0]] + rest else rest
  }

  /** Rows of other users never change a user's selection. */
  lemma {:induction false} OtherUsersIgnored(rows: seq<DailySummary>, others: seq<DailySummary>, u: UserId, p: Period)
    requires forall x :: x in others ==> x.userId != u
    ensures RowsFor(rows + others, u, p) == RowsFor(rows, u, p)
    decreases |rows|
  {
    if rows == [] {
      OthersSelectNothing(others, u, p);
      assert rows + others == others;
    } else {
      assert (rows + others)[1..] == rows[1..] + others;
      OtherUsersIgnored(rows[1..], others, u, p);
    }
  }

  lemma {:induction false} OthersSelectNothing(others: seq<DailySummary>, u: UserId, p: Period)
    requires forall x :: x in others ==> x.userId != u
    ensures RowsFor(others, u, p) == []
  {
    if others != [] {
      OthersSelectNothing(others[1..], u, p);
    }
  }

  /** The nine statistics of a report, fractional ones in hundredths. */
  datatype Stats = Stats(
    totalMinutes: int,
    totalHours: Hundredths,
    totalSessions: int,
    averageMinutes: Hundredths,
    averageHours: Hundredths,
    averageSessions: Hundredths,
    daysWithSleep: int,
    totalDays: int,
    efficiency: Hundredths)

  /** `empty_stats`: every field 0. */
  const EmptyStats := Stats(0, 0, 0, 0, 0, 0, 0, 0, 0)

  /** The statistics of a non-empty aggregate with non-negative sums: each
      fraction is the nearest hundredth of its exact quotient, the average
      hours dividing the minutes by days * 60 before any rounding. */
  ghost predicate DerivedFrom(s: Stats, t: Totals) {
    t.totalDays > 0 && t.totalMinutes >= 0 && t.totalSessions >= 0 &&
    var m, d := t.totalMinutes, t.totalDays;
    s.totalMinutes == m && s.totalSessions == t.totalSessions &&
    s.daysWithSleep == t.daysWithSleep && s.totalDays == d &&
    NearestHundredth(s.totalHours, m, 60) &&
    NearestHundredth(s.averageMinutes, m, d) &&
    NearestHundredth(s.averageHours, m, 60 * d) &&
    NearestHundredth(s.averageSessions, t.totalSessions, d) &&
    NearestHundredth(s.efficiency, 100 * t.daysWithSleep, d) &&
    0 <= s.efficiency <= 10000
  }

  /** `build_aggregated_stats`: all zero for an empty aggregate (nothing is
      divided), otherwise the rounded quotients. */
  function Derive(t: Totals): (s: Stats)
    requires t.daysWithSleep <= t.totalDays
    ensures t.totalDays == 0 ==> s == EmptyStats
    ensures t.totalDays > 0 && t.totalMinutes >= 0 && t.totalSessions >= 0 ==> DerivedFrom(s, t)
  {
    if t.totalDays == 0 then EmptyStats
    else
      var m, d := t.totalMinutes, t.totalDays;
      PercentageBounds(t.daysWithSleep, d);
      assert d * 60 == 60 * d;
      Stats(m, Round2(m, 60), t.totalSessions, Round2(m, d), Round2(m, d * 60),
            Round2(t.totalSessions, d), t.daysWithSleep, d, Round2(100 * t.daysWithSleep, d))
  }

  /** 1260 minutes and 4 sessions over 3 days, all with sleep: 21.0 hours,
      420.0 minutes and 7.0 hours a day, 1.33 sessions a day, 100.0%. */
  lemma ThreeDayExample()
    ensures Derive(Totals(3, 1260, 4, 3)) == Stats(1260, 2100, 4, 42000, 700, 133, 3, 3, 10000)
  {
  }

  /** Three days of which two had sleep: 66.67%. */
  lemma TwoOfThreeDaysExample()
    ensures Derive(Totals(3, 840, 2, 2)).efficiency == 6667
  {
  }
}
