/** The user's own sleep report (app/services/sleeps/sleep_summary_service.rb):
    statistics over the daily summaries of a date range, and one page of
    those days, longest sleep first. */
module SelfReport {
  import opened Presence
  import opened Calendar
  import opened Users
  import opened DailySummaries
  import opened ServiceResult
  import opened Paging
  import opened Ranking
  import opened Aggregation

  const MaxDaysRange: int := 90
  const RangeTooLong := "Date range is too long"

  /** `Date.parse`: the day a string names, or None where it raises
      ArgumentError. */
  type DateParser = string -> Option<Day>

  /** `parse_date`: nothing for an absent or blank value, otherwise what the
      parser makes of it. */
  function ParseDate(value: Option<string>, parse: DateParser): (d: Option<Day>)
    ensures !Present(value) ==> d == None
    ensures Present(value) ==> d == parse(value.value)
  {
    if Present(value) then parse(value.value) else None
  }

  /** `parsed_start_date .. parsed_end_date`: each bound is the parsed date
      when there is one and falls back to its own default otherwise; with no
      dates at all it is the trailing week. */
  function ResolvePeriod(startDate: Option<string>, endDate: Option<string>, today: Day, parse: DateParser): (p: Period)
    ensures ParseDate(startDate, parse).Some? ==> p.startDate == ParseDate(startDate, parse).value
    ensures ParseDate(startDate, parse).None? ==> p.startDate == today - LastWeekDays
    ensures ParseDate(endDate, parse).Some? ==> p.endDate == ParseDate(endDate, parse).value
    ensures ParseDate(endDate, parse).None? ==> p.endDate == today - 1
    ensures !Present(startDate) && !Present(endDate) ==> p == TrailingWeek(today)
  {
    Period(ParseDate(startDate, parse).GetOr(today - LastWeekDays),
           ParseDate(endDate, parse).GetOr(today - 1))
  }

  /** `date_range_too_large?` */
  predicate RangeTooLarge(p: Period) {
    p.endDate - p.startDate > MaxDaysRange
  }

  /** One element of `daily_breakdown`. */
  datatype BreakdownEntry = BreakdownEntry(date: Day, minutes: int, sessions: int)

  function EntryOf(r: DailySummary): BreakdownEntry {
    BreakdownEntry(r.date, r.minutes, r.sessions)
  }

  /** `ORDER BY total_sleep_duration_minutes DESC, date DESC` */
  predicate EntryBefore(a: BreakdownEntry, b: BreakdownEntry) {
    a.minutes > b.minutes || (a.minutes == b.minutes && a.date >= b.date)
  }

  lemma EntryOrderIsTotal()
    ensures TotalPreorder(EntryBefore)
  {
  }

  /** Two different days of one user never tie under the order, so the
      breakdown order is fully determined. */
  lemma EntryOrderIsStrictOnDays(a: BreakdownEntry, b: BreakdownEntry)
    requires a.date != b.date
    ensures EntryBefore(a, b) != EntryBefore(b, a)
  {
  }

  function Entries(rows: seq<DailySummary>): (es: seq<BreakdownEntry>)
    ensures |es| == |rows|
    ensures forall i :: 0 <= i < |rows| ==> es[i] == EntryOf(rows[i])
  {
    if rows == [] then [] else [EntryOf(rows[0])] + Entries(rows[1..])
  }

  /** The selected days in breakdown order: sorted, and exactly the entries
      of the selected rows. */
  function Ranked(sel: seq<DailySummary>): (es: seq<BreakdownEntry>)
    ensures Sorted(es, EntryBefore)
    ensures |es| == |sel|
    ensures multiset(es) == multiset(Entries(sel))
    ensures forall e :: e in es <==> exists x :: x in sel && e == EntryOf(x)
  {
    EntryOrderIsTotal();
    var es := Sort(Entries(sel), EntryBefore);
    SortKeepsMembers(Entries(sel), EntryBefore);
    assert forall x :: x in sel ==> EntryOf(x) in Entries(sel) by {
      forall x | x in sel ensures EntryOf(x) in Entries(sel) {
        var i :| 0 <= i < |sel| && sel[i] == x;
        assert Entries(sel)[i] == EntryOf(x);
      }
    }
    es
  }

  /** A page of a sorted sequence is sorted. */
  lemma {:induction false} PageSorted<T>(s: seq<T>, page: int, per: int, le: (T, T) -> bool)
    requires page >= 1 && per >= 1 && Sorted(s, le)
    ensures Sorted(Page(s, page, per), le)
  {
    var r := Page(s, page, per);
    forall i, j | 0 <= i < j < |r| ensures le(r[i], r[j]) {
      assert r[i] == s[(page - 1) * per + i] && r[j] == s[(page - 1) * per + j];
    }
  }

  /** A page of the ranking is sorted, at most `per` long, and holds only
      entries of selected rows. */
  lemma {:induction false} ShownPage(sel: seq<DailySummary>, n: int, per: int)
    requires n >= 1 && per >= 1
    ensures var shown := Page(Ranked(sel), n, per);
      Sorted(shown, EntryBefore) && |shown| <= per &&
      forall e :: e in shown ==> exists x :: x in sel && e == EntryOf(x)
  {
    var ranked := Ranked(sel);
    var shown := Page(ranked, n, per);
    PageSorted(ranked, n, per, EntryBefore);
    forall e | e in shown ensures e in ranked {
      var i :| 0 <= i < |shown| && shown[i] == e;
      assert e == ranked[(n - 1) * per + i];
    }
  }

  /** The success payload: `period`, `summary`, `daily_breakdown`,
      `pagination`. */
  datatype SelfData = SelfData(period: Period, summary: Stats, dailyBreakdown: seq<BreakdownEntry>, pagination: PageInfo)

  /** SleepSummaryService#call! over the summaries table `rows`. */
  function Call(rows: seq<DailySummary>, u: UserId, startDate: Option<string>, endDate: Option<string>,
                page: Option<int>, per: int, today: Day, parse: DateParser): (r: Result<SelfData>)
    requires per >= 1
    ensures var p := ResolvePeriod(startDate, endDate, today, parse);
      (r.IsFailure() <==> RangeTooLarge(p)) &&
      (r.IsFailure() ==> r == Failure(Keyed(RangeTooLong)))
    ensures r.IsSuccess() ==> r.data.Some? && r.error.None?
    ensures r.IsSuccess() ==>
      var p := ResolvePeriod(startDate, endDate, today, parse);
      var sel := RowsFor(rows, u, p);
      var d := r.data.value;
      d.period == p &&
      d.summary == Derive(Aggregate(sel)) &&
      d.pagination == Paginate(|sel|, PageNumber(page), per) &&
      d.dailyBreakdown == Page(Ranked(sel), PageNumber(page), per) &&
      Sorted(d.dailyBreakdown, EntryBefore) &&
      |d.dailyBreakdown| <= per &&
      forall e :: e in d.dailyBreakdown ==> exists x :: x in sel && e == EntryOf(x)
  {
    var p := ResolvePeriod(startDate, endDate, today, parse);
    if RangeTooLarge(p) then Failure(Keyed(RangeTooLong))
    else
      var sel := RowsFor(rows, u, p);
      var n := PageNumber(page);
      var ranked := Ranked(sel);
      var shown := Page(ranked, n, per);
      ShownPage(sel, n, per);
      Success(Some(SelfData(p, Derive(Aggregate(sel)), shown, Paginate(|sel|, n, per))))
  }

  /** Without dates the report covers the trailing week and succeeds. */
  lemma {:induction false} DefaultPeriodSucceeds(rows: seq<DailySummary>, u: UserId, page: Option<int>, per: int, today: Day, parse: DateParser)
    requires per >= 1
    ensures var r := Call(rows, u, None, None, page, per, today, parse);
      r.IsSuccess() && r.data.value.period == TrailingWeek(today)
  {
  }

  /** Two given dates 90 days apart are accepted; 91 days apart they are
      refused. */
  lemma {:induction false} NinetyDaysIsTheLimit(rows: seq<DailySummary>, u: UserId, startDate: string, endDate: string,
                                                page: Option<int>, per: int, today: Day, parse: DateParser)
    requires per >= 1 && Present(Some(startDate)) && Present(Some(endDate))
    requires parse(startDate).Some? && parse(endDate).Some?
    ensures parse(endDate).value - parse(startDate).value == MaxDaysRange ==>
      Call(rows, u, Some(startDate), Some(endDate), page, per, today, parse).IsSuccess()
    ensures parse(endDate).value - parse(startDate).value == MaxDaysRange + 1 ==>
      Call(rows, u, Some(startDate), Some(endDate), page, per, today, parse) == Failure(Keyed(RangeTooLong))
  {
    var p := ResolvePeriod(Some(startDate), Some(endDate), today, parse);
    assert p == Period(parse(startDate).value, parse(endDate).value);
  }

  /** Every entry of a ranking is on the page its rank puts it on. */
  lemma {:induction false} EntryOnItsPage(sel: seq<DailySummary>, x: DailySummary, per: int) returns (n: int)
    requires per >= 1 && x in sel
    ensures n >= 1 && EntryOf(x) in Page(Ranked(sel), n, per)
  {
    var ranked := Ranked(sel);
    assert EntryOf(x) in ranked;
    n := ItemOnSomePage(ranked, EntryOf(x), per);
  }

  /** Every selected day is shown on some page of the report. */
  lemma {:induction false} EveryDayOnSomePage(rows: seq<DailySummary>, u: UserId, startDate: Option<string>, endDate: Option<string>,
                                              per: int, today: Day, parse: DateParser, x: DailySummary)
    requires per >= 1
    requires !RangeTooLarge(ResolvePeriod(startDate, endDate, today, parse))
    requires x in RowsFor(rows, u, ResolvePeriod(startDate, endDate, today, parse))
    ensures exists n :: (n >= 1 &&
      EntryOf(x) in Call(rows, u, startDate, endDate, Some(n), per, today, parse).data.value.dailyBreakdown)
  {
    var sel := RowsFor(rows, u, ResolvePeriod(startDate, endDate, today, parse));
    var n := EntryOnItsPage(sel, x, per);
    assert PageNumber(Some(n)) == n;
    var r := Call(rows, u, startDate, endDate, Some(n), per, today, parse);
    assert r.data.value.dailyBreakdown == Page(Ranked(sel), n, per);
  }

  /** A start after the end selects nothing: an empty report, not an
      error. */
  lemma {:induction false} ReversedRangeIsEmpty(rows: seq<DailySummary>, u: UserId, startDate: Option<string>, endDate: Option<string>,
                                                page: Option<int>, per: int, today: Day, parse: DateParser)
    requires per >= 1
    requires ResolvePeriod(startDate, endDate, today, parse).startDate > ResolvePeriod(startDate, endDate, today, parse).endDate
    ensures var r := Call(rows, u, startDate, endDate, page, per, today, parse);
      r.IsSuccess() && r.data.value.summary == EmptyStats && r.data.value.dailyBreakdown == [] &&
      r.data.value.pagination.totalCount == 0
  {
    var p := ResolvePeriod(startDate, endDate, today, parse);
    assert !RangeTooLarge(p);
    EmptyPeriodSelectsNothing(rows, u, p);
    EmptySelectionReport(PageNumber(page), per);
  }

  /** No selected rows give zero statistics, an empty page and a zero
      count. */
  lemma EmptySelectionReport(n: int, per: int)
    requires n >= 1 && per >= 1
    ensures Derive(Aggregate([])) == EmptyStats
    ensures Page(Ranked([]), n, per) == []
    ensures Paginate(0, n, per).totalCount == 0
  {
    assert Aggregate([]) == Totals(0, 0, 0, 0);
    var ranked: seq<BreakdownEntry> := Ranked([]);
    assert ranked == [];
  }

  /** A period that ends before it starts contains no day. */
  lemma {:induction false} EmptyPeriodSelectsNothing(rows: seq<DailySummary>, u: UserId, p: Period)
    requires p.startDate > p.endDate
    ensures RowsFor(rows, u, p) == []
  {
    if rows != [] {
      EmptyPeriodSelectsNothing(rows[1..], u, p);
    }
  }

  /** Rows selected from a table of validated rows are validated rows. */
  lemma {:induction false} SelectionOfValidRows(rows: seq<DailySummary>, u: UserId, p: Period)
    requires NonNegative(rows)
    ensures NonNegative(RowsFor(rows, u, p))
  {
    var sel := RowsFor(rows, u, p);
    forall i | 0 <= i < |sel| ensures sel[i].minutes >= 0 && sel[i].sessions >= 0 {
      assert sel[i] in sel;
      var j :| 0 <= j < |rows| && rows[j] == sel[i];
    }
  }

  /** The statistics of validated rows: all zero for none, otherwise the
      rounded quotients of their totals, with efficiency between 0 and 100%
      and some day of sleep exactly when some minutes were slept. */
  lemma {:induction false} StatsOfValidRows(sel: seq<DailySummary>)
    requires NonNegative(sel)
    ensures var s := Derive(Aggregate(sel));
      (sel == [] ==> s == EmptyStats) &&
      (sel != [] ==> DerivedFrom(s, Aggregate(sel)) && 0 <= s.efficiency <= 10000 &&
                     (s.daysWithSleep > 0 <==> s.totalMinutes > 0))
  {
    var t := Aggregate(sel);
    AggregateOfValidRows(sel);
    var s := Derive(t);
    if sel != [] {
      assert t.totalDays > 0;
      assert DerivedFrom(s, t);
    }
  }

  /** Over a table of validated rows the report's summary is the statistics
      of the user's rows in the period. */
  lemma {:induction false} SummaryOfValidTable(rows: seq<DailySummary>, u: UserId, startDate: Option<string>, endDate: Option<string>,
                                               page: Option<int>, per: int, today: Day, parse: DateParser)
    requires per >= 1 && NonNegative(rows)
    requires !RangeTooLarge(ResolvePeriod(startDate, endDate, today, parse))
    ensures var sel := RowsFor(rows, u, ResolvePeriod(startDate, endDate, today, parse));
      var s := Call(rows, u, startDate, endDate, page, per, today, parse).data.value.summary;
      (sel == [] ==> s == EmptyStats) &&
      (sel != [] ==> DerivedFrom(s, Aggregate(sel)) && 0 <= s.efficiency <= 10000)
  {
    var sel := RowsFor(rows, u, ResolvePeriod(startDate, endDate, today, parse));
    SelectionOfValidRows(rows, u, ResolvePeriod(startDate, endDate, today, parse));
    StatsOfValidRows(sel);
  }
}
