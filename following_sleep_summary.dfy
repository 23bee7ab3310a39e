/** The report on followed users
    (app/services/sleeps/following_sleep_summary_service.rb): for one page of
    the users this user follows, each one's statistics over the trailing
    week, most minutes slept first. */
module FollowingReport {
  import opened Presence
  import opened Calendar
  import opened FollowRecords
  import opened Users
  import opened DailySummaries
  import opened ServiceResult
  import opened Paging
  import opened Ranking
  import opened Rounding
  import opened Aggregation
  import SelfReport


  /** `Date#to_s`: how a day is written in the response. */
  type DayFormat = Day -> string

  /** `period`, already formatted. */
  datatype TextPeriod = TextPeriod(startDate: string, endDate: string)

  /** One element of `friends_summary`. */
  datatype FriendSummary = FriendSummary(userName: string, userId: UserId, stats: Stats)

  /** `pagination`, with the neighbouring pages reduced to flags. */
  datatype FriendsPagination = FriendsPagination(
    currentPage: int, perPage: int, hasNextPage: bool, hasPrevPage: bool, totalCount: nat, totalPages: nat)

  /** The success payload: `period`, `friends_summary`, `pagination`. */
  datatype FollowingData = FollowingData(period: TextPeriod, friendsSummary: seq<FriendSummary>, pagination: FriendsPagination)

  /** The statistics of one result row as `build_friends_summary` computes
      them: the hours total always, every per-day quotient 0 for a user with
      no days. For a non-empty aggregate they are the self report's
      statistics, and for a user with no rows all zero. */
  function FriendStats(t: Totals): (s: Stats)
    requires t.daysWithSleep <= t.totalDays
    ensures t.totalDays > 0 ==> s == Derive(t)
    ensures t == Totals(0, 0, 0, 0) ==> s == EmptyStats
  {
    var m, d := t.totalMinutes, t.totalDays;
    assert d * 60 == 60 * d;
    Stats(m, Round2(m, 60), t.totalSessions,
          if d == 0 then 0 else Round2(m, d),
          if d == 0 then 0 else Round2(m, d * 60),
          if d == 0 then 0 else Round2(t.totalSessions, d),
          t.daysWithSleep, d,
          if d == 0 then 0 else Round2(100 * t.daysWithSleep, d))
  }

  /** The result row of one followed user: the LEFT JOIN keeps a user who
      has no summaries in the week, with all sums zero. */
  function FriendRow(v: User, rows: seq<DailySummary>, week: Period): FriendSummary {
    FriendSummary(v.name, v.id, FriendStats(Aggregate(RowsFor(rows, v.id, week))))
  }

  /** A friend's statistics are those the self report derives from the same
      rows. */
  lemma {:induction false} FriendRowStats(v: User, rows: seq<DailySummary>, week: Period)
    ensures FriendRow(v, rows, week).stats == Derive(Aggregate(RowsFor(rows, v.id, week)))
  {
    var sel := RowsFor(rows, v.id, week);
    if sel == [] {
      assert Aggregate(sel) == Totals(0, 0, 0, 0);
    }
  }

  /** `ORDER BY COALESCE(SUM(minutes), 0) DESC, u.name ASC` */
  predicate FriendBefore(a: FriendSummary, b: FriendSummary) {
    a.stats.totalMinutes > b.stats.totalMinutes ||
    (a.stats.totalMinutes == b.stats.totalMinutes && LexLe(a.userName, b.userName))
  }

  lemma FriendOrderIsTotal()
    ensures TotalPreorder(FriendBefore)
  {
    forall a: FriendSummary, b: FriendSummary ensures FriendBefore(a, b) || FriendBefore(b, a) {
      LexLeTotal(a.userName, b.userName);
    }
    forall a: FriendSummary, b: FriendSummary, c: FriendSummary | FriendBefore(a, b) && FriendBefore(b, c)
      ensures FriendBefore(a, c)
    {
      if a.stats.totalMinutes == b.stats.totalMinutes == c.stats.totalMinutes {
        LexLeTransitive(a.userName, b.userName, c.userName);
      }
    }
  }

  /** The unsorted result rows of the users on the page. */
  function FriendRows(shown: seq<User>, rows: seq<DailySummary>, week: Period): (fs: seq<FriendSummary>)
    ensures |fs| == |shown|
    ensures forall i :: 0 <= i < |shown| ==> fs[i] == FriendRow(shown[i], rows, week)
  {
    if shown == [] then [] else [FriendRow(shown[0], rows, week)] + FriendRows(shown[1..], rows, week)
  }

  /** Each shown user has a row, and each row belongs to a shown user. */
  lemma FriendRowsMembers(shown: seq<User>, rows: seq<DailySummary>, week: Period)
    ensures forall v :: v in shown ==> FriendRow(v, rows, week) in FriendRows(shown, rows, week)
    ensures forall f :: f in FriendRows(shown, rows, week) ==>
      exists v :: v in shown && f == FriendRow(v, rows, week)
  {
    var fs := FriendRows(shown, rows, week);
    forall v | v in shown ensures FriendRow(v, rows, week) in fs {
      var i :| 0 <= i < |shown| && shown[i] == v;
      assert fs[i] == FriendRow(v, rows, week);
    }
    forall f | f in fs ensures exists v :: v in shown && f == FriendRow(v, rows, week) {
      var i :| 0 <= i < |fs| && fs[i] == f;
      assert shown[i] in shown;
    }
  }

  /** The result rows of the users on the page in `ORDER BY` order:
      sorted, and exactly one row per user shown. */
  function Ranked(shown: seq<User>, rows: seq<DailySummary>, week: Period): (fs: seq<FriendSummary>)
    ensures |fs| == |shown|
    ensures multiset(fs) == multiset(FriendRows(shown, rows, week))
    ensures Sorted(fs, FriendBefore)
    ensures forall f :: f in fs ==> exists v :: v in shown && f == FriendRow(v, rows, week)
    ensures forall v :: v in shown ==> FriendRow(v, rows, week) in fs
  {
    FriendOrderIsTotal();
    var unsorted := FriendRows(shown, rows, week);
    SortKeepsMembers(unsorted, FriendBefore);
    FriendRowsMembers(shown, rows, week);
    var sorted := Sort(unsorted, FriendBefore);
    sorted
  }

  /** `build_pagination_info` */
  function FriendsPaginationOf(p: PageInfo): FriendsPagination {
    FriendsPagination(p.currentPage, p.perPage, p.nextPage.Some?, p.prevPage.Some?, p.totalCount, p.totalPages)
  }

  /** FollowingSleepSummaryService#call! for user `u`, over the follows
      table `edges` (`names` holding each user's name) and the summaries
      table `rows`. It never fails. */
  function Call(edges: seq<Follow>, names: map<UserId, string>, rows: seq<DailySummary>, u: UserId,
                today: Day, page: Option<int>, per: int, format: DayFormat): (r: Result<FollowingData>)
    requires per >= 1
    requires forall e :: e in edges ==> e.followedId in names
    ensures r.IsSuccess() && r.data.Some?
    ensures var d := r.data.value;
      var week := TrailingWeek(today);
      var followed := FollowedUsers(edges, names, u);
      var n := PageNumber(page);
      var shown := Page(followed, n, per);
      d.period == TextPeriod(format(today - LastWeekDays), format(today - 1)) &&
      |d.friendsSummary| == |shown| &&
      Sorted(d.friendsSummary, FriendBefore) &&
      (forall f :: f in d.friendsSummary ==> exists v :: v in shown && f == FriendRow(v, rows, week)) &&
      (forall v :: v in shown ==> FriendRow(v, rows, week) in d.friendsSummary) &&
      d.pagination.hasNextPage == (n * per < |followed|) &&
      d.pagination.hasPrevPage == (n > 1 && (n - 1) * per < |followed|) &&
      d.pagination.totalCount == |followed| &&
      d.pagination.totalPages == TotalPages(|followed|, per) &&
      d.pagination.currentPage == n && d.pagination.perPage == per
  {
    var week := TrailingWeek(today);
    var followed := FollowedUsers(edges, names, u);
    var n := PageNumber(page);
    var shown := Page(followed, n, per);
    var summaries := if shown == [] then [] else Ranked(shown, rows, week);
    Success(Some(FollowingData(
      TextPeriod(format(week.startDate), format(week.endDate)),
      summaries,
      FriendsPaginationOf(Paginate(|followed|, n, per)))))
  }

  /** What the report shows for a followed user is what that user's own
      report with no dates shows as its summary. */
  lemma {:induction false} FriendSeesOwnSummary(edges: seq<Follow>, names: map<UserId, string>, rows: seq<DailySummary>,
                                               u: UserId, today: Day, page: Option<int>, per: int, format: DayFormat,
                                               f: FriendSummary, parse: SelfReport.DateParser)
    requires per >= 1
    requires forall e :: e in edges ==> e.followedId in names
    requires f in Call(edges, names, rows, u, today, page, per, format).data.value.friendsSummary
    ensures f.userId in FollowedIds(edges, u)
    ensures f.stats == SelfReport.Call(rows, f.userId, None, None, Some(1), per, today, parse).data.value.summary
  {
    var week := TrailingWeek(today);
    var shown := Page(FollowedUsers(edges, names, u), PageNumber(page), per);
    var v :| v in shown && f == FriendRow(v, rows, week);
    var i :| 0 <= i < |shown| && shown[i] == v;
    assert v in FollowedUsers(edges, names, u);
    FriendRowStats(v, rows, week);
    SelfReport.DefaultPeriodSucceeds(rows, f.userId, Some(1), per, today, parse);
  }

  /** Following nobody gives an empty list, one page of zero users. */
  lemma {:induction false} FollowingNobody(names: map<UserId, string>, rows: seq<DailySummary>, u: UserId,
                        today: Day, page: Option<int>, per: int, format: DayFormat)
    requires per >= 1
    ensures var d := Call([], names, rows, u, today, page, per, format).data.value;
      d.friendsSummary == [] && d.pagination.totalCount == 0 && !d.pagination.hasNextPage
  {
  }

  /** 30 followed users, page 2 of 10: ten entries, three pages, and pages
      on both sides. */
  lemma {:induction false} ThirtyFollowedSecondPage(edges: seq<Follow>, names: map<UserId, string>, rows: seq<DailySummary>, u: UserId,
                                 today: Day, format: DayFormat)
    requires forall e :: e in edges ==> e.followedId in names
    requires |FollowedUsers(edges, names, u)| == 30
    ensures var d := Call(edges, names, rows, u, today, Some(2), 10, format).data.value;
      |d.friendsSummary| == 10 && d.pagination.totalPages == 3 && d.pagination.totalCount == 30 &&
      d.pagination.hasNextPage && d.pagination.hasPrevPage
  {
    assert TotalPages(30, 10) == 3;
  }
}
