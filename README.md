# Good Night: a verified model of the sleep-tracking core

This project models the domain core of the Good Night API in Dafny. In that API, users clock in and out of sleep sessions, and each day's sessions are materialised into one daily summary row per user and date. Users follow each other and read two reports:

- their own sleep statistics over a date range, with a paginated day-by-day breakdown;
- a page of the users they follow, with each one's statistics for the trailing week.

The model keeps the database tables as sequences in memory:

- sleep sessions: `SleepSessions.SessionStore`
- daily summaries: `SummaryPopulator.SummaryTable`
- follow edges: `FollowGraph.FollowTable`

Each table is a class. The services that change a table are methods on its class, with `modifies` clauses and an invariant (`Valid`) that holds the model validations and unique indexes.

The two reports, the validations, the `Result` value object and the controllers' page-size caps are pure functions.

"Today" and "now" are always parameters:

- A day is an integer day number.
- An instant is an integer count of seconds, and `DATE(t)` is `t / 86400`.
- `Date.parse` is a parameter of type `string -> Option<Day>`.
- `Date#to_s` is a parameter of type `Day -> string`.

The reports' fractional statistics come from `Float#round(2)` on ratios of integers. They are computed exactly, in integer hundredths, rounding half away from zero. Each one is characterised as the nearest hundredth of the exact quotient (`Rounding.NearestHundredth`).

Modules, in dependency order:

| file | module | models |
|---|---|---|
| presence.dfy | Presence | `Option`, `blank?`/`present?` |
| result.dfy | ServiceResult | `Result`, `join`, `to_sentence` |
| calendar.dfy | Calendar | days, instants, the trailing week |
| rounding.dfy | Rounding | `round(2)` on non-negative ratios |
| paging.dfy | Paging | `page(n).per(m)` and its metadata |
| ranking.dfy | Ranking | `ORDER BY` as a sort under a comparator |
| follow.dfy | FollowRecords | the Follow model |
| user.dfy | Users | the User model and its follow relations |
| sleep.dfy | SleepRecords | the Sleep model |
| sleep_sessions.dfy | SleepSessions | clock-in and clock-out |
| daily_sleep_summary.dfy | DailySummaries | the DailySleepSummary model |
| sleep_summary_populator.dfy | SummaryPopulator | the daily summary materialiser |
| aggregation.dfy | Aggregation | the reports' aggregate and statistics |
| sleep_summary.dfy | SelfReport | the user's own report |
| following_sleep_summary.dfy | FollowingReport | the report on followed users |
| follow_services.dfy | FollowGraph | follow and unfollow |
| controllers.dfy | Controllers | the two report endpoints |

Where the code and the behaviour one might expect differ, the model follows the code:

- Average hours is the minute total divided by days times 60, then rounded once: app/services/sleeps/sleep_summary_service.rb:114 and app/services/sleeps/following_sleep_summary_service.rb:79. It is not derived from the rounded average minutes.
- The following report always covers the trailing week and never fails.
  - The request tests in spec/requests/api/v1/following_sleep_summaries_spec.rb expect custom ranges and a "too long" error, but the service declares no date options.
  - The controller's `start_date`/`end_date` therefore have no effect.
  - `Controllers.FollowingSleepSummariesIndex` takes no dates and always answers 200.
- The self report's pagination carries `next_page`/`prev_page` as page numbers or nil, as the service builds it (app/services/sleeps/sleep_summary_service.rb:122-131). It does not carry the `has_next_page` flag the request test at spec/requests/api/v1/sleep_summaries_spec.rb:100 expects.
- The self report's failure carries the hash `{ error: "Date range is too long" }` (`ErrorValue.Keyed`), so the endpoint renders `{ error: { error: ... } }`.
- A start date after the end date is not an error. The range selects nothing, and the report is empty (`SelfReport.ReversedRangeIsEmpty`).
- The page-size caps are in the controllers: 100 for the self report, 25 for the following report. The services' `MAX_PER_PAGE` constants are never read.
- The following report orders rows only within the current page. The page itself is taken from `followed_users` in table order.

## Model

| member | source | states |
|---|---|---|
| ServiceResult.Success | app/services/result.rb:10-12 | `success?` holds, `failure?` does not, data is what was given (nil when nothing was) and error is nil |
| ServiceResult.Failure | app/services/result.rb:14-16 | `success?` fails, `failure?` holds, data is nil and error is what was given |
| ServiceResult.FailureIsNotSuccess | app/services/result.rb:18-24 | for every Result, `failure?` is the negation of `success?` |
| ServiceResult.JoinConcat | app/services/sleeps/sleep_summary_populator_service.rb:24 | `join(", ")` of two non-empty message lists is their joins with one separator between; with `Join`'s empty and one-message cases this fixes the join of any list |
| ServiceResult.JoinCons | app/services/sleeps/sleep_summary_populator_service.rb:24 | each message is followed by the separator and the join of the rest |
| ServiceResult.ToSentence | app/services/follows/follow_service.rb:13 | no messages give the empty string, one gives itself, and two are joined by " and " |
| ServiceResult.SentenceWidensLastSeparator | app/services/follows/follow_service.rb:13 | with three or more messages, `to_sentence` is `join(", ")` with only its last separator widened to ", and " |
| ServiceResult.ThreeMessageSentence | app/services/follows/follow_service.rb:13 | three messages read "a, b, and c" |
| Calendar.DayOf | app/services/sleeps/sleep_summary_populator_service.rb:11 | `DATE(t)` is the day whose 86400 seconds contain the instant `t` |
| Calendar.TrailingWeek | app/services/sleeps/following_sleep_summary_service.rb:26-32 | the window is seven days long and ends yesterday; a day is in it exactly when today−7 ≤ day < today |
| Rounding.RoundHalfUp | app/services/sleeps/sleep_summary_service.rb:110-118 | the result is the nearest hundredth of num/den, with halves rounded up |
| Rounding.Round2 | app/services/sleeps/sleep_summary_service.rb:110-118 | `round(2)` of num/den is the nearest hundredth for either sign, rounding halves away from zero, and it keeps the sign |
| Rounding.NearestIsUnique | app/services/sleeps/sleep_summary_service.rb:110-118 | only one hundredth is the nearest, so the rounded statistic is fully determined |
| Rounding.PercentageBounds | app/services/sleeps/sleep_summary_service.rb:118 | a rounded percentage of a part of a whole lies in [0, 100.00], and it is exactly 100.00 when the part is the whole |
| Paging.TotalPages | app/services/sleeps/sleep_summary_service.rb:129 | `total_pages` is the ceiling of count / per: enough pages for every item, and no page left empty |
| Paging.Page | app/services/sleeps/sleep_summary_service.rb:83-84 | page n holds the items at positions [(n−1)·per, n·per), and is empty past the end |
| Paging.Paginate | app/services/sleeps/sleep_summary_service.rb:122-131 | current page and per are as given; the total count and pages are computed; `next_page` is n+1 exactly when items lie beyond page n; `prev_page` is n−1 exactly when n > 1 and page n is not past the end |
| Paging.PageNumber | app/services/sleeps/sleep_summary_service.rb:12 | a missing page means page 1, and a page below 1 is read as page 1 |
| Paging.NextPageExists | app/services/sleeps/sleep_summary_service.rb:126 | page n is before the last page exactly when n·per < count |
| Paging.PageIsFull | app/services/sleeps/sleep_summary_service.rb:83-84 | every page before the last holds exactly `per` items |
| Paging.ItemOnItsPage | app/services/sleeps/sleep_summary_service.rb:83-84 | item k is item k mod per of page k div per + 1 |
| Paging.ItemOnSomePage | app/services/sleeps/sleep_summary_service.rb:83-84 | every item of the collection is on some page |
| Paging.ThirtyItemsSecondPage | app/services/sleeps/sleep_summary_service.rb:122-131 | 30 items, page 2, per 10: items 10..19, three pages, and pages on both sides; page 5 has neither |
| Ranking.Insert | app/services/sleeps/sleep_summary_service.rb:82 | inserting adds exactly one copy of the element |
| Ranking.Sort | app/services/sleeps/sleep_summary_service.rb:82 | the ordered rows are a permutation of the rows, sorted under any total `ORDER BY` key |
| Ranking.SortKeepsMembers | app/services/sleeps/sleep_summary_service.rb:82 | ordering neither adds nor drops a row |
| Ranking.InsertSorted | app/services/sleeps/sleep_summary_service.rb:82 | insertion into a sorted sequence keeps it sorted |
| Ranking.LexLeTotal | app/services/sleeps/following_sleep_summary_service.rb:55 | any two names are comparable under `u.name ASC` |
| Ranking.LexLeTransitive | app/services/sleeps/following_sleep_summary_service.rb:55 | the name order is transitive |
| Ranking.LexLeAntisymmetric | app/services/sleeps/following_sleep_summary_service.rb:55 | two names that sort at or before each other are equal |
| FollowRecords.FollowErrors | app/models/follow.rb:5-16 | a follow is valid (apart from the `belongs_to` checks) exactly when both ids are present and different and the pair is not already saved; the uniqueness message appears exactly for a saved pair, and "Cannot follow yourself" exactly for equal ids |
| FollowRecords.ValidatedEdgeKeepsTableValid | app/models/follow.rb:5-16 | saving an edge that passes validation keeps the table free of self-follows and repeated pairs |
| Users.NameErrors | app/models/user.rb:12 | a name is valid exactly when it is present and at most 255 characters; a nil name gets only the presence message |
| Users.WhiteSpaceNameIsBlank | app/models/user.rb:12 | a name made only of Unicode white space (U+3000, U+00A0) gets "Name can't be blank" |
| Users.FollowedIds | app/models/user.rb:6-7 | v is among u's `followed_users` exactly when the edge u→v exists |
| Users.FollowerIds | app/models/user.rb:9-10 | v is among u's `followers` exactly when the edge v→u exists |
| Users.FollowedUsers | app/models/user.rb:6-7 | the rows of `followed_users` are exactly the followed users, each under its own name, with no user twice |
| Users.FollowedAndFollowersAgree | app/models/user.rb:6-10 | v is followed by u exactly when u is among v's followers |
| SleepRecords.ElapsedMinutes | app/models/sleep.rb:20 | elapsed whole minutes, truncated toward zero, for either order of the two instants |
| SleepRecords.SessionErrors | app/models/sleep.rb:6-8 | a session is valid (apart from the `belongs_to` checks) exactly when it has a clock-in, a nil or ≥ 10 duration, and does not last under ten minutes; the `clock_out_time` message appears exactly when it is too short |
| SleepRecords.CalculateDuration | app/models/sleep.rb:13-21 | with both times set, the duration becomes the elapsed whole minutes and nothing else changes; otherwise the session is left as it is |
| SleepRecords.ValidSessionLastsTenMinutes | app/models/sleep.rb:23-30 | a valid session with both times is saved with a duration of at least 10 |
| SleepRecords.DurationExamples | app/models/sleep.rb:17-30 | exactly 600 s is valid and gives 10; 599 s fails only on `clock_out_time`; eight hours gives 480 |
| SleepRecords.ActiveSessionHasNoComputedDuration | app/models/sleep.rb:18 | the callback leaves a session without a clock-out unchanged |
| SleepSessions.FirstActive | app/services/sleeps/clock_in_service.rb:7 | `user.sleeps.active.first` finds the user's first active session, and none exactly when the user has none |
| SleepSessions.FindOwned | app/services/sleeps/clock_out_service.rb:8 | the lookup finds a session with that id belonging to the user, and none exactly when there is none |
| SleepSessions.Fresh | app/services/sleeps/clock_in_service.rb:9 | the built session is active, clocked in at now, and has no duration |
| SleepSessions.FreshSessionValid | app/services/sleeps/clock_in_service.rb:11-15 | a freshly built session always passes validation, so the clock-in save cannot fail |
| SleepSessions.Closed | app/services/sleeps/clock_out_service.rb:13-15 | the saved session is completed at now, with its id, user and clock-in unchanged; the `before_save` callback sets its duration to the whole minutes from clock-in to now |
| SleepSessions.SessionStore.ClockIn | app/services/sleeps/clock_in_service.rb:6-16 | with an active session, it fails with "User already has an active sleep record" and nothing changes; otherwise exactly one new active session clocked in at now is appended. The table keeps one active session per user |
| SleepSessions.SessionStore.ClockOut | app/services/sleeps/clock_out_service.rb:7-20 | checks in order: not the user's session, then already clocked out, then under ten minutes. Each fails with its message and changes nothing. Otherwise only that session changes, closed at now with its whole-minute duration ≥ 10 |
| SleepSessions.CompletedSessionsLastTenMinutes | app/models/sleep.rb:23-30 | every completed session in a valid table has a duration of at least 10 |
| DailySummaries.SummaryErrors | app/models/daily_sleep_summary.rb:4-7 | a row is valid (apart from the `belongs_to` checks) exactly when its date is present, minutes and sessions are nil or ≥ 0, and no other row of the user has that date; a nil date gets "Date can't be blank" |
| SummaryPopulator.DayTotals | app/services/sleeps/sleep_summary_populator_service.rb:10-15 | the count is zero exactly when no completed session of the user started that day; with every counted session ≥ 10 minutes, the minutes are at least 10 per session |
| SummaryPopulator.DayTotalsConcat | app/services/sleeps/sleep_summary_populator_service.rb:14-15 | the sum and the count over two session lists together are the sums of each |
| SummaryPopulator.UncountedSessionIgnored | app/services/sleeps/sleep_summary_populator_service.rb:10-11 | active sessions, other users' sessions and sessions that started on other days add nothing |
| SummaryPopulator.SessionCountsOnClockInDay | app/services/sleeps/sleep_summary_populator_service.rb:11 | a session counts whole, once, on its clock-in day and on no other day, even if it ends the next day |
| SummaryPopulator.FindKey | app/services/sleeps/sleep_summary_populator_service.rb:18 | `find_or_initialize_by` finds the row with the (user, date) key, and none exactly when there is none |
| SummaryPopulator.UpsertStoresTotals | app/services/sleeps/sleep_summary_populator_service.rb:18-24 | after saving, exactly one row has the key and it holds the new totals; keys stay unique |
| SummaryPopulator.UpsertKeepsRowsValid | app/services/sleeps/sleep_summary_populator_service.rb:18-24 | saving non-negative totals keeps every row non-negative and the ids distinct, all below the next id |
| SummaryPopulator.UpsertKeepsOtherRows | app/services/sleeps/sleep_summary_populator_service.rb:18-24 | rows of other users or other dates are neither lost, added nor changed |
| SummaryPopulator.UpsertIdentity | app/services/sleeps/sleep_summary_populator_service.rb:18 | an existing row is rewritten in place with the same id; otherwise exactly one row is added, with the fresh id |
| SummaryPopulator.UpsertIdempotent | app/services/sleeps/sleep_summary_populator_service.rb:18-24 | saving the same totals again leaves the table as it is |
| SummaryPopulator.SummaryTable.Populate | app/services/sleeps/sleep_summary_populator_service.rb:7-25 | the target day is the given date or today. A negative total fails with the validation messages joined by ", " and changes nothing; otherwise the table is upserted with the day's totals and the saved row is returned. That row is in the table, and it keeps the existing row's id or takes the next fresh id. Unique keys and non-negative rows are kept |
| SummaryPopulator.StoredSessionsNeverFailTheSave | app/services/sleeps/sleep_summary_populator_service.rb:14 | sessions that passed validation always sum to a non-negative total, so the save succeeds |
| Aggregation.Aggregate | app/services/sleeps/sleep_summary_service.rb:57-76 | `total_days` is the row count and `days_with_sleep` never exceeds it |
| Aggregation.AggregateOfValidRows | app/services/sleeps/sleep_summary_service.rb:57-76 | over validated rows the sums are ≥ 0, and some day had sleep exactly when the minute total is positive |
| Aggregation.AggregateConcat | app/services/sleeps/sleep_summary_service.rb:62-67 | the aggregate of two row sets together is the sum of their aggregates |
| Aggregation.AggregateIgnoresOrder | app/services/sleeps/sleep_summary_service.rb:61 | the aggregate does not depend on row order (`reorder(nil)`) |
| Aggregation.RowsFor | app/services/sleeps/sleep_summary_service.rb:59-60 | exactly the user's rows dated inside the inclusive range are selected, each no more often than it is stored |
| Aggregation.OtherUsersIgnored | app/services/sleeps/sleep_summary_service.rb:59-60 | other users' rows never change a user's selection |
| Aggregation.Derive | app/services/sleeps/sleep_summary_service.rb:99-120 | no rows give all nine fields 0; otherwise each fraction is the nearest hundredth of m/60, m/d, m/(60·d), s/d or 100·dws/d, and efficiency lies in [0, 100.00] |
| Aggregation.ThreeDayExample | app/services/sleeps/sleep_summary_service.rb:109-119 | 1260 minutes and 4 sessions over 3 days give 21.00 h, 420.00 and 7.00 h a day, 1.33 sessions a day, and 100.00 % |
| Aggregation.TwoOfThreeDaysExample | app/services/sleeps/sleep_summary_service.rb:118 | two days of sleep out of three is 66.67 % |
| SelfReport.ParseDate | app/services/sleeps/sleep_summary_service.rb:43-47 | an absent or blank value gives no date; a present one gives what the parser makes of it |
| SelfReport.ResolvePeriod | app/services/sleeps/sleep_summary_service.rb:35-55 | each bound is resolved on its own: a parsed date when there is one, otherwise today−7 or today−1; with no dates it is the trailing week |
| SelfReport.EntryOrderIsTotal | app/services/sleeps/sleep_summary_service.rb:82 | the breakdown order (minutes desc, date desc) is a total preorder |
| SelfReport.EntryOrderIsStrictOnDays | app/services/sleeps/sleep_summary_service.rb:82 | two different days never tie, so one user's breakdown order is determined |
| SelfReport.Entries | app/services/sleeps/sleep_summary_service.rb:89-97 | one breakdown entry per row, carrying its date, minutes and sessions |
| SelfReport.Ranked | app/services/sleeps/sleep_summary_service.rb:79-85 | the ordered breakdown is sorted and is a permutation (same multiset) of the selected rows' entries |
| SelfReport.PageSorted | app/services/sleeps/sleep_summary_service.rb:82-84 | a page of a sorted breakdown is sorted |
| SelfReport.ShownPage | app/services/sleeps/sleep_summary_service.rb:82-84 | the page shown is sorted, holds at most `per` entries, and each comes from a selected row |
| SelfReport.Call | app/services/sleeps/sleep_summary_service.rb:15-27 | it fails exactly when the span exceeds 90 days, with `{ error: "Date range is too long" }`. Otherwise: the resolved period; the statistics of the user's rows in it, whatever the page; page n of the ordered breakdown, at most `per` entries, each from a selected row; and the metadata of the selected rows |
| SelfReport.DefaultPeriodSucceeds | app/services/sleeps/sleep_summary_service.rb:35-55 | with no dates the report covers the trailing week and succeeds |
| SelfReport.NinetyDaysIsTheLimit | app/services/sleeps/sleep_summary_service.rb:31-33 | dates exactly 90 days apart succeed, and 91 days apart fail with the range error |
| SelfReport.EntryOnItsPage | app/services/sleeps/sleep_summary_service.rb:79-85 | every selected row's entry is on some page of the ordered breakdown |
| SelfReport.EveryDayOnSomePage | app/services/sleeps/sleep_summary_service.rb:79-97 | every selected day appears in the breakdown of some page of the report |
| SelfReport.ReversedRangeIsEmpty | app/services/sleeps/sleep_summary_service.rb:31-33 | a start after the end succeeds with all-zero statistics, an empty breakdown and a zero count |
| SelfReport.EmptySelectionReport | app/services/sleeps/sleep_summary_service.rb:57-131 | an empty selection gives all-zero statistics, an empty page and a total count of 0 |
| SelfReport.SelectionOfValidRows | app/services/sleeps/sleep_summary_service.rb:59-60 | rows selected from validated rows are validated |
| SelfReport.StatsOfValidRows | app/services/sleeps/sleep_summary_service.rb:99-120 | for validated rows: all zero when there are none, otherwise the rounded quotients with efficiency in [0, 100.00], and days with sleep exactly when minutes were slept |
| SelfReport.SummaryOfValidTable | app/services/sleeps/sleep_summary_service.rb:99-120 | over a validated table the report's summary is those statistics for the user's rows in the period |
| FollowingReport.FriendStats | app/services/sleeps/following_sleep_summary_service.rb:67-87 | with days, the statistics are those the self report derives; for a user with no rows they are all zero |
| FollowingReport.FriendRowStats | app/services/sleeps/following_sleep_summary_service.rb:46-52 | each friend's statistics are those the self report derives from the friend's rows in the window, zero rows included |
| FollowingReport.FriendOrderIsTotal | app/services/sleeps/following_sleep_summary_service.rb:55 | the order (minutes desc, name asc) is a total preorder |
| FollowingReport.FriendRows | app/services/sleeps/following_sleep_summary_service.rb:50-54 | one result row per user on the page, the left join keeping users without rows |
| FollowingReport.FriendRowsMembers | app/services/sleeps/following_sleep_summary_service.rb:50-54 | every user shown has a result row, and every result row belongs to a user shown |
| FollowingReport.Ranked | app/services/sleeps/following_sleep_summary_service.rb:55 | the result rows are sorted, are a permutation (same multiset) of the page's rows, and hold exactly one row per user shown |
| FollowingReport.Call | app/services/sleeps/following_sleep_summary_service.rb:13-22 | it always succeeds. The period is the trailing week as text. There is exactly one entry per followed user on the page, each a followed user's row, sorted. The flags and counts describe the followed users |
| FollowingReport.FriendSeesOwnSummary | app/services/sleeps/following_sleep_summary_service.rb:46-52 | every entry is a followed user, and its statistics equal that user's own report with no dates |
| FollowingReport.FollowingNobody | app/services/sleeps/following_sleep_summary_service.rb:58-59 | following nobody gives an empty list, a zero count and no next page |
| FollowingReport.ThirtyFollowedSecondPage | app/services/sleeps/following_sleep_summary_service.rb:89-98 | 30 followed users, page 2, per 10: ten entries, three pages, and pages on both sides |
| FollowGraph.FindEdge | app/services/follows/unfollow_service.rb:8 | the lookup finds the edge, and none exactly when it is absent |
| FollowGraph.RemoveAtRemovesEdge | app/services/follows/unfollow_service.rb:11 | destroying an edge removes it and keeps every other edge |
| FollowGraph.FollowTable.FollowUser | app/services/follows/follow_service.rb:7-14 | checks in order: self-follow, then missing user, then already following. Each fails with its message and changes nothing. Otherwise the edge is appended, adding the target to `followed_users` and the follower to the target's `followers` |
| FollowGraph.FollowTable.UnfollowUser | app/services/follows/unfollow_service.rb:7-14 | a missing edge fails with "Follow relationship not found" and changes nothing; otherwise it succeeds with nil. Only that edge is removed, and neither user remains in the other's list |
| Controllers.ClampPer | app/controllers/api/v1/sleep_summaries_controller.rb:10 | `per` never exceeds the cap; absent means 25; a request within the cap passes unchanged |
| Controllers.Render | app/controllers/api/v1/sleep_summaries_controller.rb:13-15 | success renders the data with 200; failure renders `{ error: ... }` with 400 |
| Controllers.SleepSummariesIndex | app/controllers/api/v1/sleep_summaries_controller.rb:4-16 | 400 with the range error exactly for a span over 90 days; otherwise 200 with at most 100 days on the page |
| Controllers.FollowingSleepSummariesIndex | app/controllers/api/v1/following_sleep_summaries_controller.rb:4-16 | always 200, with at most 25 followed users on the page |

## Left out

- Time zones, `Time.zone.now`, and the database's `DATE()`: a day is `t / 86400` on one time line, and today and now are parameters.
- `Date.parse` and `Date#to_s` are parameters. Date parsing's leniency is not modelled.
- `to_i` on request strings is not modelled. Page, per and ids arrive as integers or as absent.
- Binary floating point: statistics are exact hundredths. `to_f`/`to_i` on sums are not modelled, nor how Ruby prints a `Float`.
- SelfReport.Call, FollowingReport.Call: require `per >= 1`. Kaminari's handling of a zero, negative or non-numeric `per` is library behaviour outside this model. With a missing `per` parameter the controllers pass 25.
- Controllers.SleepSummariesIndex, Controllers.FollowingSleepSummariesIndex: require the capped `per` to be at least 1, for the same reason.
- The services' own `DEFAULT_PER_PAGE` default for a nil `per` is not modelled, because both controllers always pass a number. `MAX_PER_PAGE` is declared in both services but never read; the caps are the controllers' literals (`Controllers.ClampPer`).
- Kaminari is modelled by its documented arithmetic (`Paging`). Its internals, padding and `max_per_page` are not.
- `ORDER BY` ties: the sort is stable and keeps table order. For the following report's (minutes, name) ties the database may order differently. For the self report no ties exist, by `SelfReport.EntryOrderIsStrictOnDays` and the unique (user, date) key.
- Collation: names compare by code point (`Ranking.LexLe`). This is not the database's locale collation.
- `followed_users` comes back in follows-table order, whereas the database gives no order.
- SleepSessions.SessionStore.ClockIn: the save-failure branch is not modelled. A freshly built session always validates (`SleepSessions.FreshSessionValid`), so that branch cannot run.
- SleepSessions.SessionStore.ClockIn: the success data is the session itself, not the `{ sleep_record: ... }` hash around it.
- SummaryPopulator.SummaryTable.Populate: requires every counted completed session to have a duration. In Ruby, a nil duration would make `sum` raise, and a saved completed session always has one (`SleepSessions.CompletedSessionsLastTenMinutes`).
- FollowRecords.FollowErrors, SleepRecords.SessionErrors, DailySummaries.SummaryErrors: the `belongs_to` associations' "must exist" checks (follow.rb lines 2-3, sleep.rb line 2, daily_sleep_summary.rb line 2) are not modelled, since records carry user ids and no users table. Each modelled save names an existing user: the current user, or a followed id that `FollowUser` has already looked up.
- Header-name authentication, the `rescue_from` handlers, the users and sleep-records controllers, and the API helpers are not part of this model.
- Concurrency: unique-index races and concurrent materialiser runs.
- The background job that calls the materialiser, and logging.
- Users are not stored as a class. The users table appears as the set of ids `FollowUser` looks up and as the `names` map of the following report; user creation is not part of this model.
