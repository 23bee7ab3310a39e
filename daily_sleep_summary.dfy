/** The DailySleepSummary model (app/models/daily_sleep_summary.rb): one row
    per user and calendar day holding that day's sleep minutes and session
    count, and the validations a row must pass to be saved. */
module DailySummaries {
  import opened Presence
  import opened Calendar
  import opened Users

  datatype DailySummary = DailySummary(
    id: nat,
    userId: UserId,
    date: Day,
    minutes: int,
    sessions: int)

  /** A row about to be saved: `id` is nil until it is first inserted and
      the three columns may be nil. */
  datatype SummaryDraft = SummaryDraft(
    id: Option<nat>,
    userId: UserId,
    date: Option<Day>,
    minutes: Option<int>,
    sessions: Option<int>)

  const DateBlank := "Date can't be blank"
  const MinutesNegative := "Total sleep duration minutes must be greater than or equal to 0"
  const SessionsNegative := "Number of sleep sessions must be greater than or equal to 0"
  const DuplicateDay := "User already has a summary for this date"

  /** The uniqueness query: another saved row has the same user and date. */
  predicate ClashesWith(d: SummaryDraft, table: seq<DailySummary>) {
    d.date.Some? &&
    exists r :: r in table && r.userId == d.userId && r.date == d.date.value &&
      (d.id.None? || r.id != d.id.value)
  }

  /** The messages of the validations declared after `belongs_to :user`,
      in declaration order; that association's existence check is not
      modelled. */
  function SummaryErrors(d: SummaryDraft, table: seq<DailySummary>): (errs: seq<string>)
    ensures errs == [] <==>
      d.date.Some? &&
      (d.minutes.None? || d.minutes.value >= 0) &&
      (d.sessions.None? || d.sessions.value >= 0) &&
      !ClashesWith(d, table)
    ensures d.date.None? ==> DateBlank in errs
  {
    (if d.date.None? then [DateBlank] else []) +
    (if d.minutes.Some? && d.minutes.value < 0 then [MinutesNegative] else []) +
    (if d.sessions.Some? && d.sessions.value < 0 then [SessionsNegative] else []) +
    (if ClashesWith(d, table) then [DuplicateDay] else [])
  }

  predicate SameKey(r: DailySummary, u: UserId, date: Day) {
    r.userId == u && r.date == date
  }

  /** At most one row per (user, date): the unique index. */
  ghost predicate UniqueKeys(rows: seq<DailySummary>) {
    forall i, j :: 0 <= i < j < |rows| ==> !SameKey(rows[j], rows[i].userId, rows[i].date)
  }

  /** Every column of every saved row passed validation. */
  ghost predicate NonNegative(rows: seq<DailySummary>) {
    forall i :: 0 <= i < |rows| ==> rows[i].minutes >= 0 && rows[i].sessions >= 0
  }
}
