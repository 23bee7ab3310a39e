/** The Sleep model (app/models/sleep.rb): one session from clock-in to an
    optional clock-out, its validations, its `active`/`completed` scopes and
    the duration computed when it is saved with a new clock-out. */
module SleepRecords {
  import opened Presence
  import opened Calendar
  import opened Users

  const MinimumSleepDuration: int := 10

  datatype Session = Session(
    id: nat,
    userId: UserId,
    clockIn: Option<Time>,
    clockOut: Option<Time>,
    duration: Option<int>)

  /** `scope :active`: no clock-out yet. */
  predicate Active(s: Session) {
    s.clockOut.None?
  }

  /** `scope :completed`: clocked out. */
  predicate Completed(s: Session) {
    s.clockOut.Some?
  }

  /** `((clock_out - clock_in) / 60).to_i`: elapsed whole minutes, the
      fraction cut off toward zero. */
  function ElapsedMinutes(clockIn: Time, clockOut: Time): (m: int)
    ensures clockIn <= clockOut ==> 0 <= 60 * m <= clockOut - clockIn < 60 * m + 60
    ensures clockOut < clockIn ==> 60 * m - 60 < clockOut - clockIn <= 60 * m <= 0
  {
    var e := clockOut - clockIn;
    if e >= 0 then e / 60 else -((-e) / 60)
  }

  /** `minimum_sleep_duration`: with both times set, the exact elapsed time
      (out - in) / 60 minutes is under ten minutes. */
  predicate TooShort(s: Session) {
    s.clockIn.Some? && s.clockOut.Some? &&
    s.clockOut.value - s.clockIn.value < 60 * MinimumSleepDuration
  }

  const ClockInBlank := "Clock in time can't be blank"
  const DurationTooSmall := "Duration minutes must be greater than or equal to 10"
  const SessionTooShort := "Clock out time sleep duration must be at least 10 minutes"

  /** The messages of the validations declared after `belongs_to :user`,
      in declaration order; that association's existence check is not
      modelled. The numericality check reads `duration_minutes` as it
      stands, before the save callback recomputes it. */
  function SessionErrors(s: Session): (errs: seq<string>)
    ensures errs == [] <==>
      s.clockIn.Some? &&
      (s.duration.None? || s.duration.value >= MinimumSleepDuration) &&
      !TooShort(s)
    ensures TooShort(s) <==> SessionTooShort in errs
  {
    (if s.clockIn.None? then [ClockInBlank] else []) +
    (if s.duration.Some? && s.duration.value < MinimumSleepDuration then [DurationTooSmall] else []) +
    (if TooShort(s) then [SessionTooShort] else [])
  }

  /** The `before_save :calculate_duration` callback, which runs when the
      clock-out changed: with both times set the duration becomes the whole
      elapsed minutes, otherwise nothing changes. */
  function CalculateDuration(s: Session): (r: Session)
    ensures r.id == s.id && r.userId == s.userId
    ensures r.clockIn == s.clockIn && r.clockOut == s.clockOut
    ensures s.clockIn.Some? && s.clockOut.Some? ==>
      r.duration == Some(ElapsedMinutes(s.clockIn.value, s.clockOut.value))
    ensures s.clockIn.None? || s.clockOut.None? ==> r == s
  {
    if s.clockIn.Some? && s.clockOut.Some?
    then s.(duration := Some(ElapsedMinutes(s.clockIn.value, s.clockOut.value)))
    else s
  }

  /** A session that passes validation with both times set is saved with a
      duration of at least ten whole minutes. */
  lemma {:induction false} ValidSessionLastsTenMinutes(s: Session)
    requires s.clockIn.Some? && s.clockOut.Some? && SessionErrors(s) == []
    ensures CalculateDuration(s).duration.Some?
    ensures CalculateDuration(s).duration.value >= MinimumSleepDuration
  {
    var m := ElapsedMinutes(s.clockIn.value, s.clockOut.value);
    assert s.clockOut.value - s.clockIn.value >= 600;
    assert 60 * m + 60 > 600;
  }

  /** Exactly ten minutes is accepted and saved as 10; 9 minutes 59 seconds
      is refused on `clock_out_time`; eight hours is saved as 480. */
  lemma DurationExamples(id: nat, u: UserId, t: Time)
    ensures var s := Session(id, u, Some(t), Some(t + 600), None);
      SessionErrors(s) == [] && CalculateDuration(s).duration == Some(10)
    ensures SessionErrors(Session(id, u, Some(t), Some(t + 599), None)) == [SessionTooShort]
    ensures CalculateDuration(Session(id, u, Some(t), Some(t + 8 * 3600), None)).duration == Some(480)
  {
  }

  /** An active session keeps no duration: the callback leaves it alone. */
  lemma ActiveSessionHasNoComputedDuration(s: Session)
    requires Active(s)
    ensures CalculateDuration(s) == s
  {
  }
}
