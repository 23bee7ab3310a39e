/** The sessions table and the two services that change it:
    clock-in (app/services/sleeps/clock_in_service.rb) and clock-out
    (app/services/sleeps/clock_out_service.rb). */
module SleepSessions {
  import opened Presence
  import opened Calendar
  import opened Users
  import opened SleepRecords
  import opened ServiceResult

  const AlreadyActive := "User already has an active sleep record"
  const NotFound := "Sleep record not found"
  const AlreadyClockedOut := "Sleep record has already been clocked out"

  /** `user.sleeps.active.first`: the position of the user's first active
      session, if any. */
  function FirstActive(ss: seq<Session>, u: UserId): (k: Option<nat>)
    ensures k.Some? ==> k.value < |ss| && ss[k.value].userId == u && Active(ss[k.value])
    ensures k.Some? ==> forall i :: 0 <= i < k.value ==> !(ss[i].userId == u && Active(ss[i]))
    ensures k.None? ==> forall i :: 0 <= i < |ss| ==> !(ss[i].userId == u && Active(ss[i]))
  {
    if ss == [] then None
    else if ss[0].userId == u && Active(ss[0]) then Some(0)
    else match FirstActive(ss[1..], u)
      case None => None
      case Some(k) => Some(k + 1)
  }

  /** `user.sleeps.find_by(id: id)`: the position of the session with that id,
      provided it belongs to the user. */
  function FindOwned(ss: seq<Session>, u: UserId, id: int): (k: Option<nat>)
    ensures k.Some? ==> k.value < |ss| && ss[k.value].userId == u && ss[k.value].id == id
    ensures k.None? ==> forall i :: 0 <= i < |ss| ==> !(ss[i].userId == u && ss[i].id == id)
  {
    if ss == [] then None
    else if ss[0].userId == u && ss[0].id == id then Some(0)
    else match FindOwned(ss[1..], u, id)
      case None => None
      case Some(k) => Some(k + 1)
  }

  /** What a saved session looks like: it passes validation, an active one
      has no duration and a completed one carries its computed duration. */
  ghost predicate Stored(s: Session) {
    SessionErrors(s) == [] &&
    (Active(s) ==> s.duration.None?) &&
    (Completed(s) ==> s.duration == Some(ElapsedMinutes(s.clockIn.value, s.clockOut.value)))
  }

  /** At most one active session per user (the partial unique index on
      user_id where clock_out_time is null). */
  ghost predicate OneActivePerUser(ss: seq<Session>) {
    forall i, j :: 0 <= i < j < |ss| && ss[i].userId == ss[j].userId ==>
      !(Active(ss[i]) && Active(ss[j]))
  }

  /** The session that `user.sleeps.build(clock_in_time: now)` makes. */
  function Fresh(id: nat, u: UserId, now: Time): (s: Session)
    ensures Active(s) && s.clockIn == Some(now) && s.duration.None?
  {
    Session(id, u, Some(now), None, None)
  }

  /** A freshly built session always passes validation, so the clock-in
      service's save never fails. */
  lemma FreshSessionValid(id: nat, u: UserId, now: Time)
    ensures SessionErrors(Fresh(id, u, now)) == [] && Stored(Fresh(id, u, now))
  {
  }

  /** The session a clock-out at `now` saves, callback applied. */
  function Closed(s: Session, now: Time): (r: Session)
    ensures Completed(r) && r.clockOut == Some(now)
    ensures r.id == s.id && r.userId == s.userId && r.clockIn == s.clockIn
    ensures s.clockIn.Some? ==> r.duration == Some(ElapsedMinutes(s.clockIn.value, now))
    ensures s.clockIn.None? ==> r.duration == s.duration
  {
    CalculateDuration(s.(clockOut := Some(now)))
  }

  /** A new active session for a user who has none keeps at most one active
      session per user. */
  lemma {:induction false} AppendActiveKeepsOneActive(ss: seq<Session>, s: Session)
    requires OneActivePerUser(ss) && FirstActive(ss, s.userId).None?
    ensures OneActivePerUser(ss + [s])
  {
    var t := ss + [s];
    forall i, j | 0 <= i < j < |t| && t[i].userId == t[j].userId ensures !(Active(t[i]) && Active(t[j])) {
      if j < |ss| {
        assert t[i] == ss[i] && t[j] == ss[j];
      } else {
        assert t[i] == ss[i] && t[j] == s;
      }
    }
  }

  class SessionStore {
    var sessions: seq<Session>
    var nextId: nat

    ghost predicate Valid()
      reads this
    {
      (forall i :: 0 <= i < |sessions| ==> sessions[i].id < nextId && Stored(sessions[i])) &&
      (forall i, j :: 0 <= i < j < |sessions| ==> sessions[i].id != sessions[j].id) &&
      OneActivePerUser(sessions)
    }

    constructor ()
      ensures Valid() && sessions == []
    {
      sessions := [];
      nextId := 0;
    }

    /** ClockInService#call!: starts a session at `now` unless the user
        already has an active one. */
    method ClockIn(u: UserId, now: Time) returns (r: Result<Session>)
      requires Valid()
      modifies this
      ensures Valid()
      ensures FirstActive(old(sessions), u).Some? ==>
        r == Failure(Message(AlreadyActive)) &&
        sessions == old(sessions) && nextId == old(nextId)
      ensures FirstActive(old(sessions), u).None? ==>
        r == Success(Some(Fresh(old(nextId), u, now))) &&
        sessions == old(sessions) + [Fresh(old(nextId), u, now)] &&
        nextId == old(nextId) + 1
    {
      if FirstActive(sessions, u).Some? {
        r := Failure(Message(AlreadyActive));
        return;
      }
      var s := Fresh(nextId, u, now);
      FreshSessionValid(nextId, u, now);
      AppendActiveKeepsOneActive(sessions, s);
      sessions := sessions + [s];
      nextId := nextId + 1;
      r := Success(Some(s));
    }

    /** ClockOutService#call!: closes the user's session `id` at `now`. The
        lookup is scoped to the user and precedes the clocked-out check; a
        session under ten minutes fails validation and is not saved. */
    method ClockOut(u: UserId, id: int, now: Time) returns (r: Result<Session>)
      requires Valid()
      modifies this
      ensures Valid() && nextId == old(nextId)
      ensures var k := FindOwned(old(sessions), u, id);
        if k.None? then
          r == Failure(Message(NotFound)) && sessions == old(sessions)
        else if Completed(old(sessions)[k.value]) then
          r == Failure(Message(AlreadyClockedOut)) && sessions == old(sessions)
        else if TooShort(old(sessions)[k.value].(clockOut := Some(now))) then
          r == Failure(Messages([SessionTooShort])) && sessions == old(sessions)
        else
          var s := Closed(old(sessions)[k.value], now);
          r == Success(Some(s)) && sessions == old(sessions)[k.value := s] &&
          s.duration == Some(ElapsedMinutes(s.clockIn.value, now)) &&
          s.duration.value >= MinimumSleepDuration
    {
      var k := FindOwned(sessions, u, id);
      if k.None? {
        r := Failure(Message(NotFound));
        return;
      }
      var record := sessions[k.value];
      assert Stored(record);
      if record.clockOut.Some? {
        r := Failure(Message(AlreadyClockedOut));
        return;
      }
      assert record.clockIn.Some? && record.duration.None?;
      record := record.(clockOut := Some(now));
      var errs := SessionErrors(record);
      assert errs == if TooShort(record) then [SessionTooShort] else [];
      if errs != [] {
        r := Failure(Messages(errs));
        return;
      }
      ValidSessionLastsTenMinutes(record);
      var saved := CalculateDuration(record);
      sessions := sessions[k.value := saved];
      r := Success(Some(saved));
    }
  }

  /** In a valid table every completed session lasted ten minutes or more. */
  lemma {:induction false} CompletedSessionsLastTenMinutes(ss: seq<Session>, i: nat)
    requires i < |ss| && Stored(ss[i]) && Completed(ss[i])
    ensures ss[i].duration.Some? && ss[i].duration.value >= MinimumSleepDuration
  {
    ValidSessionLastsTenMinutes(ss[i]);
  }
}
