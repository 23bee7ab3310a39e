/** The daily summary materializer
    (app/services/sleeps/sleep_summary_populator_service.rb): folds a user's
    completed sessions that started on one day into a minute total and a
    count, then saves them into that user's row for that day, creating the
    row if there is none. */
module SummaryPopulator {
  import opened Presence
  import opened Calendar
  import opened Users
  import opened SleepRecords
  import opened DailySummaries
  import opened ServiceResult

  /** `user.sleeps.completed.where("DATE(clock_in_time) = ?", day)` selects
      this session. */
  predicate Counted(s: Session, u: UserId, day: Day) {
    s.userId == u && Completed(s) && s.clockIn.Some? && DayOf(s.clockIn.value) == day
  }

  /** Every selected session has a duration to add up. */
  ghost predicate DurationsKnown(ss: seq<Session>, u: UserId, day: Day) {
    forall i :: 0 <= i < |ss| && Counted(ss[i], u, day) ==> ss[i].duration.Some?
  }

  datatype DayTotal = DayTotal(minutes: int, count: nat)

  /** `sleep_records.sum(&:duration_minutes)` and `sleep_records.count`. */
  function DayTotals(ss: seq<Session>, u: UserId, day: Day): (t: DayTotal)
    requires DurationsKnown(ss, u, day)
    ensures t.count <= |ss|
    ensures t.count == 0 <==> forall i :: 0 <= i < |ss| ==> !Counted(ss[i], u, day)
    ensures (forall i :: 0 <= i < |ss| && Counted(ss[i], u, day) ==>
               ss[i].duration.value >= MinimumSleepDuration) ==>
            t.minutes >= MinimumSleepDuration * t.count
  {
    if ss == [] then DayTotal(0, 0)
    else
      assert DurationsKnown(ss[1..], u, day) by {
        forall i | 0 <= i < |ss[1..]| && Counted(ss[1..][i], u, day)
          ensures ss[1..][i].duration.Some?
        {
          assert ss[1..][i] == ss[i + 1];
        }
      }
      var rest := DayTotals(ss[1..], u, day);
      assert forall i :: 0 <= i < |ss[1..]| ==> ss[1..][i] == ss[i + 1];
      if Counted(ss[0], u, day)
      then DayTotal(ss[0].duration.value + rest.minutes, rest.count + 1)
      else rest
  }

  /** The fold over two session lists together adds up. */
  lemma {:induction false} DayTotalsConcat(a: seq<Session>, b: seq<Session>, u: UserId, day: Day)
    requires DurationsKnown(a + b, u, day)
    ensures DurationsKnown(a, u, day) && DurationsKnown(b, u, day)
    ensures var ta, tb, tab := DayTotals(a, u, day), DayTotals(b, u, day), DayTotals(a + b, u, day);
      tab.minutes == ta.minutes + tb.minutes && tab.count == ta.count + tb.count
    decreases |a|
  {
    assert forall i :: 0 <= i < |a| ==> (a + b)[i] == a[i];
    assert forall i :: 0 <= i < |b| ==> (a + b)[|a| + i] == b[i];
    if a == [] {
      assert a + b == b;
    } else {
      assert (a + b)[1..] == a[1..] + b;
      DayTotalsConcat(a[1..], b, u, day);
    }
  }

  /** An active session, or any session that is not the user's or did not
      start on that day, adds nothing. */
  lemma {:induction false} UncountedSessionIgnored(ss: seq<Session>, s: Session, u: UserId, day: Day)
    requires DurationsKnown(ss, u, day) && !Counted(s, u, day)
    ensures DurationsKnown(ss + [s], u, day)
    ensures DayTotals(ss + [s], u, day) == DayTotals(ss, u, day)
  {
    assert forall i :: 0 <= i < |ss| ==> (ss + [s])[i] == ss[i];
    DayTotalsConcat(ss, [s], u, day);
  }

  /** A session is counted whole on the day it started, even if it ended on
      the next day, and on no other day. */
  lemma SessionCountsOnClockInDay(s: Session, u: UserId)
    requires s.userId == u && Completed(s) && s.clockIn.Some? && s.duration.Some?
    ensures DayTotals([s], u, DayOf(s.clockIn.value)) == DayTotal(s.duration.value, 1)
    ensures forall day :: day != DayOf(s.clockIn.value) ==> DayTotals([s], u, day) == DayTotal(0, 0)
  {
  }

  /** `find_or_initialize_by(date:)` on the user's rows: the position of the
      row with that key, if one exists. */
  function FindKey(rows: seq<DailySummary>, u: UserId, day: Day): (k: Option<nat>)
    ensures k.Some? ==> k.value < |rows| && SameKey(rows[k.value], u, day)
    ensures k.None? ==> forall i :: 0 <= i < |rows| ==> !SameKey(rows[i], u, day)
  {
    if rows == [] then None
    else if SameKey(rows[0], u, day) then Some(0)
    else match FindKey(rows[1..], u, day)
      case None => None
      case Some(k) => Some(k + 1)
  }

  /** Under the unique index, a row with a key is the one FindKey found. */
  lemma {:induction false} KeyIsUnique(rows: seq<DailySummary>, i: nat, k: nat, u: UserId, day: Day)
    requires UniqueKeys(rows) && i < |rows| && k < |rows|
    requires SameKey(rows[k], u, day)
    ensures SameKey(rows[i], u, day) <==> i == k
  {
  }

  /** The table after saving `minutes` and `count` under (u, day): the row
      with that key rewritten in place, or a new row with id `freshId`. */
  function Upsert(rows: seq<DailySummary>, u: UserId, day: Day, minutes: int, count: int, freshId: nat): seq<DailySummary>
  {
    match FindKey(rows, u, day)
    case Some(i) => rows[i := rows[i].(minutes := minutes, sessions := count)]
    case None => rows + [DailySummary(freshId, u, day, minutes, count)]
  }

  /** After the upsert there is exactly one row with the key, holding the new
      totals, and the keys are still unique. */
  lemma {:induction false} UpsertStoresTotals(rows: seq<DailySummary>, u: UserId, day: Day, minutes: int, count: int, freshId: nat)
    requires UniqueKeys(rows)
    ensures var r := Upsert(rows, u, day, minutes, count, freshId);
      UniqueKeys(r) &&
      (exists i :: 0 <= i < |r| && SameKey(r[i], u, day)) &&
      forall i :: 0 <= i < |r| && SameKey(r[i], u, day) ==> r[i].minutes == minutes && r[i].sessions == count
  {
    var r := Upsert(rows, u, day, minutes, count, freshId);
    match FindKey(rows, u, day)
    case Some(k) =>
      assert SameKey(r[k], u, day);
      forall i, j | 0 <= i < j < |r| ensures !SameKey(r[j], r[i].userId, r[i].date) {
        assert SameKey(r[i], rows[i].userId, rows[i].date) && SameKey(r[j], rows[j].userId, rows[j].date);
      }
      forall i | 0 <= i < |r| && SameKey(r[i], u, day) ensures r[i].minutes == minutes && r[i].sessions == count {
        KeyIsUnique(rows, i, k, u, day);
      }
    case None =>
      assert SameKey(r[|rows|], u, day);
  }

  /** Saving non-negative totals keeps every row valid, and the ids distinct
      and below the next id to hand out. */
  lemma {:induction false} UpsertKeepsRowsValid(rows: seq<DailySummary>, u: UserId, day: Day, minutes: int, count: int, freshId: nat)
    requires NonNegative(rows) && minutes >= 0 && count >= 0
    requires forall i :: 0 <= i < |rows| ==> rows[i].id < freshId
    requires forall i, j :: 0 <= i < j < |rows| ==> rows[i].id != rows[j].id
    ensures var r := Upsert(rows, u, day, minutes, count, freshId);
      NonNegative(r) &&
      (forall i :: 0 <= i < |r| ==> r[i].id < freshId + 1) &&
      (forall i, j :: 0 <= i < j < |r| ==> r[i].id != r[j].id)
  {
    var r := Upsert(rows, u, day, minutes, count, freshId);
    match FindKey(rows, u, day)
    case Some(k) =>
      assert forall i :: 0 <= i < |r| ==> r[i].id == rows[i].id;
    case None =>
      assert forall i :: 0 <= i < |rows| ==> r[i] == rows[i];
  }

  /** Rows under any other key are neither lost, added nor changed. */
  lemma {:induction false} UpsertKeepsOtherRows(rows: seq<DailySummary>, u: UserId, day: Day, minutes: int, count: int, freshId: nat, x: DailySummary)
    requires !SameKey(x, u, day)
    ensures x in Upsert(rows, u, day, minutes, count, freshId) <==> x in rows
  {
    var r := Upsert(rows, u, day, minutes, count, freshId);
    match FindKey(rows, u, day)
    case Some(k) =>
      if x in rows {
        var i :| 0 <= i < |rows| && rows[i] == x;
        assert i != k && r[i] == x;
      }
      if x in r {
        var i :| 0 <= i < |r| && r[i] == x;
        assert i != k && rows[i] == x;
      }
    case None =>
  }

  /** An existing row keeps its id; otherwise the one new row gets `freshId`
      and the table grows by one. */
  lemma {:induction false} UpsertIdentity(rows: seq<DailySummary>, u: UserId, day: Day, minutes: int, count: int, freshId: nat)
    ensures var r := Upsert(rows, u, day, minutes, count, freshId);
      match FindKey(rows, u, day)
      case Some(k) => |r| == |rows| && r[k].id == rows[k].id
      case None => |r| == |rows| + 1 && r[|rows|].id == freshId
  {
  }

  /** Saving the same totals again changes nothing: the row found is the one
      the first save wrote. */
  lemma {:induction false} UpsertIdempotent(rows: seq<DailySummary>, u: UserId, day: Day, minutes: int, count: int, id1: nat, id2: nat)
    ensures var once := Upsert(rows, u, day, minutes, count, id1);
      Upsert(once, u, day, minutes, count, id2) == once
  {
    var once := Upsert(rows, u, day, minutes, count, id1);
    match FindKey(rows, u, day)
    case Some(k) =>
      FindKeyAfterRewrite(rows, u, day, k, once);
      assert once[k].(minutes := minutes, sessions := count) == once[k];
    case None =>
      FindKeyAfterAppend(rows, u, day, once);
      assert once[|rows|].(minutes := minutes, sessions := count) == once[|rows|];
  }

  lemma {:induction false} FindKeyAfterRewrite(rows: seq<DailySummary>, u: UserId, day: Day, k: nat, once: seq<DailySummary>)
    requires FindKey(rows, u, day) == Some(k) && |once| == |rows| && SameKey(once[k], u, day)
    requires forall i :: 0 <= i < |rows| && i != k ==> once[i] == rows[i]
    ensures FindKey(once, u, day) == Some(k)
    decreases |rows|
  {
    if k > 0 {
      FindKeyAfterRewrite(rows[1..], u, day, k - 1, once[1..]);
    }
  }

  lemma {:induction false} FindKeyAfterAppend(rows: seq<DailySummary>, u: UserId, day: Day, once: seq<DailySummary>)
    requires FindKey(rows, u, day).None? && |once| == |rows| + 1 && once[..|rows|] == rows
    requires SameKey(once[|rows|], u, day)
    ensures FindKey(once, u, day) == Some(|rows|)
    decreases |rows|
  {
    if rows != [] {
      assert once[1..][..|rows[1..]|] == rows[1..];
      FindKeyAfterAppend(rows[1..], u, day, once[1..]);
    }
  }

  /** The daily summaries table. */
  class SummaryTable {
    var rows: seq<DailySummary>
    var nextId: nat

    ghost predicate Valid()
      reads this
    {
      UniqueKeys(rows) && NonNegative(rows) &&
      (forall i :: 0 <= i < |rows| ==> rows[i].id < nextId) &&
      (forall i, j :: 0 <= i < j < |rows| ==> rows[i].id != rows[j].id)
    }

    constructor ()
      ensures Valid() && rows == []
    {
      rows := [];
      nextId := 0;
    }

    /** SleepSummaryPopulatorService#call!: the target day is `date`, or
        today when none is given. The save fails only on a negative minute
        total, with the messages joined by ", ". */
    method Populate(u: UserId, date: Option<Day>, today: Day, ss: seq<Session>) returns (r: Result<DailySummary>)
      requires Valid()
      requires DurationsKnown(ss, u, date.GetOr(today))
      modifies this
      ensures Valid()
      ensures var day := date.GetOr(today);
        var t := DayTotals(ss, u, day);
        if t.minutes >= 0 then
          r.IsSuccess() && r.data.Some? &&
          r.data.value.userId == u && r.data.value.date == day &&
          r.data.value.minutes == t.minutes && r.data.value.sessions == t.count &&
          r.data.value in rows &&
          (match FindKey(old(rows), u, day)
           case Some(k) => r.data.value.id == old(rows)[k].id
           case None => r.data.value.id == old(nextId)) &&
          rows == Upsert(old(rows), u, day, t.minutes, t.count, old(nextId)) &&
          nextId >= old(nextId)
        else
          r == Failure(Message(MinutesNegative)) &&
          rows == old(rows) && nextId == old(nextId)
    {
      var day := date.GetOr(today);
      var t := DayTotals(ss, u, day);
      var k := FindKey(rows, u, day);
      var draft := SummaryDraft(if k.Some? then Some(rows[k.value].id) else None,
                                u, Some(day), Some(t.minutes), Some(t.count));
      assert !ClashesWith(draft, rows) by {
        if k.Some? {
          forall x | x in rows && x.userId == u && x.date == day ensures x.id == rows[k.value].id {
            var i :| 0 <= i < |rows| && rows[i] == x;
            KeyIsUnique(rows, i, k.value, u, day);
          }
        }
      }
      var errs := SummaryErrors(draft, rows);
      assert errs == if t.minutes < 0 then [MinutesNegative] else [];
      if errs != [] {
        r := Failure(Message(Join(errs, ", ")));
        return;
      }
      var saved;
      if k.Some? {
        saved := rows[k.value].(minutes := t.minutes, sessions := t.count);
        rows := rows[k.value := saved];
      } else {
        saved := DailySummary(nextId, u, day, t.minutes, t.count);
        rows := rows + [saved];
        nextId := nextId + 1;
      }
      UpsertStoresTotals(old(rows), u, day, t.minutes, t.count, old(nextId));
      UpsertKeepsRowsValid(old(rows), u, day, t.minutes, t.count, old(nextId));
      r := Success(Some(saved));
    }
  }

  /** Sessions from a valid sessions table always sum to a non-negative
      total, so the materializer's save succeeds on them. */
  lemma {:induction false} StoredSessionsNeverFailTheSave(ss: seq<Session>, u: UserId, day: Day)
    requires forall i :: 0 <= i < |ss| && Completed(ss[i]) ==>
      ss[i].duration.Some? && ss[i].duration.value >= MinimumSleepDuration
    ensures DurationsKnown(ss, u, day)
    ensures DayTotals(ss, u, day).minutes >= 0
  {
  }
}
