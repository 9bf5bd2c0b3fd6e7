/**
 * Teaching assignments (`edu_assignment`): recurring session generation and the
 * creation of an assignment with its constraints.
 */
module Assignments {
  import opened Common
  import opened Records
  import opened ClassGroups
  import opened Calendar
  import opened AssignmentRules
  import Employees
  import opened Sessions
  import RecordStore

  /** The session `_create_sessions_for_weekday` creates on `date`. */
  function SessionFor(groups: seq<ClassGroup>, a: Assignment, aid: nat, date: int, start: int, end: int): (s: Session)
    ensures s.assignmentId == Some(aid) && s.date == date
    ensures s.groupId == a.groupId && s.studentId == a.studentId && s.teacherId == Some(a.teacherId)
    ensures s.startTime == start && s.endTime == end
  {
    var g := GroupOf(groups, a.groupId);
    Session(Some(aid), a.groupId, a.studentId, Some(a.teacherId), date, start, end, if g.Some? then g.value.location else "")
  }

  /** One session per date, in date order. */
  function Templates(groups: seq<ClassGroup>, a: Assignment, aid: nat, dates: seq<int>, start: int, end: int): (ss: seq<Session>)
    ensures |ss| == |dates|
    decreases |dates|
  {
    if dates == [] then []
    else
      var n := |dates| - 1;
      Templates(groups, a, aid, dates[..n], start, end) + [SessionFor(groups, a, aid, dates[n], start, end)]
  }

  /** The `i`-th session is the one for the `i`-th date. */
  lemma {:induction false} TemplatesAt(groups: seq<ClassGroup>, a: Assignment, aid: nat, dates: seq<int>, start: int, end: int)
    ensures forall i :: 0 <= i < |dates| ==> Templates(groups, a, aid, dates, start, end)[i] == SessionFor(groups, a, aid, dates[i], start, end)
    decreases |dates|
  {
    if dates != [] {
      var n := |dates| - 1;
      TemplatesAt(groups, a, aid, dates[..n], start, end);
    }
  }

  /** One more date adds its session at the end. */
  lemma TemplatesAppend(groups: seq<ClassGroup>, a: Assignment, aid: nat, dates: seq<int>, d: int, start: int, end: int)
    ensures Templates(groups, a, aid, dates + [d], start, end) ==
            Templates(groups, a, aid, dates, start, end) + [SessionFor(groups, a, aid, d, start, end)]
  {
    assert (dates + [d])[..|dates|] == dates;
  }

  /** The dates held by sessions of assignment `aid` on or after `first` (the `existing` set). */
  function ExistingDates(sessions: seq<Session>, aid: nat, first: int): set<int> {
    set s | s in sessions && s.assignmentId == Some(aid) && s.date >= first :: s.date
  }

  /** Sessions created one after the other; the first failing creation stops the run. */
  function AddAll(enrollments: seq<Enrollment>, st: Schedule, ss: seq<Session>): (r: Result<Schedule>)
    ensures r.Err? ==> r.error == TimeRangeInvalid
    ensures r.Ok? ==> r.value.sessions == st.sessions + ss
    decreases |ss|
  {
    if ss == [] then Ok(st)
    else
      var n := |ss| - 1;
      assert ss == ss[..n] + [ss[n]];
      var r := AddAll(enrollments, st, ss[..n]);
      if r.Err? then r else AddSession(enrollments, r.value, ss[n])
  }

  /** Every session of `ss` passes the session `_check_time_range`. */
  predicate TimesOk(ss: seq<Session>) {
    forall i :: 0 <= i < |ss| ==> TimeRangeOk(ss[i].startTime, ss[i].endTime)
  }

  lemma TimesOkStep(ss: seq<Session>)
    requires ss != []
    ensures TimesOk(ss) <==> TimesOk(ss[..|ss| - 1]) && TimeRangeOk(ss[|ss| - 1].startTime, ss[|ss| - 1].endTime)
  {
    var init := ss[..|ss| - 1];
    assert forall i :: 0 <= i < |init| ==> init[i] == ss[i];
  }

  /** A chain of creations succeeds exactly when every session has a valid time range. */
  lemma {:induction false} AddAllOkIff(enrollments: seq<Enrollment>, st: Schedule, ss: seq<Session>)
    ensures AddAll(enrollments, st, ss).Ok? <==> TimesOk(ss)
    decreases |ss|
  {
    if ss != [] {
      AddAllOkIff(enrollments, st, ss[..|ss| - 1]);
      TimesOkStep(ss);
    }
  }

  /** Creating sessions one after the other keeps the attendance invariant. */
  lemma {:induction false} AddAllKeepsWellFormed(enrollments: seq<Enrollment>, st: Schedule, ss: seq<Session>)
    requires WellFormed(st) && AddAll(enrollments, st, ss).Ok?
    ensures WellFormed(AddAll(enrollments, st, ss).value)
    decreases |ss|
  {
    if ss != [] {
      var n := |ss| - 1;
      AddAllKeepsWellFormed(enrollments, st, ss[..n]);
      AddSessionKeepsWellFormed(enrollments, AddAll(enrollments, st, ss[..n]).value, ss[n]);
    }
  }


  /** One more creation at the end of a chain. */
  lemma AddAllAppend(enrollments: seq<Enrollment>, st: Schedule, ss: seq<Session>, s: Session)
    ensures AddAll(enrollments, st, ss + [s]) ==
            if AddAll(enrollments, st, ss).Err? then AddAll(enrollments, st, ss)
            else AddSession(enrollments, AddAll(enrollments, st, ss).value, s)
  {
    assert (ss + [s])[..|ss|] == ss;
  }

  /** A chain of two runs is the second run started from where the first one ended. */
  lemma {:induction false} AddAllConcat(enrollments: seq<Enrollment>, st: Schedule, p: seq<Session>, q: seq<Session>)
    ensures AddAll(enrollments, st, p + q) ==
            if AddAll(enrollments, st, p).Err? then AddAll(enrollments, st, p)
            else AddAll(enrollments, AddAll(enrollments, st, p).value, q)
    decreases |q|
  {
    if q == [] {
      assert p + q == p;
    } else {
      var n := |q| - 1;
      AddAllConcat(enrollments, st, p, q[..n]);
      assert p + q == (p + q[..n]) + [q[n]];
      AddAllAppend(enrollments, st, p + q[..n], q[n]);
      if AddAll(enrollments, st, p).Ok? {
        AddAllAppend(enrollments, AddAll(enrollments, st, p).value, q[..n], q[n]);
        assert q[..n] + [q[n]] == q;
      }
    }
  }

  /**
   * The sessions `_create_sessions_for_weekday` creates, given the sessions already
   * stored: from the start date (today when unset) the first `weekday` on or after
   * it, then one session per week for `weeks` weeks, skipping the dates the
   * assignment already holds from that first date on.
   */
  function WeekdayPlan(groups: seq<ClassGroup>, a: Assignment, aid: nat, sessions: seq<Session>,
                       weekday: Weekday, weeks: int, start: int, end: int, today: int): seq<Session>
  {
    var from := a.startDate.GetOr(today);
    Templates(groups, a, aid, RunDates(from, weekday, weeks, ExistingDates(sessions, aid, FirstOnOrAfter(from, weekday))), start, end)
  }

  /**
   * A weekday plan holds at most `weeks` sessions of the assignment, in increasing
   * date order, each on the weekday, on or after the start date, on a date the
   * assignment does not hold yet, with the given times.
   */
  lemma WeekdayPlanSpec(groups: seq<ClassGroup>, a: Assignment, aid: nat, sessions: seq<Session>,
                        weekday: Weekday, weeks: int, start: int, end: int, today: int)
    ensures var ss := WeekdayPlan(groups, a, aid, sessions, weekday, weeks, start, end, today);
            var from := a.startDate.GetOr(today);
            && |ss| <= (if weeks <= 0 then 0 else weeks)
            && (forall i, j :: 0 <= i < j < |ss| ==> ss[i].date < ss[j].date)
            && (forall i :: 0 <= i < |ss| ==>
                  && ss[i].assignmentId == Some(aid) && ss[i].teacherId == Some(a.teacherId)
                  && ss[i].groupId == a.groupId && ss[i].studentId == a.studentId
                  && ss[i].startTime == start && ss[i].endTime == end
                  && from <= ss[i].date && WeekdayOf(ss[i].date) == weekday
                  && ss[i].date !in ExistingDates(sessions, aid, FirstOnOrAfter(from, weekday)))
  {
    var from := a.startDate.GetOr(today);
    var dates := RunDates(from, weekday, weeks, ExistingDates(sessions, aid, FirstOnOrAfter(from, weekday)));
    RunDatesSpec(from, weekday, weeks, ExistingDates(sessions, aid, FirstOnOrAfter(from, weekday)));
    TemplatesAt(groups, a, aid, dates, start, end);
  }

  /** Every candidate date of a run is held by a session of the assignment. */
  predicate Covered(sessions: seq<Session>, aid: nat, first: int, weeks: int) {
    forall k :: 0 <= k < weeks ==> first + 7 * k in ExistingDates(sessions, aid, first)
  }

  /** More sessions cover at least as much. */
  lemma CoveredGrows(sessions: seq<Session>, more: seq<Session>, aid: nat, first: int, weeks: int)
    requires Covered(sessions, aid, first, weeks)
    ensures Covered(sessions + more, aid, first, weeks)
  {
    forall k | 0 <= k < weeks ensures first + 7 * k in ExistingDates(sessions + more, aid, first) {
      assert first + 7 * k in ExistingDates(sessions, aid, first);
      var s :| s in sessions && s.assignmentId == Some(aid) && s.date >= first && s.date == first + 7 * k;
      assert s in sessions + more;
    }
  }

  /** A date of a run is held once the run's sessions are added. */
  lemma RunDateHeld(groups: seq<ClassGroup>, a: Assignment, aid: nat, sessions: seq<Session>,
                    dates: seq<int>, start: int, end: int, first: int, i: nat)
    requires i < |dates| && dates[i] >= first
    ensures dates[i] in ExistingDates(sessions + Templates(groups, a, aid, dates, start, end), aid, first)
  {
    var ss := Templates(groups, a, aid, dates, start, end);
    TemplatesAt(groups, a, aid, dates, start, end);
    assert ss[i] == (sessions + ss)[|sessions| + i];
    assert ss[i] in sessions + ss;
  }

  /** A date held before is still held after sessions are added. */
  lemma HeldStaysHeld(sessions: seq<Session>, more: seq<Session>, aid: nat, first: int, d: int)
    requires d in ExistingDates(sessions, aid, first)
    ensures d in ExistingDates(sessions + more, aid, first)
  {
    var s :| s in sessions && s.assignmentId == Some(aid) && s.date >= first && s.date == d;
    assert s in sessions + more;
  }

  /** Week `k`'s candidate is held once the run's sessions are added to the sessions it started from. */
  lemma CandidateHeld(groups: seq<ClassGroup>, a: Assignment, aid: nat, sessions: seq<Session>,
                      from: int, weekday: Weekday, weeks: int, start: int, end: int, k: int)
    requires 0 <= k < weeks
    ensures var first := FirstOnOrAfter(from, weekday);
            var dates := RunDates(from, weekday, weeks, ExistingDates(sessions, aid, first));
            first + 7 * k in ExistingDates(sessions + Templates(groups, a, aid, dates, start, end), aid, first)
  {
    var first := FirstOnOrAfter(from, weekday);
    var existing := ExistingDates(sessions, aid, first);
    var dates := RunDates(from, weekday, weeks, existing);
    var ss := Templates(groups, a, aid, dates, start, end);
    var d := first + 7 * k;
    if d in existing {
      HeldStaysHeld(sessions, ss, aid, first, d);
    } else {
      RunDatesSpec(from, weekday, weeks, existing);
      assert d in dates;
      var i :| 0 <= i < |dates| && dates[i] == d;
      RunDateHeld(groups, a, aid, sessions, dates, start, end, first, i);
    }
  }

  /** Adding the sessions of a run's dates to the sessions it started from covers every candidate. */
  lemma RunCovers(groups: seq<ClassGroup>, a: Assignment, aid: nat, sessions: seq<Session>,
                  from: int, weekday: Weekday, weeks: int, start: int, end: int)
    ensures var first := FirstOnOrAfter(from, weekday);
            var dates := RunDates(from, weekday, weeks, ExistingDates(sessions, aid, first));
            Covered(sessions + Templates(groups, a, aid, dates, start, end), aid, first, weeks)
  {
    forall k | 0 <= k < weeks
      ensures var first := FirstOnOrAfter(from, weekday);
              var dates := RunDates(from, weekday, weeks, ExistingDates(sessions, aid, first));
              first + 7 * k in ExistingDates(sessions + Templates(groups, a, aid, dates, start, end), aid, first)
    {
      CandidateHeld(groups, a, aid, sessions, from, weekday, weeks, start, end, k);
    }
  }

  /** Once a weekday's candidates are all held, its plan is empty. */
  lemma WeekdayPlanCoveredEmpty(groups: seq<ClassGroup>, a: Assignment, aid: nat, sessions: seq<Session>,
                                weekday: Weekday, weeks: int, start: int, end: int, today: int)
    requires Covered(sessions, aid, FirstOnOrAfter(a.startDate.GetOr(today), weekday), weeks)
    ensures WeekdayPlan(groups, a, aid, sessions, weekday, weeks, start, end, today) == []
  {
    var from := a.startDate.GetOr(today);
    var first := FirstOnOrAfter(from, weekday);
    FreshOfCovered(Candidates(first, weeks), ExistingDates(sessions, aid, first));
  }

  /** Planning a weekday again after its plan is stored finds nothing to create. */
  lemma WeekdayPlanIdempotent(groups: seq<ClassGroup>, a: Assignment, aid: nat, sessions: seq<Session>,
                              weekday: Weekday, weeks: int, start: int, end: int, today: int)
    ensures var ss := WeekdayPlan(groups, a, aid, sessions, weekday, weeks, start, end, today);
            WeekdayPlan(groups, a, aid, sessions + ss, weekday, weeks, start, end, today) == []
  {
    var ss := WeekdayPlan(groups, a, aid, sessions, weekday, weeks, start, end, today);
    RunCovers(groups, a, aid, sessions, a.startDate.GetOr(today), weekday, weeks, start, end);
    WeekdayPlanCoveredEmpty(groups, a, aid, sessions + ss, weekday, weeks, start, end, today);
  }

  /** `_create_sessions_for_weekday` on a schedule: its plan, created session by session. */
  function WeekdayRun(enrollments: seq<Enrollment>, groups: seq<ClassGroup>, a: Assignment, aid: nat, st: Schedule,
                      weekday: Weekday, weeks: int, start: int, end: int, today: int): Result<Schedule>
  {
    AddAll(enrollments, st, WeekdayPlan(groups, a, aid, st.sessions, weekday, weeks, start, end, today))
  }

  /**
   * A weekday run stores exactly its plan and fails, leaving nothing, only when it
   * has a session to create and the time range is invalid.
   */
  lemma WeekdayRunSpec(enrollments: seq<Enrollment>, groups: seq<ClassGroup>, a: Assignment, aid: nat, st: Schedule,
                       weekday: Weekday, weeks: int, start: int, end: int, today: int)
    ensures var ss := WeekdayPlan(groups, a, aid, st.sessions, weekday, weeks, start, end, today);
            var r := WeekdayRun(enrollments, groups, a, aid, st, weekday, weeks, start, end, today);
            && (r.Err? <==> ss != [] && !TimeRangeOk(start, end))
            && (r.Err? ==> r.error == TimeRangeInvalid)
            && (r.Ok? ==> r.value.sessions == st.sessions + ss)
  {
    var ss := WeekdayPlan(groups, a, aid, st.sessions, weekday, weeks, start, end, today);
    AddAllOkIff(enrollments, st, ss);
    WeekdayPlanSpec(groups, a, aid, st.sessions, weekday, weeks, start, end, today);
  }

  /** Running a weekday twice: the second run creates nothing. */
  lemma WeekdayRunIdempotent(enrollments: seq<Enrollment>, groups: seq<ClassGroup>, a: Assignment, aid: nat, st: Schedule,
                             weekday: Weekday, weeks: int, start: int, end: int, today: int)
    requires WeekdayRun(enrollments, groups, a, aid, st, weekday, weeks, start, end, today).Ok?
    ensures var r := WeekdayRun(enrollments, groups, a, aid, st, weekday, weeks, start, end, today).value;
            WeekdayRun(enrollments, groups, a, aid, r, weekday, weeks, start, end, today) == Ok(r)
  {
    var r := WeekdayRun(enrollments, groups, a, aid, st, weekday, weeks, start, end, today).value;
    WeekdayRunSpec(enrollments, groups, a, aid, st, weekday, weeks, start, end, today);
    WeekdayPlanIdempotent(groups, a, aid, st.sessions, weekday, weeks, start, end, today);
  }

  /** The sessions the first `week` iterations of the `for week in range(weeks)` loop create. */
  function WeekSessions(groups: seq<ClassGroup>, a: Assignment, aid: nat, first: int, existing: set<int>,
                        week: nat, start: int, end: int): seq<Session>
  {
    if week == 0 then []
    else
      var d := first + 7 * (week - 1);
      WeekSessions(groups, a, aid, first, existing, week - 1, start, end) +
      (if d in existing then [] else [SessionFor(groups, a, aid, d, start, end)])
  }

  /** Walking the weeks one by one creates the sessions of the dates kept week by week. */
  lemma {:induction false} WeekSessionsAreTemplates(groups: seq<ClassGroup>, a: Assignment, aid: nat, first: int, existing: set<int>,
                                                   week: nat, start: int, end: int)
    ensures WeekSessions(groups, a, aid, first, existing, week, start, end) ==
            Templates(groups, a, aid, WeekDates(first, existing, week), start, end)
  {
    if week > 0 {
      var d := first + 7 * (week - 1);
      WeekSessionsAreTemplates(groups, a, aid, first, existing, week - 1, start, end);
      var prev := WeekDates(first, existing, week - 1);
      if d in existing {
        assert WeekDates(first, existing, week) == prev + [] == prev;
      } else {
        TemplatesAppend(groups, a, aid, prev, d, start, end);
      }
    }
  }

  /** Walking all the weeks gives the weekday plan. */
  lemma PlanComplete(groups: seq<ClassGroup>, a: Assignment, aid: nat, sessions: seq<Session>,
                     weekday: Weekday, weeks: int, start: int, end: int, today: int)
    ensures var first := FirstOnOrAfter(a.startDate.GetOr(today), weekday);
            WeekSessions(groups, a, aid, first, ExistingDates(sessions, aid, first), if weeks > 0 then weeks else 0, start, end)
            == WeekdayPlan(groups, a, aid, sessions, weekday, weeks, start, end, today)
  {
    var first := FirstOnOrAfter(a.startDate.GetOr(today), weekday);
    var count := if weeks > 0 then weeks else 0;
    WeekSessionsAreTemplates(groups, a, aid, first, ExistingDates(sessions, aid, first), count, start, end);
    WeekDatesAreFresh(first, ExistingDates(sessions, aid, first), count);
    assert Candidates(first, count) == Candidates(first, weeks);
  }

  /** The first weeks of a run are a prefix of the whole run. */
  lemma {:induction false} WeekSessionsGrow(groups: seq<ClassGroup>, a: Assignment, aid: nat, first: int, existing: set<int>,
                                           week: nat, more: nat, start: int, end: int)
    requires week <= more
    ensures var p := WeekSessions(groups, a, aid, first, existing, week, start, end);
            var q := WeekSessions(groups, a, aid, first, existing, more, start, end);
            |p| <= |q| && q == p + q[|p|..]
    decreases more
  {
    if week < more {
      WeekSessionsGrow(groups, a, aid, first, existing, week, more - 1, start, end);
    }
  }

  /** Once a chain fails, creating more sessions after it changes nothing. */
  lemma AddAllErrStays(enrollments: seq<Enrollment>, st: Schedule, p: seq<Session>, q: seq<Session>)
    requires AddAll(enrollments, st, p).Err?
    ensures AddAll(enrollments, st, p + q) == AddAll(enrollments, st, p)
  {
    AddAllConcat(enrollments, st, p, q);
  }

  /** One `create` of a session, continuing a chain of creations that has succeeded so far. */
  method CreateNext(db: RecordStore.Store, ghost st0: Schedule, ghost done: seq<Session>, s: Session) returns (r: Result<nat>)
    requires AddAll(db.enrollments, st0, done) == Ok(Schedule(db.sessions, db.lines))
    requires db.Valid()
    modifies db`sessions, db`lines
    ensures db.Valid()
    ensures r.Ok? ==> AddAll(db.enrollments, st0, done + [s]) == Ok(Schedule(db.sessions, db.lines))
    ensures r.Err? ==> AddAll(db.enrollments, st0, done + [s]) == Err(r.error)
    ensures r.Err? ==> db.sessions == old(db.sessions) && db.lines == old(db.lines)
  {
    AddAllAppend(db.enrollments, st0, done, s);
    r := CreateSession(db, s);
  }

  /** One iteration of the `for week in range(weeks)` loop: skip a taken date, else create the week's session. */
  method CreateWeek(db: RecordStore.Store, ghost st0: Schedule, a: Assignment, aid: nat, first: int, existing: set<int>,
                    week: nat, start: int, end: int) returns (r: Result<nat>)
    requires AddAll(db.enrollments, st0, WeekSessions(db.groups, a, aid, first, existing, week, start, end))
             == Ok(Schedule(db.sessions, db.lines))
    requires db.Valid()
    modifies db`sessions, db`lines
    ensures db.Valid()
    ensures r.Ok? ==> AddAll(db.enrollments, st0, WeekSessions(db.groups, a, aid, first, existing, week + 1, start, end))
                      == Ok(Schedule(db.sessions, db.lines))
    ensures r.Err? ==> AddAll(db.enrollments, st0, WeekSessions(db.groups, a, aid, first, existing, week + 1, start, end))
                       == Err(r.error)
    ensures r.Err? ==> db.sessions == old(db.sessions) && db.lines == old(db.lines)
  {
    var date := first + 7 * week;
    ghost var done := WeekSessions(db.groups, a, aid, first, existing, week, start, end);
    if date in existing {
      assert done + [] == done;
      return Ok(0);
    }
    r := CreateNext(db, st0, done, SessionFor(db.groups, a, aid, date, start, end));
  }

  /** A failure in week `week` is the failure of the whole run of `count` weeks. */
  lemma WeekFailureStays(enrollments: seq<Enrollment>, st0: Schedule, groups: seq<ClassGroup>, a: Assignment, aid: nat,
                         first: int, existing: set<int>, week: nat, count: nat, start: int, end: int)
    requires week <= count
    requires AddAll(enrollments, st0, WeekSessions(groups, a, aid, first, existing, week, start, end)).Err?
    ensures AddAll(enrollments, st0, WeekSessions(groups, a, aid, first, existing, count, start, end)) ==
            AddAll(enrollments, st0, WeekSessions(groups, a, aid, first, existing, week, start, end))
  {
    var failed := WeekSessions(groups, a, aid, first, existing, week, start, end);
    var all := WeekSessions(groups, a, aid, first, existing, count, start, end);
    WeekSessionsGrow(groups, a, aid, first, existing, week, count, start, end);
    AddAllErrStays(enrollments, st0, failed, all[|failed|..]);
  }

  /**
   * The `for week in range(weeks)` loop: the first `count` weeks of a run, created on
   * the store. A failure leaves the store to the enclosing transaction, which rolls back.
   */
  method CreateWeeks(db: RecordStore.Store, a: Assignment, aid: nat, first: int, existing: set<int>,
                     count: nat, start: int, end: int) returns (r: Result<nat>)
    requires db.Valid()
    modifies db`sessions, db`lines
    ensures db.Valid()
    ensures var next := AddAll(db.enrollments, Schedule(old(db.sessions), old(db.lines)),
                               WeekSessions(db.groups, a, aid, first, existing, count, start, end));
            && (r.Ok? <==> next.Ok?)
            && (r.Ok? ==> Schedule(db.sessions, db.lines) == next.value && r.value == |db.sessions| - |old(db.sessions)|)
            && (r.Err? ==> r.error == next.error)
  {
    var sessions0, lines0 := db.sessions, db.lines;
    ghost var st0 := Schedule(sessions0, lines0);
    for week := 0 to count
      invariant db.Valid()
      invariant AddAll(db.enrollments, st0, WeekSessions(db.groups, a, aid, first, existing, week, start, end))
                == Ok(Schedule(db.sessions, db.lines))
    {
      var res := CreateWeek(db, st0, a, aid, first, existing, week, start, end);
      if res.Err? {
        WeekFailureStays(db.enrollments, st0, db.groups, a, aid, first, existing, week + 1, count, start, end);
        return Err(res.error);
      }
    }
    r := Ok(|db.sessions| - |sessions0|);
  }

  /** `_create_sessions_for_weekday` on the store; the count of created sessions is returned. */
  method CreateSessionsForWeekday(db: RecordStore.Store, aid: nat, weekday: Weekday, weeks: int,
                                  start: int, end: int, today: int) returns (r: Result<nat>)
    requires aid < |db.assignments|
    requires db.Valid()
    modifies db`sessions, db`lines
    ensures db.Valid()
    ensures var next := WeekdayRun(db.enrollments, db.groups, db.assignments[aid], aid,
                                   Schedule(old(db.sessions), old(db.lines)), weekday, weeks, start, end, today);
            && (r.Ok? <==> next.Ok?)
            && (r.Ok? ==> Schedule(db.sessions, db.lines) == next.value && r.value == |db.sessions| - |old(db.sessions)|)
            && (r.Err? ==> r.error == next.error)
  {
    var a := db.assignments[aid];
    var from := a.startDate.GetOr(today);
    var first := from + DaysAhead(from, weekday);
    assert first == FirstOnOrAfter(from, weekday);
    var existing := ExistingDates(db.sessions, aid, first);
    PlanComplete(db.groups, a, aid, db.sessions, weekday, weeks, start, end, today);
    r := CreateWeeks(db, a, aid, first, existing, if weeks > 0 then weeks else 0, start, end);
  }

  /**
   * The sessions `_generate_group_sessions` creates through weekday `days - 1`: for
   * each weekday the group meets, Monday first, the weekday plan given the sessions
   * stored by then.
   */
  function GroupPlan(groups: seq<ClassGroup>, a: Assignment, aid: nat, sessions: seq<Session>, flags: DayFlags,
                     days: nat, weeks: int, start: int, end: int, today: int): seq<Session>
    requires days <= 7
  {
    if days == 0 then []
    else
      var prev := GroupPlan(groups, a, aid, sessions, flags, days - 1, weeks, start, end, today);
      if Flag(flags, days - 1) then prev + WeekdayPlan(groups, a, aid, sessions + prev, days - 1, weeks, start, end, today)
      else prev
  }

  /** The plan through an earlier weekday is a prefix of the plan through a later one. */
  lemma {:induction false} GroupPlanGrows(groups: seq<ClassGroup>, a: Assignment, aid: nat, sessions: seq<Session>, flags: DayFlags,
                                         days: nat, more: nat, weeks: int, start: int, end: int, today: int)
    requires days <= more <= 7
    ensures var p := GroupPlan(groups, a, aid, sessions, flags, days, weeks, start, end, today);
            var q := GroupPlan(groups, a, aid, sessions, flags, more, weeks, start, end, today);
            |p| <= |q| && q == p + q[|p|..]
    decreases more
  {
    if days < more {
      GroupPlanGrows(groups, a, aid, sessions, flags, days, more - 1, weeks, start, end, today);
      var p := GroupPlan(groups, a, aid, sessions, flags, days, weeks, start, end, today);
      var m := GroupPlan(groups, a, aid, sessions, flags, more - 1, weeks, start, end, today);
      var tail := if Flag(flags, more - 1) then WeekdayPlan(groups, a, aid, sessions + m, more - 1, weeks, start, end, today) else [];
      assert GroupPlan(groups, a, aid, sessions, flags, more, weeks, start, end, today) == m + tail;
      assert m + tail == p + (m[|p|..] + tail);
    }
  }

  /**
   * A session the group generation may create for assignment `aid`: it belongs to the
   * assignment, has its teacher, target and the given times, and falls on or after
   * `from` on a weekday before `days` that the group meets.
   */
  predicate GroupSession(s: Session, a: Assignment, aid: nat, flags: DayFlags, days: nat, from: int, start: int, end: int) {
    && s.assignmentId == Some(aid) && s.teacherId == Some(a.teacherId)
    && s.groupId == a.groupId && s.studentId == a.studentId
    && s.startTime == start && s.endTime == end
    && from <= s.date && WeekdayOf(s.date) < days && Flag(flags, WeekdayOf(s.date))
  }

  /** The group plan holds at most `weeks` sessions per weekday. */
  lemma {:induction false} GroupPlanLength(groups: seq<ClassGroup>, a: Assignment, aid: nat, sessions: seq<Session>, flags: DayFlags,
                                          days: nat, weeks: int, start: int, end: int, today: int)
    requires days <= 7
    ensures |GroupPlan(groups, a, aid, sessions, flags, days, weeks, start, end, today)| <= days * (if weeks <= 0 then 0 else weeks)
  {
    if days > 0 {
      var w := if weeks <= 0 then 0 else weeks;
      GroupPlanLength(groups, a, aid, sessions, flags, days - 1, weeks, start, end, today);
      var prev := GroupPlan(groups, a, aid, sessions, flags, days - 1, weeks, start, end, today);
      assert days * w == (days - 1) * w + w;
      if Flag(flags, days - 1) {
        WeekdayPlanSpec(groups, a, aid, sessions + prev, days - 1, weeks, start, end, today);
      }
    }
  }

  /** Every session of the group plan is a group session of the assignment. */
  lemma {:induction false} GroupPlanSpec(groups: seq<ClassGroup>, a: Assignment, aid: nat, sessions: seq<Session>, flags: DayFlags,
                                        days: nat, weeks: int, start: int, end: int, today: int)
    requires days <= 7
    ensures var ss := GroupPlan(groups, a, aid, sessions, flags, days, weeks, start, end, today);
            forall i :: 0 <= i < |ss| ==> GroupSession(ss[i], a, aid, flags, days, a.startDate.GetOr(today), start, end)
  {
    if days > 0 {
      var from := a.startDate.GetOr(today);
      var prev := GroupPlan(groups, a, aid, sessions, flags, days - 1, weeks, start, end, today);
      GroupPlanSpec(groups, a, aid, sessions, flags, days - 1, weeks, start, end, today);
      assert var ss := GroupPlan(groups, a, aid, sessions, flags, days - 1, weeks, start, end, today);
            forall i :: 0 <= i < |ss| ==> GroupSession(ss[i], a, aid, flags, days - 1, a.startDate.GetOr(today), start, end);
      forall i | 0 <= i < |prev|
        ensures GroupSession(prev[i], a, aid, flags, days, from, start, end)
      {
        assert GroupSession(prev[i], a, aid, flags, days - 1, from, start, end);
      }
      if Flag(flags, days - 1) {
        var more := WeekdayPlan(groups, a, aid, sessions + prev, days - 1, weeks, start, end, today);
        WeekdayPlanSpec(groups, a, aid, sessions + prev, days - 1, weeks, start, end, today);
        var ss := prev + more;
        forall i | 0 <= i < |ss|
          ensures GroupSession(ss[i], a, aid, flags, days, from, start, end)
        {
          if i >= |prev| {
            assert ss[i] == more[i - |prev|];
          }
        }
      }
    }
  }

  /** After a group plan is stored, every flagged weekday's candidates are held. */
  lemma {:induction false} GroupPlanCovers(groups: seq<ClassGroup>, a: Assignment, aid: nat, sessions: seq<Session>, flags: DayFlags,
                                          days: nat, weeks: int, start: int, end: int, today: int)
    requires days <= 7
    ensures var after := sessions + GroupPlan(groups, a, aid, sessions, flags, days, weeks, start, end, today);
            forall k :: 0 <= k < days && Flag(flags, k) ==> Covered(after, aid, FirstOnOrAfter(a.startDate.GetOr(today), k), weeks)
  {
    if days > 0 {
      GroupPlanCovers(groups, a, aid, sessions, flags, days - 1, weeks, start, end, today);
      var prev := GroupPlan(groups, a, aid, sessions, flags, days - 1, weeks, start, end, today);
      if Flag(flags, days - 1) {
        var more := WeekdayPlan(groups, a, aid, sessions + prev, days - 1, weeks, start, end, today);
        assert sessions + (prev + more) == (sessions + prev) + more;
        RunCovers(groups, a, aid, sessions + prev, a.startDate.GetOr(today), days - 1, weeks, start, end);
        forall k | 0 <= k < days - 1 && Flag(flags, k)
          ensures Covered((sessions + prev) + more, aid, FirstOnOrAfter(a.startDate.GetOr(today), k), weeks)
        {
          CoveredGrows(sessions + prev, more, aid, FirstOnOrAfter(a.startDate.GetOr(today), k), weeks);
        }
      }
    }
  }

  /** When every flagged weekday's candidates are held, the group plan is empty. */
  lemma {:induction false} GroupPlanCoveredEmpty(groups: seq<ClassGroup>, a: Assignment, aid: nat, sessions: seq<Session>, flags: DayFlags,
                                                days: nat, weeks: int, start: int, end: int, today: int)
    requires days <= 7
    requires forall k :: 0 <= k < days && Flag(flags, k) ==> Covered(sessions, aid, FirstOnOrAfter(a.startDate.GetOr(today), k), weeks)
    ensures GroupPlan(groups, a, aid, sessions, flags, days, weeks, start, end, today) == []
  {
    if days > 0 {
      GroupPlanCoveredEmpty(groups, a, aid, sessions, flags, days - 1, weeks, start, end, today);
      if Flag(flags, days - 1) {
        assert sessions + [] == sessions;
        WeekdayPlanCoveredEmpty(groups, a, aid, sessions, days - 1, weeks, start, end, today);
      }
    }
  }

  /** Planning the group again after its plan is stored finds nothing to create. */
  lemma GroupPlanIdempotent(groups: seq<ClassGroup>, a: Assignment, aid: nat, sessions: seq<Session>, flags: DayFlags,
                            weeks: int, start: int, end: int, today: int)
    ensures var ss := GroupPlan(groups, a, aid, sessions, flags, 7, weeks, start, end, today);
            GroupPlan(groups, a, aid, sessions + ss, flags, 7, weeks, start, end, today) == []
  {
    var ss := GroupPlan(groups, a, aid, sessions, flags, 7, weeks, start, end, today);
    GroupPlanCovers(groups, a, aid, sessions, flags, 7, weeks, start, end, today);
    GroupPlanCoveredEmpty(groups, a, aid, sessions + ss, flags, 7, weeks, start, end, today);
  }

  /** `_generate_group_sessions` on a schedule: its plan, created session by session. */
  function GroupRun(enrollments: seq<Enrollment>, groups: seq<ClassGroup>, a: Assignment, aid: nat, st: Schedule,
                    flags: DayFlags, weeks: int, start: int, end: int, today: int): Result<Schedule>
  {
    AddAll(enrollments, st, GroupPlan(groups, a, aid, st.sessions, flags, 7, weeks, start, end, today))
  }

  /** One weekday of `_generate_group_sessions`: the weekday run, if the group meets that day. */
  method GroupDay(db: RecordStore.Store, ghost st0: Schedule, aid: nat, flags: DayFlags, day: nat,
                  weeks: int, start: int, end: int, today: int) returns (r: Result<nat>)
    requires aid < |db.assignments| && day < 7
    requires AddAll(db.enrollments, st0, GroupPlan(db.groups, db.assignments[aid], aid, st0.sessions, flags, day, weeks, start, end, today))
             == Ok(Schedule(db.sessions, db.lines))
    requires db.Valid()
    modifies db`sessions, db`lines
    ensures db.Valid()
    ensures r.Ok? ==>
              AddAll(db.enrollments, st0, GroupPlan(db.groups, db.assignments[aid], aid, st0.sessions, flags, day + 1, weeks, start, end, today))
              == Ok(Schedule(db.sessions, db.lines))
    ensures r.Err? ==>
              AddAll(db.enrollments, st0, GroupPlan(db.groups, db.assignments[aid], aid, st0.sessions, flags, day + 1, weeks, start, end, today))
              == Err(r.error)
  {
    ghost var a := db.assignments[aid];
    ghost var prev := GroupPlan(db.groups, a, aid, st0.sessions, flags, day, weeks, start, end, today);
    if !Flag(flags, day) {
      return Ok(0);
    }
    ghost var more := WeekdayPlan(db.groups, a, aid, Schedule(db.sessions, db.lines).sessions, day, weeks, start, end, today);
    assert db.sessions == st0.sessions + prev;
    AddAllConcat(db.enrollments, st0, prev, more);
    r := CreateSessionsForWeekday(db, aid, day, weeks, start, end, today);
  }

  /** A failure on weekday `day` is the failure of the whole group run. */
  lemma GroupFailureStays(enrollments: seq<Enrollment>, st0: Schedule, groups: seq<ClassGroup>, a: Assignment, aid: nat,
                          flags: DayFlags, day: nat, weeks: int, start: int, end: int, today: int)
    requires day <= 7
    requires AddAll(enrollments, st0, GroupPlan(groups, a, aid, st0.sessions, flags, day, weeks, start, end, today)).Err?
    ensures GroupRun(enrollments, groups, a, aid, st0, flags, weeks, start, end, today) ==
            AddAll(enrollments, st0, GroupPlan(groups, a, aid, st0.sessions, flags, day, weeks, start, end, today))
  {
    var failed := GroupPlan(groups, a, aid, st0.sessions, flags, day, weeks, start, end, today);
    var all := GroupPlan(groups, a, aid, st0.sessions, flags, 7, weeks, start, end, today);
    GroupPlanGrows(groups, a, aid, st0.sessions, flags, day, 7, weeks, start, end, today);
    AddAllErrStays(enrollments, st0, failed, all[|failed|..]);
  }

  /** The `for weekday in weekdays` loop of `_generate_group_sessions` on the store. */
  method GroupSessionsLoop(db: RecordStore.Store, aid: nat, flags: DayFlags, weeks: int, start: int, end: int, today: int)
    returns (r: Result<nat>)
    requires aid < |db.assignments|
    requires db.Valid()
    modifies db`sessions, db`lines
    ensures db.Valid()
    ensures var next := GroupRun(db.enrollments, db.groups, db.assignments[aid], aid,
                                 Schedule(old(db.sessions), old(db.lines)), flags, weeks, start, end, today);
            && (r.Ok? <==> next.Ok?)
            && (r.Ok? ==> Schedule(db.sessions, db.lines) == next.value && r.value == |db.sessions| - |old(db.sessions)|)
            && (r.Err? ==> r.error == next.error)
  {
    var sessions0, lines0 := db.sessions, db.lines;
    ghost var st0 := Schedule(sessions0, lines0);
    ghost var a := db.assignments[aid];
    var day := 0;
    r := Ok(0);
    while day < 7
      invariant day <= 7 && r.Ok? && db.Valid()
      invariant AddAll(db.enrollments, st0, GroupPlan(db.groups, a, aid, sessions0, flags, day, weeks, start, end, today))
                == Ok(Schedule(db.sessions, db.lines))
    {
      var res := GroupDay(db, st0, aid, flags, day, weeks, start, end, today);
      if res.Err? {
        GroupFailureStays(db.enrollments, st0, db.groups, a, aid, flags, day + 1, weeks, start, end, today);
        r := Err(res.error);
        break;
      }
      day := day + 1;
    }
    if r.Ok? {
      r := Ok(|db.sessions| - |sessions0|);
    }
  }

  /** Planning a group again after its run is stored finds nothing, so a second run changes nothing. */
  lemma GroupRunIdempotent(enrollments: seq<Enrollment>, groups: seq<ClassGroup>, a: Assignment, aid: nat, st: Schedule,
                           flags: DayFlags, weeks: int, start: int, end: int, today: int)
    requires GroupRun(enrollments, groups, a, aid, st, flags, weeks, start, end, today).Ok?
    ensures var r := GroupRun(enrollments, groups, a, aid, st, flags, weeks, start, end, today).value;
            GroupRun(enrollments, groups, a, aid, r, flags, weeks, start, end, today) == Ok(r)
  {
    GroupPlanIdempotent(groups, a, aid, st.sessions, flags, weeks, start, end, today);
  }

  /** `default_recurrence_weeks`, 4 when the parameter is unset. */
  function RecurrenceWeeks(cfg: Config): int {
    cfg.recurrenceWeeks.GetOr(4)
  }

  /** `default_session_duration` in minutes, one hour when the parameter is unset. */
  function SessionDuration(cfg: Config): int {
    cfg.sessionDuration.GetOr(60)
  }

  /**
   * `_generate_student_sessions` on a schedule: nothing without a meeting day, the
   * overdue refusal before any session is created, otherwise the run for the meeting
   * day with the assignment's times.
   */
  function StudentRun(cfg: Config, enrollments: seq<Enrollment>, links: seq<InvoiceLink>, groups: seq<ClassGroup>,
                      a: Assignment, aid: nat, st: Schedule, today: int): Result<Schedule>
  {
    if a.meetingDay.None? then Ok(st)
    else if OverdueBlocks(cfg, enrollments, links, a.studentId) then Err(OverdueBlocked)
    else WeekdayRun(enrollments, groups, a, aid, st, a.meetingDay.value, RecurrenceWeeks(cfg),
                    a.timeStart, DefaultEndTime(a.timeStart, a.timeEnd, SessionDuration(cfg)), today)
  }

  /** The meeting flags of the assignment's group; a missing group meets on no day. */
  function GroupFlags(groups: seq<ClassGroup>, a: Assignment): DayFlags {
    var g := GroupOf(groups, a.groupId);
    if g.Some? then g.value.meets else []
  }

  /** The group's start time, unset (0) for a missing group. */
  function GroupStart(groups: seq<ClassGroup>, a: Assignment): int {
    var g := GroupOf(groups, a.groupId);
    if g.Some? then g.value.timeStart else 0
  }

  /** The group's end time, completed with the configured duration when unset. */
  function GroupEnd(cfg: Config, groups: seq<ClassGroup>, a: Assignment): int {
    var g := GroupOf(groups, a.groupId);
    DefaultEndTime(GroupStart(groups, a), if g.Some? then g.value.timeEnd else 0, SessionDuration(cfg))
  }

  /** `_generate_group_sessions` on a schedule: the group run with the group's days and times, and no overdue gate. */
  function GroupGeneration(cfg: Config, enrollments: seq<Enrollment>, groups: seq<ClassGroup>,
                           a: Assignment, aid: nat, st: Schedule, today: int): Result<Schedule>
  {
    GroupRun(enrollments, groups, a, aid, st, GroupFlags(groups, a), RecurrenceWeeks(cfg),
             GroupStart(groups, a), GroupEnd(cfg, groups, a), today)
  }

  /**
   * `_generate_sessions` for one assignment: nothing unless it is active; a group
   * assignment (one with a class group) generates per group, any other per student.
   */
  function Generate(cfg: Config, enrollments: seq<Enrollment>, links: seq<InvoiceLink>, groups: seq<ClassGroup>,
                    a: Assignment, aid: nat, st: Schedule, today: int): Result<Schedule>
  {
    if !a.status.Active? then Ok(st)
    else if a.groupId.None? then StudentRun(cfg, enrollments, links, groups, a, aid, st, today)
    else GroupGeneration(cfg, enrollments, groups, a, aid, st, today)
  }

  /**
   * Generation fails only in two ways: the overdue refusal, exactly for an active
   * student assignment with a meeting day whose student the gate blocks, and otherwise
   * a session whose times the session `_check_time_range` rejects.
   */
  lemma GenerateErrors(cfg: Config, enrollments: seq<Enrollment>, links: seq<InvoiceLink>, groups: seq<ClassGroup>,
                       a: Assignment, aid: nat, st: Schedule, today: int)
    ensures var r := Generate(cfg, enrollments, links, groups, a, aid, st, today);
            && (r == Err(OverdueBlocked) <==>
                  a.status.Active? && a.groupId.None? && a.meetingDay.Some? && OverdueBlocks(cfg, enrollments, links, a.studentId))
            && (r.Err? && r.error != OverdueBlocked ==> r.error == TimeRangeInvalid)
  {
  }

  /** Inactive assignments, and student assignments without a meeting day, generate nothing. */
  lemma GenerateNothing(cfg: Config, enrollments: seq<Enrollment>, links: seq<InvoiceLink>, groups: seq<ClassGroup>,
                        a: Assignment, aid: nat, st: Schedule, today: int)
    requires !a.status.Active? || (a.groupId.None? && a.meetingDay.None?)
    ensures Generate(cfg, enrollments, links, groups, a, aid, st, today) == Ok(st)
  {
  }

  /** Group generation does not consult the overdue parameters. */
  lemma GroupIgnoresOverdue(cfg: Config, cfg2: Config, enrollments: seq<Enrollment>, links: seq<InvoiceLink>, groups: seq<ClassGroup>,
                            a: Assignment, aid: nat, st: Schedule, today: int)
    requires a.groupId.Some?
    requires cfg2.recurrenceWeeks == cfg.recurrenceWeeks && cfg2.sessionDuration == cfg.sessionDuration
    ensures Generate(cfg2, enrollments, links, groups, a, aid, st, today) == Generate(cfg, enrollments, links, groups, a, aid, st, today)
  {
  }

  /** Generating again after a successful generation creates nothing. */
  lemma GenerateIdempotent(cfg: Config, enrollments: seq<Enrollment>, links: seq<InvoiceLink>, groups: seq<ClassGroup>,
                           a: Assignment, aid: nat, st: Schedule, today: int)
    requires Generate(cfg, enrollments, links, groups, a, aid, st, today).Ok?
    ensures var r := Generate(cfg, enrollments, links, groups, a, aid, st, today).value;
            Generate(cfg, enrollments, links, groups, a, aid, r, today) == Ok(r)
  {
    if a.status.Active? {
      if a.groupId.None? {
        if a.meetingDay.Some? && !OverdueBlocks(cfg, enrollments, links, a.studentId) {
          WeekdayRunIdempotent(enrollments, groups, a, aid, st, a.meetingDay.value, RecurrenceWeeks(cfg),
                               a.timeStart, DefaultEndTime(a.timeStart, a.timeEnd, SessionDuration(cfg)), today);
        }
      } else {
        GroupRunIdempotent(enrollments, groups, a, aid, st, GroupFlags(groups, a), RecurrenceWeeks(cfg),
                           GroupStart(groups, a), GroupEnd(cfg, groups, a), today);
      }
    }
  }

  /** Generation keeps every attendance line pointing at a session, naming one person, unique. */
  lemma GenerateKeepsWellFormed(cfg: Config, enrollments: seq<Enrollment>, links: seq<InvoiceLink>, groups: seq<ClassGroup>,
                                a: Assignment, aid: nat, st: Schedule, today: int)
    requires WellFormed(st) && Generate(cfg, enrollments, links, groups, a, aid, st, today).Ok?
    ensures WellFormed(Generate(cfg, enrollments, links, groups, a, aid, st, today).value)
  {
    if a.status.Active? {
      if a.groupId.None? {
        if a.meetingDay.Some? && !OverdueBlocks(cfg, enrollments, links, a.studentId) {
          var w := a.meetingDay.value;
          var end := DefaultEndTime(a.timeStart, a.timeEnd, SessionDuration(cfg));
          AddAllKeepsWellFormed(enrollments, st, WeekdayPlan(groups, a, aid, st.sessions, w, RecurrenceWeeks(cfg), a.timeStart, end, today));
        }
      } else {
        AddAllKeepsWellFormed(enrollments, st, GroupPlan(groups, a, aid, st.sessions, GroupFlags(groups, a), 7, RecurrenceWeeks(cfg),
                                                         GroupStart(groups, a), GroupEnd(cfg, groups, a), today));
      }
    }
  }

  /** A group assignment's generation appends to the stored sessions exactly its group plan. */
  lemma GroupGenerationIsPlan(cfg: Config, enrollments: seq<Enrollment>, links: seq<InvoiceLink>, groups: seq<ClassGroup>,
                              a: Assignment, aid: nat, st: Schedule, today: int)
    requires a.status.Active? && a.groupId.Some?
    requires Generate(cfg, enrollments, links, groups, a, aid, st, today).Ok?
    ensures Generate(cfg, enrollments, links, groups, a, aid, st, today).value.sessions ==
            st.sessions + GroupPlan(groups, a, aid, st.sessions, GroupFlags(groups, a), 7, RecurrenceWeeks(cfg),
                                    GroupStart(groups, a), GroupEnd(cfg, groups, a), today)
  {
  }

  /**
   * A group assignment's generated sessions follow the stored ones, at most one per
   * configured week for each of the seven weekdays.
   */
  lemma GroupGenerationLength(cfg: Config, enrollments: seq<Enrollment>, links: seq<InvoiceLink>, groups: seq<ClassGroup>,
                              a: Assignment, aid: nat, st: Schedule, today: int)
    requires a.status.Active? && a.groupId.Some?
    requires Generate(cfg, enrollments, links, groups, a, aid, st, today).Ok?
    ensures var r := Generate(cfg, enrollments, links, groups, a, aid, st, today).value;
            && |st.sessions| <= |r.sessions| && r.sessions[..|st.sessions|] == st.sessions
            && |r.sessions| - |st.sessions| <= 7 * (if RecurrenceWeeks(cfg) <= 0 then 0 else RecurrenceWeeks(cfg))
  {
    GroupGenerationIsPlan(cfg, enrollments, links, groups, a, aid, st, today);
    GroupPlanLength(groups, a, aid, st.sessions, GroupFlags(groups, a), 7, RecurrenceWeeks(cfg),
                    GroupStart(groups, a), GroupEnd(cfg, groups, a), today);
  }

  /**
   * Each session a group assignment generates belongs to it, carries its teacher and
   * group, uses the group's times and falls on a day the group meets, on or after the
   * start date.
   */
  lemma GroupGenerationSpec(cfg: Config, enrollments: seq<Enrollment>, links: seq<InvoiceLink>, groups: seq<ClassGroup>,
                            a: Assignment, aid: nat, st: Schedule, today: int)
    requires a.status.Active? && a.groupId.Some?
    requires Generate(cfg, enrollments, links, groups, a, aid, st, today).Ok?
    ensures var r := Generate(cfg, enrollments, links, groups, a, aid, st, today).value;
            forall i :: |st.sessions| <= i < |r.sessions| ==>
              GroupSession(r.sessions[i], a, aid, GroupFlags(groups, a), 7, a.startDate.GetOr(today),
                           GroupStart(groups, a), GroupEnd(cfg, groups, a))
  {
    GroupGenerationIsPlan(cfg, enrollments, links, groups, a, aid, st, today);
    GroupPlanSpec(groups, a, aid, st.sessions, GroupFlags(groups, a), 7, RecurrenceWeeks(cfg),
                  GroupStart(groups, a), GroupEnd(cfg, groups, a), today);
    AppendedGroupSessions(st.sessions, GroupPlan(groups, a, aid, st.sessions, GroupFlags(groups, a), 7, RecurrenceWeeks(cfg),
                                                 GroupStart(groups, a), GroupEnd(cfg, groups, a), today),
                          a, aid, GroupFlags(groups, a), a.startDate.GetOr(today), GroupStart(groups, a), GroupEnd(cfg, groups, a));
  }

  /** Sessions appended to a schedule keep, at their new positions, what held of them. */
  lemma AppendedGroupSessions(prefix: seq<Session>, ss: seq<Session>, a: Assignment, aid: nat, flags: DayFlags,
                              from: int, start: int, end: int)
    requires forall i :: 0 <= i < |ss| ==> GroupSession(ss[i], a, aid, flags, 7, from, start, end)
    ensures forall i :: |prefix| <= i < |prefix + ss| ==> GroupSession((prefix + ss)[i], a, aid, flags, 7, from, start, end)
  {
    forall i | |prefix| <= i < |prefix + ss|
      ensures GroupSession((prefix + ss)[i], a, aid, flags, 7, from, start, end)
    {
      assert (prefix + ss)[i] == ss[i - |prefix|];
    }
  }

  /**
   * A session the student generation may create for assignment `aid`: it belongs to
   * the assignment, carries its teacher and student and the given times, and falls on
   * `weekday`, on or after `from`.
   */
  predicate StudentSession(s: Session, a: Assignment, aid: nat, weekday: Weekday, from: int, start: int, end: int) {
    && s.assignmentId == Some(aid) && s.teacherId == Some(a.teacherId)
    && s.studentId == a.studentId && s.groupId == a.groupId
    && s.startTime == start && s.endTime == end
    && from <= s.date && WeekdayOf(s.date) == weekday
  }

  /**
   * A student assignment's generation appends to the stored sessions exactly the plan
   * for its meeting day, with its times (the end completed with the configured duration).
   */
  lemma StudentGenerationIsPlan(cfg: Config, enrollments: seq<Enrollment>, links: seq<InvoiceLink>, groups: seq<ClassGroup>,
                                a: Assignment, aid: nat, st: Schedule, today: int)
    requires a.status.Active? && a.groupId.None? && a.meetingDay.Some?
    requires Generate(cfg, enrollments, links, groups, a, aid, st, today).Ok?
    ensures Generate(cfg, enrollments, links, groups, a, aid, st, today).value.sessions ==
            st.sessions + WeekdayPlan(groups, a, aid, st.sessions, a.meetingDay.value, RecurrenceWeeks(cfg), a.timeStart,
                                      DefaultEndTime(a.timeStart, a.timeEnd, SessionDuration(cfg)), today)
  {
  }

  /**
   * A student assignment's generated sessions follow the stored ones, at most one per
   * configured week, in increasing date order.
   */
  lemma StudentGenerationOrdered(cfg: Config, enrollments: seq<Enrollment>, links: seq<InvoiceLink>, groups: seq<ClassGroup>,
                                 a: Assignment, aid: nat, st: Schedule, today: int)
    requires a.status.Active? && a.groupId.None? && a.meetingDay.Some?
    requires Generate(cfg, enrollments, links, groups, a, aid, st, today).Ok?
    ensures var r := Generate(cfg, enrollments, links, groups, a, aid, st, today).value;
            var n := |st.sessions|;
            && n <= |r.sessions| && r.sessions[..n] == st.sessions
            && |r.sessions| - n <= (if RecurrenceWeeks(cfg) <= 0 then 0 else RecurrenceWeeks(cfg))
            && (forall i, j :: n <= i < j < |r.sessions| ==> r.sessions[i].date < r.sessions[j].date)
  {
    var w := a.meetingDay.value;
    var end := DefaultEndTime(a.timeStart, a.timeEnd, SessionDuration(cfg));
    StudentGenerationIsPlan(cfg, enrollments, links, groups, a, aid, st, today);
    WeekdayPlanSpec(groups, a, aid, st.sessions, w, RecurrenceWeeks(cfg), a.timeStart, end, today);
    AppendedInOrder(st.sessions, WeekdayPlan(groups, a, aid, st.sessions, w, RecurrenceWeeks(cfg), a.timeStart, end, today));
  }

  /** Sessions appended to a schedule keep their increasing date order at their new positions. */
  lemma AppendedInOrder(prefix: seq<Session>, ss: seq<Session>)
    requires forall i, j :: 0 <= i < j < |ss| ==> ss[i].date < ss[j].date
    ensures forall i, j :: |prefix| <= i < j < |prefix + ss| ==> (prefix + ss)[i].date < (prefix + ss)[j].date
  {
    forall i, j | |prefix| <= i < j < |prefix + ss|
      ensures (prefix + ss)[i].date < (prefix + ss)[j].date
    {
      assert (prefix + ss)[i] == ss[i - |prefix|] && (prefix + ss)[j] == ss[j - |prefix|];
    }
  }

  /**
   * Each session a student assignment generates belongs to it, carries its teacher and
   * student and its times, and falls on the meeting day on or after the start date.
   */
  lemma StudentGenerationSpec(cfg: Config, enrollments: seq<Enrollment>, links: seq<InvoiceLink>, groups: seq<ClassGroup>,
                              a: Assignment, aid: nat, st: Schedule, today: int)
    requires a.status.Active? && a.groupId.None? && a.meetingDay.Some?
    requires Generate(cfg, enrollments, links, groups, a, aid, st, today).Ok?
    ensures var r := Generate(cfg, enrollments, links, groups, a, aid, st, today).value;
            forall i :: |st.sessions| <= i < |r.sessions| ==>
              StudentSession(r.sessions[i], a, aid, a.meetingDay.value, a.startDate.GetOr(today),
                             a.timeStart, DefaultEndTime(a.timeStart, a.timeEnd, SessionDuration(cfg)))
  {
    var w := a.meetingDay.value;
    var end := DefaultEndTime(a.timeStart, a.timeEnd, SessionDuration(cfg));
    var ss := WeekdayPlan(groups, a, aid, st.sessions, w, RecurrenceWeeks(cfg), a.timeStart, end, today);
    var r := Generate(cfg, enrollments, links, groups, a, aid, st, today).value;
    StudentGenerationIsPlan(cfg, enrollments, links, groups, a, aid, st, today);
    WeekdayPlanSpec(groups, a, aid, st.sessions, w, RecurrenceWeeks(cfg), a.timeStart, end, today);
    var n := |st.sessions|;
    forall i | n <= i < |r.sessions|
      ensures StudentSession(r.sessions[i], a, aid, w, a.startDate.GetOr(today), a.timeStart, end)
    {
      assert r.sessions[i] == ss[i - n];
    }
  }

  /** `_generate_student_sessions` on the store; the overdue refusal comes before any session is created. */
  method GenerateStudentSessions(db: RecordStore.Store, cfg: Config, aid: nat, today: int) returns (r: Result<nat>)
    requires aid < |db.assignments|
    requires db.Valid()
    modifies db`sessions, db`lines
    ensures db.Valid()
    ensures var next := StudentRun(cfg, db.enrollments, db.links, db.groups, db.assignments[aid], aid,
                                   Schedule(old(db.sessions), old(db.lines)), today);
            && (r.Ok? <==> next.Ok?)
            && (r.Ok? ==> Schedule(db.sessions, db.lines) == next.value && r.value == |db.sessions| - |old(db.sessions)|)
            && (r.Err? ==> r.error == next.error)
    ensures r == Err(OverdueBlocked) ==> db.sessions == old(db.sessions) && db.lines == old(db.lines)
  {
    var a := db.assignments[aid];
    if a.meetingDay.None? {
      return Ok(0);
    }
    if OverdueBlocks(cfg, db.enrollments, db.links, a.studentId) {
      return Err(OverdueBlocked);
    }
    var start := a.timeStart;
    var end := DefaultEndTime(start, a.timeEnd, SessionDuration(cfg));
    r := CreateSessionsForWeekday(db, aid, a.meetingDay.value, RecurrenceWeeks(cfg), start, end, today);
  }

  /** `_generate_group_sessions` on the store: the group's days and times, no overdue gate. */
  method GenerateGroupSessions(db: RecordStore.Store, cfg: Config, aid: nat, today: int) returns (r: Result<nat>)
    requires aid < |db.assignments|
    requires db.Valid()
    modifies db`sessions, db`lines
    ensures db.Valid()
    ensures var next := GroupGeneration(cfg, db.enrollments, db.groups, db.assignments[aid], aid,
                                        Schedule(old(db.sessions), old(db.lines)), today);
            && (r.Ok? <==> next.Ok?)
            && (r.Ok? ==> Schedule(db.sessions, db.lines) == next.value && r.value == |db.sessions| - |old(db.sessions)|)
            && (r.Err? ==> r.error == next.error)
  {
    var a := db.assignments[aid];
    r := GroupSessionsLoop(db, aid, GroupFlags(db.groups, a), RecurrenceWeeks(cfg),
                           GroupStart(db.groups, a), GroupEnd(cfg, db.groups, a), today);
  }

  /** `_generate_sessions` for one assignment on the store. */
  method GenerateSessions(db: RecordStore.Store, cfg: Config, aid: nat, today: int) returns (r: Result<nat>)
    requires aid < |db.assignments|
    requires db.Valid()
    modifies db`sessions, db`lines
    ensures db.Valid()
    ensures var next := Generate(cfg, db.enrollments, db.links, db.groups, db.assignments[aid], aid,
                                 Schedule(old(db.sessions), old(db.lines)), today);
            && (r.Ok? <==> next.Ok?)
            && (r.Ok? ==> Schedule(db.sessions, db.lines) == next.value && r.value == |db.sessions| - |old(db.sessions)|)
            && (r.Err? ==> r.error == next.error)
  {
    var a := db.assignments[aid];
    if !a.status.Active? {
      return Ok(0);
    }
    if a.groupId.None? {
      r := GenerateStudentSessions(db, cfg, aid, today);
    } else {
      r := GenerateGroupSessions(db, cfg, aid, today);
    }
  }

  /**
   * `action_generate_sessions`: one transaction. A raised error rolls back every
   * session and attendance line created before it.
   */
  method ActionGenerateSessions(db: RecordStore.Store, cfg: Config, aid: nat, today: int) returns (r: Result<nat>)
    requires aid < |db.assignments|
    requires db.Valid()
    modifies db`sessions, db`lines
    ensures db.Valid()
    ensures var next := Generate(cfg, db.enrollments, db.links, db.groups, db.assignments[aid], aid,
                                 Schedule(old(db.sessions), old(db.lines)), today);
            && (r.Ok? <==> next.Ok?)
            && (r.Ok? ==> Schedule(db.sessions, db.lines) == next.value)
            && (r.Err? ==> r.error == next.error)
    ensures r.Err? ==> db.sessions == old(db.sessions) && db.lines == old(db.lines)
  {
    var sessions0, lines0 := db.sessions, db.lines;
    r := GenerateSessions(db, cfg, aid, today);
    if r.Err? {
      db.sessions, db.lines := sessions0, lines0;
    }
  }

  /**
   * `_check_teacher_load` for assignment `a` among the stored `assignments`: an active
   * assignment whose teacher has a nonzero `max_load` must not bring the teacher's
   * `current_load` above it.
   */
  predicate TeacherLoadOk(teachers: seq<Teacher>, assignments: seq<Assignment>, enrollments: seq<Enrollment>, a: Assignment) {
    || !a.status.Active?
    || a.teacherId >= |teachers|
    || teachers[a.teacherId].maxLoad == 0
    || Employees.CurrentLoad(assignments, enrollments, a.teacherId) <= teachers[a.teacherId].maxLoad
  }

  /**
   * The constraints of a new assignment, stored as the last of `assignments`, run in
   * the order of their method names: `_check_dates`, `_check_target`,
   * `_check_teacher_load`, `_check_time_range`; the first that fails gives the error.
   */
  function CheckAssignment(teachers: seq<Teacher>, assignments: seq<Assignment>, enrollments: seq<Enrollment>): (r: Option<Error>)
    requires |assignments| > 0
    ensures var a := assignments[|assignments| - 1];
            r.None? <==>
              && DateRangeOk(a.startDate, a.endDate) && CheckTarget(a).None?
              && TeacherLoadOk(teachers, assignments, enrollments, a) && TimeRangeOk(a.timeStart, a.timeEnd)
    ensures var a := assignments[|assignments| - 1];
            && (r == Some(DateRangeInvalid) <==> !DateRangeOk(a.startDate, a.endDate))
            && (r == Some(TargetMissing) <==> DateRangeOk(a.startDate, a.endDate) && a.studentId.None? && a.groupId.None?)
            && (r == Some(TargetBoth) <==> DateRangeOk(a.startDate, a.endDate) && a.studentId.Some? && a.groupId.Some?)
            && (r == Some(TeacherOverloaded) <==>
                  DateRangeOk(a.startDate, a.endDate) && CheckTarget(a).None? && !TeacherLoadOk(teachers, assignments, enrollments, a))
            && (r == Some(TimeRangeInvalid) <==>
                  && DateRangeOk(a.startDate, a.endDate) && CheckTarget(a).None?
                  && TeacherLoadOk(teachers, assignments, enrollments, a) && !TimeRangeOk(a.timeStart, a.timeEnd))
    ensures r.Some? ==> r.value in {DateRangeInvalid, TargetMissing, TargetBoth, TeacherOverloaded, TimeRangeInvalid}
  {
    var a := assignments[|assignments| - 1];
    if !DateRangeOk(a.startDate, a.endDate) then Some(DateRangeInvalid)
    else if CheckTarget(a).Some? then CheckTarget(a)
    else if !TeacherLoadOk(teachers, assignments, enrollments, a) then Some(TeacherOverloaded)
    else if !TimeRangeOk(a.timeStart, a.timeEnd) then Some(TimeRangeInvalid)
    else None
  }

  /** Every stored assignment passes the teacher-load rule. */
  predicate LoadsWithin(teachers: seq<Teacher>, assignments: seq<Assignment>, enrollments: seq<Enrollment>) {
    forall i :: 0 <= i < |assignments| ==> TeacherLoadOk(teachers, assignments, enrollments, assignments[i])
  }

  /**
   * Creating an assignment that passes its constraints keeps every stored assignment
   * within its teacher's maximum load: the new one only adds to its own teacher's
   * load, which its own check bounds.
   */
  lemma CreateKeepsLoadLimits(teachers: seq<Teacher>, assignments: seq<Assignment>, enrollments: seq<Enrollment>, a: Assignment)
    requires LoadsWithin(teachers, assignments, enrollments)
    requires CheckAssignment(teachers, assignments + [a], enrollments).None?
    ensures LoadsWithin(teachers, assignments + [a], enrollments)
  {
    var after := assignments + [a];
    assert after[|after| - 1] == a;
    forall i | 0 <= i < |after|
      ensures TeacherLoadOk(teachers, after, enrollments, after[i])
    {
      if i < |assignments| {
        var b := assignments[i];
        assert after[i] == b;
        Employees.CurrentLoadAppend(assignments, enrollments, b.teacherId, a);
        assert TeacherLoadOk(teachers, assignments, enrollments, b);
      }
    }
  }

  /**
   * `create` of an assignment: it is stored, its constraints run, and an active one
   * generates its sessions. The whole call is one transaction: a failing constraint
   * or a failing generation leaves the assignments, sessions and attendance lines as
   * they were.
   */
  method Create(db: RecordStore.Store, cfg: Config, a: Assignment, today: int) returns (r: Result<nat>)
    requires db.Valid()
    modifies db`assignments, db`sessions, db`lines
    ensures db.Valid()
    ensures var aid := |old(db.assignments)|;
            var check := CheckAssignment(db.teachers, old(db.assignments) + [a], db.enrollments);
            var gen := Generate(cfg, db.enrollments, db.links, db.groups, a, aid, Schedule(old(db.sessions), old(db.lines)), today);
            && (r.Ok? <==> check.None? && gen.Ok?)
            && (r.Ok? ==> r.value == aid && db.assignments == old(db.assignments) + [a]
                          && Schedule(db.sessions, db.lines) == gen.value)
            && (r.Err? ==> r.error == (if check.Some? then check.value else gen.error))
    ensures r.Err? ==> db.assignments == old(db.assignments) && db.sessions == old(db.sessions) && db.lines == old(db.lines)
  {
    var assignments0, sessions0, lines0 := db.assignments, db.sessions, db.lines;
    var check := CheckAssignment(db.teachers, db.assignments + [a], db.enrollments);
    if check.Some? {
      return Err(check.value);
    }
    db.assignments := db.assignments + [a];
    var aid := |db.assignments| - 1;
    var gen := GenerateSessions(db, cfg, aid, today);
    if gen.Err? {
      db.assignments, db.sessions, db.lines := assignments0, sessions0, lines0;
      return Err(gen.error);
    }
    r := Ok(aid);
  }

  /**
   * A teacher with `max_load` 1 takes one active student assignment; a second active
   * student assignment for the same teacher is rejected as an overload.
   */
  lemma TeacherLoadScenario()
    ensures var teachers := [Teacher(true, "", {}, 1, [], None, None, true)];
            var a1 := Assignment(0, Some(1), None, None, None, AssignmentStatus.Active, None, 0, 0);
            var a2 := Assignment(0, Some(2), None, None, None, AssignmentStatus.Active, None, 0, 0);
            CheckAssignment(teachers, [a1], []).None? &&
            CheckAssignment(teachers, [a1, a2], []) == Some(TeacherOverloaded)
  {
    var a1 := Assignment(0, Some(1), None, None, None, AssignmentStatus.Active, None, 0, 0);
    var a2 := Assignment(0, Some(2), None, None, None, AssignmentStatus.Active, None, 0, 0);
    assert [a1, a2][..1] == [a1];
    assert [a1][..0] == [];
    assert Employees.CurrentLoad([a1], [], 0) == 1;
    assert Employees.CurrentLoad([a1, a2], [], 0) == 2;
  }

  /** An assignment naming both a student and a class group is rejected. */
  lemma TargetBothScenario()
    ensures var a := Assignment(0, Some(1), Some(0), None, None, AssignmentStatus.Draft, None, 0, 0);
            CheckAssignment([], [a], []) == Some(TargetBoth)
  {
  }
}
