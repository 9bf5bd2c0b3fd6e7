/**
 * Teaching sessions (`edu_session`): creation with its time check, attendance
 * seeding, the attendance counts and the company fallback.
 */
module Sessions {
  import opened Common
  import opened Records
  import opened ClassGroups
  import opened AttendanceRules
  import AssignmentRules
  import RecordStore

  /**
   * The students attendance is seeded for: the distinct students of the group's
   * active enrollments when the session has a group, else the session's student.
   */
  function Targets(enrollments: seq<Enrollment>, s: Session): seq<nat> {
    if s.groupId.Some? then Dedup(ActiveStudents(enrollments, s.groupId.value))
    else if s.studentId.Some? then [s.studentId.value]
    else []
  }

  /** Each target once; for a group, exactly the students of its active enrollments. */
  lemma TargetsSpec(enrollments: seq<Enrollment>, s: Session)
    ensures NoDuplicates(Targets(enrollments, s))
    ensures s.groupId.Some? ==> forall x :: x in Targets(enrollments, s) <==>
              exists j :: 0 <= j < |enrollments| && enrollments[j].groupId == s.groupId
                && enrollments[j].status.Active? && enrollments[j].studentId == x
    ensures s.groupId.None? ==> Targets(enrollments, s) == if s.studentId.Some? then [s.studentId.value] else []
  {
  }

  /** The students that already have a student-type line for session `sid`. */
  function ExistingStudents(lines: seq<Attendance>, sid: nat): set<nat> {
    set l | l in lines && l.sessionId == sid && l.personType.StudentLine? && l.studentId.Some? :: l.studentId.value
  }

  /** The line seeded for a target student: student type, status absent. */
  function StudentLine(sid: nat, student: nat): Attendance {
    Attendance(sid, PersonType.StudentLine, Some(student), None, Absent)
  }

  /** The line seeded for the teacher: teacher type, status present. */
  function TeacherLine(sid: nat, teacher: nat): Attendance {
    Attendance(sid, PersonType.TeacherLine, None, Some(teacher), Present)
  }

  /**
   * The student lines of one seeding pass: one absent line per target, in target
   * order, skipping the students in `existing` (computed once, before the loop).
   */
  function StudentSeed(targets: seq<nat>, existing: set<nat>, sid: nat): seq<Attendance>
    decreases |targets|
  {
    if targets == [] then []
    else
      var n := |targets| - 1;
      var init := StudentSeed(targets[..n], existing, sid);
      if targets[n] in existing then init else init + [StudentLine(sid, targets[n])]
  }

  /**
   * One absent line per uncovered target and no other line; for distinct targets the
   * lines name distinct students.
   */
  lemma {:induction false} StudentSeedSpec(targets: seq<nat>, existing: set<nat>, sid: nat)
    ensures var r := StudentSeed(targets, existing, sid);
            && |r| <= |targets|
            && (existing == {} ==> |r| == |targets|)
            && (forall i :: 0 <= i < |r| ==>
                  r[i].studentId.Some? && r[i] == StudentLine(sid, r[i].studentId.value)
                  && r[i].studentId.value in targets && r[i].studentId.value !in existing)
            && (forall x :: x in targets && x !in existing ==> StudentLine(sid, x) in r)
            && (NoDuplicates(targets) ==> forall i, j :: 0 <= i < j < |r| ==> r[i].studentId != r[j].studentId)
    decreases |targets|
  {
    if targets != [] {
      var n := |targets| - 1;
      assert targets == targets[..n] + [targets[n]];
      assert NoDuplicates(targets) ==> NoDuplicates(targets[..n]) && targets[n] !in targets[..n];
      StudentSeedSpec(targets[..n], existing, sid);
    }
  }

  /** One more target adds its line unless the student is already covered. */
  lemma StudentSeedStep(targets: seq<nat>, existing: set<nat>, sid: nat, k: nat)
    requires k < |targets|
    ensures StudentSeed(targets[..k + 1], existing, sid) ==
            StudentSeed(targets[..k], existing, sid) + (if targets[k] in existing then [] else [StudentLine(sid, targets[k])])
  {
    assert targets[..k + 1][..k] == targets[..k];
  }

  /** When every target is covered, no student line is added. */
  lemma {:induction false} StudentSeedCovered(targets: seq<nat>, existing: set<nat>, sid: nat)
    requires forall x :: x in targets ==> x in existing
    ensures StudentSeed(targets, existing, sid) == []
    decreases |targets|
  {
    if targets != [] {
      var n := |targets| - 1;
      assert targets[n] in targets;
      forall x | x in targets[..n] ensures x in existing {
        assert x in targets;
      }
      StudentSeedCovered(targets[..n], existing, sid);
    }
  }

  /** A student outside `ExistingStudents` has no student line for the session. */
  lemma NotExistingHasNoLine(lines: seq<Attendance>, sid: nat, x: nat)
    requires x !in ExistingStudents(lines, sid)
    ensures forall i :: 0 <= i < |lines| ==> Key(lines[i]) != (sid, PersonType.StudentLine, Some(x), None)
  {
    forall i | 0 <= i < |lines| ensures Key(lines[i]) != (sid, PersonType.StudentLine, Some(x), None) {
      assert lines[i] in lines;
    }
  }

  /** Session `sid` already has a teacher line for teacher `t`. */
  predicate HasTeacherLine(lines: seq<Attendance>, sid: nat, t: nat) {
    exists i :: 0 <= i < |lines| && lines[i].sessionId == sid && lines[i].personType.TeacherLine? && lines[i].teacherId == Some(t)
  }

  /** The teacher line of one seeding pass: added only for a set teacher without a line yet. */
  function TeacherSeed(lines: seq<Attendance>, sid: nat, teacher: Option<nat>): seq<Attendance> {
    if teacher.Some? && !HasTeacherLine(lines, sid, teacher.value) then [TeacherLine(sid, teacher.value)] else []
  }

  /** The lines `_create_attendance_lines` adds for session `sid` to the store's `lines`. */
  function SeedLines(lines: seq<Attendance>, sid: nat, targets: seq<nat>, teacher: Option<nat>): seq<Attendance> {
    var students := StudentSeed(targets, ExistingStudents(lines, sid), sid);
    students + TeacherSeed(lines + students, sid, teacher)
  }

  /** Adding student lines does not give the session a teacher line. */
  lemma StudentLinesKeepTeacherLines(lines: seq<Attendance>, extra: seq<Attendance>, sid: nat, t: nat)
    requires forall i :: 0 <= i < |extra| ==> extra[i].personType.StudentLine?
    ensures HasTeacherLine(lines + extra, sid, t) <==> HasTeacherLine(lines, sid, t)
  {
    if HasTeacherLine(lines + extra, sid, t) {
      var i :| 0 <= i < |lines + extra| && (lines + extra)[i].sessionId == sid
                && (lines + extra)[i].personType.TeacherLine? && (lines + extra)[i].teacherId == Some(t);
      assert i < |lines|;
      assert (lines + extra)[i] == lines[i];
    }
    if HasTeacherLine(lines, sid, t) {
      var i :| 0 <= i < |lines| && lines[i].sessionId == sid && lines[i].personType.TeacherLine? && lines[i].teacherId == Some(t);
      assert (lines + extra)[i] == lines[i];
    }
  }

  /** After seeding, every target student has an absent-or-later line and the teacher has a line. */
  lemma SeedCovers(lines: seq<Attendance>, sid: nat, targets: seq<nat>, teacher: Option<nat>)
    ensures var after := lines + SeedLines(lines, sid, targets, teacher);
            && (forall x :: x in targets ==> x in ExistingStudents(after, sid))
            && (teacher.Some? ==> HasTeacherLine(after, sid, teacher.value))
  {
    var existing := ExistingStudents(lines, sid);
    var students := StudentSeed(targets, existing, sid);
    StudentSeedSpec(targets, existing, sid);
    var after := lines + SeedLines(lines, sid, targets, teacher);
    assert after == (lines + students) + TeacherSeed(lines + students, sid, teacher);
    forall x | x in targets ensures x in ExistingStudents(after, sid) {
      if x in existing {
        var l :| l in lines && l.sessionId == sid && l.personType.StudentLine? && l.studentId == Some(x);
        assert l in after;
      } else {
        assert StudentLine(sid, x) in after;
      }
    }
    if teacher.Some? && !HasTeacherLine(lines + students, sid, teacher.value) {
      assert after[|lines + students|] == TeacherLine(sid, teacher.value);
    } else if teacher.Some? {
      var i :| 0 <= i < |lines + students| && (lines + students)[i].sessionId == sid
                && (lines + students)[i].personType.TeacherLine? && (lines + students)[i].teacherId == teacher;
      assert after[i] == (lines + students)[i];
    }
  }

  /** Seeding a second time adds no line. */
  lemma SeedIdempotent(lines: seq<Attendance>, sid: nat, targets: seq<nat>, teacher: Option<nat>)
    ensures var after := lines + SeedLines(lines, sid, targets, teacher);
            SeedLines(after, sid, targets, teacher) == []
  {
    var after := lines + SeedLines(lines, sid, targets, teacher);
    SeedCovers(lines, sid, targets, teacher);
    StudentSeedCovered(targets, ExistingStudents(after, sid), sid);
    var students := StudentSeed(targets, ExistingStudents(after, sid), sid);
    assert after + students == after;
  }

  /**
   * Seeding keeps the store's attendance invariant: the new lines point at the
   * session, name one person each, and the membership tests before each insert keep
   * every (session, person type, student, teacher) key unique, which the database
   * constraint alone does not guarantee (see `AttendanceRules.SqlUniqueIgnoresWellFormed`).
   */
  lemma SeedKeepsWellFormed(n: nat, lines: seq<Attendance>, sid: nat, targets: seq<nat>, teacher: Option<nat>)
    requires LinesWellFormed(n, lines) && sid < n && NoDuplicates(targets)
    ensures LinesWellFormed(n, lines + SeedLines(lines, sid, targets, teacher))
  {
    var existing := ExistingStudents(lines, sid);
    var students := StudentSeed(targets, existing, sid);
    StudentSeedSpec(targets, existing, sid);
    var mid := lines + students;
    forall i, j | 0 <= i < j < |mid| ensures Key(mid[i]) != Key(mid[j]) {
      if j >= |lines| {
        var y := mid[j];
        assert y == students[j - |lines|];
        if i < |lines| {
          NotExistingHasNoLine(lines, sid, y.studentId.value);
          assert mid[i] == lines[i];
        } else {
          assert mid[i] == students[i - |lines|];
        }
      } else {
        assert mid[i] == lines[i] && mid[j] == lines[j];
      }
    }
    assert LinesWellFormed(n, mid);
    var ts := TeacherSeed(mid, sid, teacher);
    if ts != [] {
      var all := mid + ts;
      var t := teacher.value;
      forall i | 0 <= i < |mid| ensures Key(mid[i]) != Key(TeacherLine(sid, t)) {
        assert !(mid[i].sessionId == sid && mid[i].personType.TeacherLine? && mid[i].teacherId == Some(t));
      }
      forall i, j | 0 <= i < j < |all| ensures Key(all[i]) != Key(all[j]) {
        if j == |mid| {
          assert all[j] == TeacherLine(sid, t) && all[i] == mid[i];
        } else {
          assert all[i] == mid[i] && all[j] == mid[j];
        }
      }
      assert LinesWellFormed(n, all);
    } else {
      assert mid + ts == mid;
    }
    assert lines + SeedLines(lines, sid, targets, teacher) == mid + ts;
  }

  /** `attendance_count`: the student-type lines of session `sid`. */
  function AttendanceCount(lines: seq<Attendance>, sid: nat): nat {
    CountWhere(lines, (l: Attendance) => l.sessionId == sid && l.personType.StudentLine?)
  }

  /** `present_count`: the student-type lines of session `sid` whose status is present. */
  function PresentCount(lines: seq<Attendance>, sid: nat): nat {
    CountWhere(lines, (l: Attendance) => l.sessionId == sid && l.personType.StudentLine? && l.status.Present?)
  }

  lemma PresentAtMostAttendance(lines: seq<Attendance>, sid: nat)
    ensures PresentCount(lines, sid) <= AttendanceCount(lines, sid)
  {
    CountWhereMonotone(lines,
      (l: Attendance) => l.sessionId == sid && l.personType.StudentLine? && l.status.Present?,
      (l: Attendance) => l.sessionId == sid && l.personType.StudentLine?);
  }

  /** A newly created session counts one line per target student, none of them present; the teacher line is not counted. */
  lemma NewSessionCounts(lines: seq<Attendance>, sid: nat, targets: seq<nat>, teacher: Option<nat>)
    requires forall i :: 0 <= i < |lines| ==> lines[i].sessionId != sid
    ensures var after := lines + SeedLines(lines, sid, targets, teacher);
            AttendanceCount(after, sid) == |targets| && PresentCount(after, sid) == 0
  {
    var isLine := (l: Attendance) => l.sessionId == sid && l.personType.StudentLine?;
    var isPresent := (l: Attendance) => l.sessionId == sid && l.personType.StudentLine? && l.status.Present?;
    assert ExistingStudents(lines, sid) == {};
    var students := StudentSeed(targets, {}, sid);
    StudentSeedSpec(targets, {}, sid);
    var ts := TeacherSeed(lines + students, sid, teacher);
    assert lines + SeedLines(lines, sid, targets, teacher) == lines + (students + ts);
    CountWhereConcat(lines, students + ts, isLine);
    CountWhereConcat(students, ts, isLine);
    CountWhereConcat(lines, students + ts, isPresent);
    CountWhereConcat(students, ts, isPresent);
    CountWhereNone(lines, isLine);
    CountWhereNone(lines, isPresent);
    CountWhereAll(students, isLine);
    CountWhereNone(students, isPresent);
    CountWhereNone(ts, isLine);
    CountWhereNone(ts, isPresent);
  }

  /** The sessions and attendance lines of the store. */
  datatype Schedule = Schedule(sessions: seq<Session>, lines: seq<Attendance>)

  /** The store's attendance invariant over a schedule. */
  predicate WellFormed(st: Schedule) {
    LinesWellFormed(|st.sessions|, st.lines)
  }

  /**
   * `create` of a session: the session `_check_time_range` rejects it; otherwise it
   * is stored and seeding runs for it.
   */
  function AddSession(enrollments: seq<Enrollment>, st: Schedule, s: Session): (r: Result<Schedule>)
    ensures r.Err? <==> !AssignmentRules.TimeRangeOk(s.startTime, s.endTime)
    ensures r.Err? ==> r.error == TimeRangeInvalid
    ensures r.Ok? ==> r.value.sessions == st.sessions + [s]
  {
    if !AssignmentRules.TimeRangeOk(s.startTime, s.endTime) then Err(TimeRangeInvalid)
    else
      var sid := |st.sessions|;
      Ok(Schedule(st.sessions + [s], st.lines + SeedLines(st.lines, sid, Targets(enrollments, s), s.teacherId)))
  }

  /** Creating a session keeps the attendance invariant. */
  lemma AddSessionKeepsWellFormed(enrollments: seq<Enrollment>, st: Schedule, s: Session)
    requires WellFormed(st) && AddSession(enrollments, st, s).Ok?
    ensures WellFormed(AddSession(enrollments, st, s).value)
  {
    var n := |st.sessions| + 1;
    assert LinesWellFormed(n, st.lines);
    TargetsSpec(enrollments, s);
    SeedKeepsWellFormed(n, st.lines, |st.sessions|, Targets(enrollments, s), s.teacherId);
  }

  /** `_create_attendance_lines` for session `sid`. */
  method SeedAttendance(db: RecordStore.Store, sid: nat)
    requires sid < |db.sessions|
    requires db.Valid()
    modifies db`lines
    ensures db.Valid()
    ensures db.lines == old(db.lines) +
              SeedLines(old(db.lines), sid, Targets(db.enrollments, db.sessions[sid]), db.sessions[sid].teacherId)
  {
    var s := db.sessions[sid];
    var targets := Targets(db.enrollments, s);
    var existing := ExistingStudents(db.lines, sid);
    var before := db.lines;
    for k := 0 to |targets|
      invariant db.lines == before + StudentSeed(targets[..k], existing, sid)
    {
      StudentSeedStep(targets, existing, sid, k);
      var student := targets[k];
      if student !in existing {
        db.lines := db.lines + [StudentLine(sid, student)];
      }
    }
    assert targets[..|targets|] == targets;
    ghost var students := StudentSeed(targets, existing, sid);
    assert db.lines == before + students;
    if s.teacherId.Some? && !HasTeacherLine(db.lines, sid, s.teacherId.value) {
      db.lines := db.lines + [TeacherLine(sid, s.teacherId.value)];
    }
    assert db.lines == before + (students + TeacherSeed(before + students, sid, s.teacherId));
    TargetsSpec(db.enrollments, s);
    SeedKeepsWellFormed(|db.sessions|, before, sid, targets, s.teacherId);
  }

  /** `create` of one session on the store: the time check, then the record, then its attendance. */
  method CreateSession(db: RecordStore.Store, s: Session) returns (r: Result<nat>)
    requires db.Valid()
    modifies db`sessions, db`lines
    ensures db.Valid()
    ensures var next := AddSession(db.enrollments, Schedule(old(db.sessions), old(db.lines)), s);
            && (r.Ok? <==> next.Ok?)
            && (r.Ok? ==> r.value == |old(db.sessions)| && Schedule(db.sessions, db.lines) == next.value)
            && (r.Err? ==> r.error == next.error && db.sessions == old(db.sessions) && db.lines == old(db.lines))
  {
    if !AssignmentRules.TimeRangeOk(s.startTime, s.endTime) {
      return Err(TimeRangeInvalid);
    }
    db.sessions := db.sessions + [s];
    assert LinesWellFormed(|db.sessions|, db.lines);
    var sid := |db.sessions| - 1;
    SeedAttendance(db, sid);
    r := Ok(sid);
  }

  /** Group `gid` is stored and has a company set. */
  predicate GroupCompanySet(groups: seq<ClassGroup>, gid: Option<nat>) {
    gid.Some? && gid.value < |groups| && groups[gid.value].companyId.Some?
  }

  /** Student `sid` is stored and has a company set. */
  predicate StudentCompanySet(students: seq<Student>, sid: Option<nat>) {
    sid.Some? && sid.value < |students| && students[sid.value].companyId.Some?
  }

  /** The company of an assignment: its group's, else its student's, else the current company. */
  function AssignmentCompany(groups: seq<ClassGroup>, students: seq<Student>, a: Assignment, current: nat): (c: nat)
    ensures GroupCompanySet(groups, a.groupId) ==> c == groups[a.groupId.value].companyId.value
    ensures !GroupCompanySet(groups, a.groupId) && StudentCompanySet(students, a.studentId) ==>
              c == students[a.studentId.value].companyId.value
    ensures !GroupCompanySet(groups, a.groupId) && !StudentCompanySet(students, a.studentId) ==> c == current
  {
    var g := GroupOf(groups, a.groupId);
    var st := if a.studentId.Some? then Get(students, a.studentId.value) else None;
    if g.Some? && g.value.companyId.Some? then g.value.companyId.value
    else if st.Some? && st.value.companyId.Some? then st.value.companyId.value
    else current
  }

  /**
   * `_compute_company_id` of a session: the first set company among its assignment,
   * its group and its student, else the current company. A stored assignment always
   * has a company, so it decides whenever the session has one.
   */
  function SessionCompany(assignments: seq<Assignment>, groups: seq<ClassGroup>, students: seq<Student>,
                          s: Session, current: nat): (c: nat)
    ensures s.assignmentId.Some? && s.assignmentId.value < |assignments| ==>
              c == AssignmentCompany(groups, students, assignments[s.assignmentId.value], current)
    ensures !(s.assignmentId.Some? && s.assignmentId.value < |assignments|) ==>
              && (GroupCompanySet(groups, s.groupId) ==> c == groups[s.groupId.value].companyId.value)
              && (!GroupCompanySet(groups, s.groupId) && StudentCompanySet(students, s.studentId) ==>
                    c == students[s.studentId.value].companyId.value)
              && (!GroupCompanySet(groups, s.groupId) && !StudentCompanySet(students, s.studentId) ==> c == current)
    ensures c == current ||
            (exists g :: 0 <= g < |groups| && groups[g].companyId == Some(c)) ||
            (exists x :: 0 <= x < |students| && students[x].companyId == Some(c))
  {
    if s.assignmentId.Some? && s.assignmentId.value < |assignments| then
      AssignmentCompany(groups, students, assignments[s.assignmentId.value], current)
    else
      var g := GroupOf(groups, s.groupId);
      var st := if s.studentId.Some? then Get(students, s.studentId.value) else None;
      if g.Some? && g.value.companyId.Some? then g.value.companyId.value
      else if st.Some? && st.value.companyId.Some? then st.value.companyId.value
      else current
  }

  /**
   * A session that copies its assignment's group and student has the same company
   * whether it is read through the assignment or through its own group and student.
   */
  lemma GeneratedSessionCompany(assignments: seq<Assignment>, groups: seq<ClassGroup>, students: seq<Student>,
                                s: Session, current: nat)
    requires s.assignmentId.Some? && s.assignmentId.value < |assignments|
    requires s.groupId == assignments[s.assignmentId.value].groupId
    requires s.studentId == assignments[s.assignmentId.value].studentId
    ensures SessionCompany(assignments, groups, students, s, current) ==
            SessionCompany(assignments, groups, students, s.(assignmentId := None), current)
  {
  }
}
