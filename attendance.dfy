/** Attendance lines (`edu_attendance`): the person rule, field defaults and line uniqueness. */
module AttendanceRules {
  import opened Common
  import opened Records

  /** A line names exactly one person, the one its `person_type` says. */
  predicate ExactlyOneSubject(l: Attendance) {
    && (l.studentId.Some? != l.teacherId.Some?)
    && (l.personType.StudentLine? <==> l.studentId.Some?)
  }

  /** The four `ValidationError`s of `_check_person`, in the order the method checks them. */
  datatype PersonError = StudentMissing | TeacherNotEmpty | TeacherMissing | StudentNotEmpty

  /** `_check_person`: the first rule the line violates, `None` when it passes. */
  function CheckPerson(l: Attendance): (r: Option<PersonError>)
    ensures r.None? <==> ExactlyOneSubject(l)
    ensures r == Some(StudentMissing) <==> l.personType.StudentLine? && l.studentId.None?
    ensures r == Some(TeacherMissing) <==> l.personType.TeacherLine? && l.teacherId.None?
  {
    if l.personType.StudentLine? && l.studentId.None? then Some(StudentMissing)
    else if l.personType.StudentLine? && l.teacherId.Some? then Some(TeacherNotEmpty)
    else if l.personType.TeacherLine? && l.teacherId.None? then Some(TeacherMissing)
    else if l.personType.TeacherLine? && l.studentId.Some? then Some(StudentNotEmpty)
    else None
  }

  /** A line created with only its session set: `person_type` student and status absent. */
  function DefaultLine(sessionId: nat): Attendance {
    Attendance(sessionId, StudentLine, None, None, Absent)
  }

  /** The defaults alone do not make a valid line: a student must be named. */
  lemma DefaultLineNeedsStudent(sessionId: nat)
    ensures CheckPerson(DefaultLine(sessionId)) == Some(StudentMissing)
    ensures CheckPerson(DefaultLine(sessionId).(studentId := Some(0))).None?
  {
  }

  /** The columns of the `unique_attendance` constraint. */
  function Key(l: Attendance): (nat, PersonType, Option<nat>, Option<nat>) {
    (l.sessionId, l.personType, l.studentId, l.teacherId)
  }

  /** No two lines share a key: at most one line per session, person type and person. */
  predicate UniqueKeys(lines: seq<Attendance>) {
    forall i, j :: 0 <= i < j < |lines| ==> Key(lines[i]) != Key(lines[j])
  }

  /**
   * What the database reports as a violation of `unique(session_id, person_type,
   * student_id, teacher_id)`: PostgreSQL treats NULLs as distinct, so two rows clash
   * only when all four columns are equal and none is NULL.
   */
  predicate SqlClash(a: Attendance, b: Attendance) {
    && a.sessionId == b.sessionId && a.personType == b.personType
    && a.studentId.Some? && a.studentId == b.studentId
    && a.teacherId.Some? && a.teacherId == b.teacherId
  }

  /** The unique constraint as written: the database accepts `lines`. */
  predicate SqlUniqueAccepts(lines: seq<Attendance>) {
    forall i, j :: 0 <= i < j < |lines| ==> !SqlClash(lines[i], lines[j])
  }

  /** Every well-formed line has one NULL person column, so the constraint never fires on them. */
  lemma SqlUniqueIgnoresWellFormed(lines: seq<Attendance>)
    requires forall i :: 0 <= i < |lines| ==> CheckPerson(lines[i]).None?
    ensures SqlUniqueAccepts(lines)
  {
  }

  /** Two identical student lines for one session pass the database constraint. */
  lemma DuplicateLinesPassSqlUnique()
    ensures var l := Attendance(0, StudentLine, Some(7), None, Absent);
            SqlUniqueAccepts([l, l]) && !UniqueKeys([l, l])
  {
    var l := Attendance(0, StudentLine, Some(7), None, Absent);
    assert Key([l, l][0]) == Key([l, l][1]);
  }

  /** The store's attendance invariant: lines refer to existing sessions, name one person, and are unique. */
  predicate LinesWellFormed(nSessions: nat, lines: seq<Attendance>) {
    && (forall i :: 0 <= i < |lines| ==> lines[i].sessionId < nSessions && ExactlyOneSubject(lines[i]))
    && UniqueKeys(lines)
  }
}
