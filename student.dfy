/** Students (`edu_student`): current enrollment, teachers, attendance figures and the reference number. */
module Students {
  import opened Common
  import opened Records

  /**
   * `a` sorts strictly before `b` under `start_date desc` (an empty date sorts first,
   * as PostgreSQL orders NULLs first in a descending sort).
   */
  predicate SortsBefore(a: Option<int>, b: Option<int>) {
    (a.None? && b.Some?) || (a.Some? && b.Some? && a.value > b.value)
  }

  predicate ActiveOf(e: Enrollment, sid: nat) {
    e.studentId == sid && e.status.Active?
  }

  /**
   * `current_enrollment_id`: the first active enrollment of the student in the order
   * of `enrollment_ids` (`start_date desc`; enrollments with the same start date are
   * taken in identifier order), `None` when there is no active enrollment.
   */
  function CurrentEnrollment(enrollments: seq<Enrollment>, sid: nat): (r: Option<nat>)
    ensures r.None? <==> forall j :: 0 <= j < |enrollments| ==> !ActiveOf(enrollments[j], sid)
    ensures r.Some? ==> r.value < |enrollments| && ActiveOf(enrollments[r.value], sid)
    ensures r.Some? ==> forall j :: 0 <= j < |enrollments| && ActiveOf(enrollments[j], sid) ==>
              !SortsBefore(enrollments[j].startDate, enrollments[r.value].startDate)
    ensures r.Some? ==> forall j :: 0 <= j < r.value && ActiveOf(enrollments[j], sid) ==>
              SortsBefore(enrollments[r.value].startDate, enrollments[j].startDate)
    decreases |enrollments|
  {
    if enrollments == [] then None
    else
      var n := |enrollments| - 1;
      var best := CurrentEnrollment(enrollments[..n], sid);
      var e := enrollments[n];
      if !ActiveOf(e, sid) then best
      else if best.None? || SortsBefore(e.startDate, enrollments[best.value].startDate) then Some(n)
      else best
  }

  /** `current_level_id`: the level of the current enrollment. */
  function CurrentLevel(enrollments: seq<Enrollment>, sid: nat): (r: Option<nat>)
    ensures r.Some? <==> CurrentEnrollment(enrollments, sid).Some?
    ensures r.Some? ==> r.value == enrollments[CurrentEnrollment(enrollments, sid).value].levelId
  {
    var c := CurrentEnrollment(enrollments, sid);
    if c.Some? then Some(enrollments[c.value].levelId) else None
  }

  /** The groups named by any enrollment of the student, whatever its status. */
  function EnrolledGroups(enrollments: seq<Enrollment>, sid: nat): set<nat> {
    set e | e in enrollments && e.studentId == sid && e.groupId.Some? :: e.groupId.value
  }

  /**
   * `teacher_ids`: the teachers of the student's own active assignments, together with
   * the teachers of the active assignments of every group the student is enrolled in.
   */
  function TeacherIds(assignments: seq<Assignment>, enrollments: seq<Enrollment>, sid: nat): (r: set<nat>)
    ensures forall t :: t in r <==>
              exists a :: a in assignments && a.status.Active? && a.teacherId == t &&
                (a.studentId == Some(sid) ||
                 (a.groupId.Some? && exists e :: e in enrollments && e.studentId == sid && e.groupId == a.groupId))
  {
    var groups := EnrolledGroups(enrollments, sid);
    var direct := set a | a in assignments && a.studentId == Some(sid) && a.status.Active? :: a.teacherId;
    var viaGroups := set a | a in assignments && a.groupId.Some? && a.groupId.value in groups && a.status.Active? :: a.teacherId;
    direct + viaGroups
  }

  predicate StudentLineOf(l: Attendance, sid: nat) {
    l.personType.StudentLine? && l.studentId == Some(sid)
  }

  /** `attendance_count`: the student-type attendance lines of the student. */
  function AttendanceCount(lines: seq<Attendance>, sid: nat): nat {
    CountWhere(lines, (l: Attendance) => StudentLineOf(l, sid))
  }

  /** The student-type lines of the student whose status is present. */
  function PresentCount(lines: seq<Attendance>, sid: nat): nat {
    CountWhere(lines, (l: Attendance) => StudentLineOf(l, sid) && l.status.Present?)
  }

  lemma PresentAtMostAttendance(lines: seq<Attendance>, sid: nat)
    ensures PresentCount(lines, sid) <= AttendanceCount(lines, sid)
  {
    CountWhereMonotone(lines,
      (l: Attendance) => StudentLineOf(l, sid) && l.status.Present?,
      (l: Attendance) => StudentLineOf(l, sid));
  }

  /** A share of a positive total, as a percentage, lies between 0 and 100. */
  lemma PercentBounded(part: nat, total: nat)
    requires part <= total && total > 0
    ensures 0.0 <= (part as real / total as real) * 100.0 <= 100.0
  {
    var q := part as real / total as real;
    assert q * total as real == part as real;
  }

  /**
   * `_compute_attendance_rate`: the totals of present and of all student-type lines
   * are accumulated over the lines; the rate is present / total * 100, and 0 when the
   * student has no line.
   */
  method AttendanceRate(lines: seq<Attendance>, sid: nat) returns (rate: real)
    ensures AttendanceCount(lines, sid) == 0 ==> rate == 0.0
    ensures AttendanceCount(lines, sid) > 0 ==>
              rate == (PresentCount(lines, sid) as real / AttendanceCount(lines, sid) as real) * 100.0
    ensures 0.0 <= rate <= 100.0
  {
    var total, present := 0, 0;
    for k := 0 to |lines|
      invariant total == AttendanceCount(lines[..k], sid)
      invariant present == PresentCount(lines[..k], sid)
    {
      assert lines[..k + 1][..k] == lines[..k];
      var l := lines[k];
      if StudentLineOf(l, sid) {
        total := total + 1;
        if l.status.Present? {
          present := present + 1;
        }
      }
    }
    assert lines[..|lines|] == lines;
    if total > 0 {
      PresentAtMostAttendance(lines, sid);
      PercentBounded(present, total);
      rate := (present as real / total as real) * 100.0;
    } else {
      rate := 0.0;
    }
  }

  /**
   * `create`: a supplied `student_ref` is kept; an empty one is replaced by the next
   * number of the student sequence (`next`).
   */
  function RefOnCreate(given: string, next: string): (r: string)
    ensures given != "" ==> r == given
    ensures given == "" ==> r == next
    ensures next != "" ==> r != ""
  {
    if given == "" then next else given
  }

  /** A reference drawn at creation is kept by a second pass. */
  lemma RefOnCreateStable(given: string, next: string, later: string)
    requires next != ""
    ensures RefOnCreate(RefOnCreate(given, next), later) == RefOnCreate(given, next)
  {
  }
}
