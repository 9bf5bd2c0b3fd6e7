/** Employees as teachers (`hr.employee`): the effective-teacher flag, the current load and assigned records. */
module Employees {
  import opened Common
  import opened Records
  import ClassGroups
  import Students
  import opened AssignmentRules

  /** ASCII lower-casing of one character: `A`-`Z` map to `a`-`z`, every other character is kept. */
  function LowerChar(c: char): (l: char)
    ensures 'A' <= c <= 'Z' ==> l as int == c as int + 32
    ensures !('A' <= c <= 'Z') ==> l == c
    ensures !('A' <= l <= 'Z')
  {
    if 'A' <= c <= 'Z' then (c as int + 32) as char else c
  }

  /**
   * The `.lower()` of the job-name test, restricted to ASCII: only `A`-`Z` are mapped,
   * one character for one. Both keywords of the test are ASCII or caseless.
   */
  function Lower(s: string): (r: string)
    ensures |r| == |s|
    ensures forall i :: 0 <= i < |s| ==> r[i] == LowerChar(s[i])
  {
    seq(|s|, i requires 0 <= i < |s| => LowerChar(s[i]))
  }

  /** Lower-casing twice is lower-casing once. */
  lemma LowerIdempotent(s: string)
    ensures Lower(Lower(s)) == Lower(s)
  {
  }

  /** `sub` occurs in `s` at position `i`. */
  predicate OccursAt(s: string, sub: string, i: int) {
    0 <= i && i + |sub| <= |s| && s[i..i + |sub|] == sub
  }

  /** Python's `sub in s` for strings. */
  predicate Contains(s: string, sub: string) {
    exists i :: 0 <= i <= |s| && OccursAt(s, sub, i)
  }

  /** The Arabic word for teacher, as the job-name test spells it. */
  const ArabicTeacher: string := "\U{0645}\U{0639}\U{0644}\U{0645}"

  /**
   * `is_teacher_effective`: the employee is flagged as a teacher, or the lower-cased
   * job name contains "teacher" or the Arabic word for teacher.
   */
  predicate IsTeacherEffective(t: Teacher) {
    var job := Lower(t.jobName);
    t.isTeacher || Contains(job, "teacher") || Contains(job, ArabicTeacher)
  }

  /** The job-name test ignores letter case. */
  lemma TeacherTestIgnoresCase(t: Teacher)
    ensures IsTeacherEffective(t) == IsTeacherEffective(t.(jobName := Lower(t.jobName)))
  {
    LowerIdempotent(t.jobName);
  }

  /** "Senior TEACHER" and an Arabic "teacher of Quran" qualify by their job; "Accountant" does not. */
  lemma TeacherTestExamples(t: Teacher)
    requires !t.isTeacher
    ensures IsTeacherEffective(t.(jobName := "Senior TEACHER"))
    ensures IsTeacherEffective(t.(jobName := ArabicTeacher + " Quran"))
    ensures !IsTeacherEffective(t.(jobName := "Accountant"))
    ensures IsTeacherEffective(t.(isTeacher := true, jobName := "Accountant"))
  {
    var up := Lower("Senior TEACHER");
    assert up[7..14] == "teacher";
    assert OccursAt(up, "teacher", 7);
    var ar := Lower(ArabicTeacher + " Quran");
    assert ar[0..4] == ArabicTeacher;
    assert OccursAt(ar, ArabicTeacher, 0);
    var acc := Lower("Accountant");
    assert acc == "accountant";
    forall i | 0 <= i <= |acc| ensures !OccursAt(acc, "teacher", i) {
      if i + 7 <= |acc| {
        assert acc[i..i + 7][0] == acc[i];
      }
    }
    forall i | 0 <= i <= |acc| ensures !OccursAt(acc, ArabicTeacher, i) {
      if i + 4 <= |acc| {
        assert acc[i..i + 4][0] == acc[i];
      }
    }
  }

  predicate ActiveOf(a: Assignment, t: nat) {
    a.teacherId == t && a.status.Active?
  }

  /** `current_load`: the sum of `load_units` over the teacher's active assignments. */
  function CurrentLoad(assignments: seq<Assignment>, enrollments: seq<Enrollment>, t: nat): (load: nat)
    ensures (forall i :: 0 <= i < |assignments| ==> !ActiveOf(assignments[i], t)) ==> load == 0
    decreases |assignments|
  {
    if assignments == [] then 0
    else
      var n := |assignments| - 1;
      var a := assignments[n];
      CurrentLoad(assignments[..n], enrollments, t) + (if ActiveOf(a, t) then LoadUnits(a, enrollments) else 0)
  }

  /** A new assignment adds its load units to its teacher's load when active, and nothing otherwise. */
  lemma CurrentLoadAppend(assignments: seq<Assignment>, enrollments: seq<Enrollment>, t: nat, a: Assignment)
    ensures CurrentLoad(assignments + [a], enrollments, t) ==
              CurrentLoad(assignments, enrollments, t) + (if ActiveOf(a, t) then LoadUnits(a, enrollments) else 0)
  {
    assert (assignments + [a])[..|assignments|] == assignments;
  }

  /** For a teacher with only student assignments, the load is the number of active ones. */
  lemma {:induction false} StudentOnlyLoad(assignments: seq<Assignment>, enrollments: seq<Enrollment>, t: nat)
    requires forall i :: 0 <= i < |assignments| ==> assignments[i].groupId.None? && assignments[i].studentId.Some?
    ensures CurrentLoad(assignments, enrollments, t) == CountWhere(assignments, (a: Assignment) => ActiveOf(a, t))
    decreases |assignments|
  {
    if assignments != [] {
      StudentOnlyLoad(assignments[..|assignments| - 1], enrollments, t);
    }
  }

  /** `assigned_group_ids`: the groups of the teacher's active assignments. */
  function AssignedGroups(assignments: seq<Assignment>, t: nat): (r: set<nat>)
    ensures forall g :: g in r <==> exists a :: a in assignments && ActiveOf(a, t) && a.groupId == Some(g)
  {
    set a | a in assignments && ActiveOf(a, t) && a.groupId.Some? :: a.groupId.value
  }

  /**
   * `assigned_student_ids`: the direct students of the teacher's active assignments,
   * together with the students of every enrollment (whatever its status) of the
   * groups of those assignments.
   */
  function AssignedStudents(assignments: seq<Assignment>, enrollments: seq<Enrollment>, t: nat): (r: set<nat>)
    ensures forall s :: s in r <==>
              (exists a :: a in assignments && ActiveOf(a, t) && a.studentId == Some(s)) ||
              (exists e :: e in enrollments && e.studentId == s && e.groupId.Some? && e.groupId.value in AssignedGroups(assignments, t))
  {
    var groups := AssignedGroups(assignments, t);
    var direct := set a | a in assignments && ActiveOf(a, t) && a.studentId.Some? :: a.studentId.value;
    var viaGroups := set e | e in enrollments && e.groupId.Some? && e.groupId.value in groups :: e.studentId;
    direct + viaGroups
  }

  /** A teacher teaches a student (student side) exactly when the student is assigned to the teacher (teacher side). */
  lemma StudentTeacherDuality(assignments: seq<Assignment>, enrollments: seq<Enrollment>, s: nat, t: nat)
    ensures t in Students.TeacherIds(assignments, enrollments, s) <==> s in AssignedStudents(assignments, enrollments, t)
  {
    if s in AssignedStudents(assignments, enrollments, t) {
      if !exists a :: a in assignments && ActiveOf(a, t) && a.studentId == Some(s) {
        var e :| e in enrollments && e.studentId == s && e.groupId.Some? && e.groupId.value in AssignedGroups(assignments, t);
        var a :| a in assignments && ActiveOf(a, t) && a.groupId == e.groupId;
        assert a.groupId.Some? && exists e' :: e' in enrollments && e'.studentId == s && e'.groupId == a.groupId;
      }
    }
    if t in Students.TeacherIds(assignments, enrollments, s) {
      var a :| a in assignments && a.status.Active? && a.teacherId == t &&
                (a.studentId == Some(s) ||
                 (a.groupId.Some? && exists e :: e in enrollments && e.studentId == s && e.groupId == a.groupId));
      if a.studentId != Some(s) {
        var e :| e in enrollments && e.studentId == s && e.groupId == a.groupId;
        assert a.groupId.value in AssignedGroups(assignments, t);
      }
    }
  }

  /** A teacher is among a group's teachers exactly when the group is among the teacher's assigned groups. */
  lemma GroupTeacherDuality(assignments: seq<Assignment>, g: nat, t: nat)
    ensures t in ClassGroups.GroupTeachers(assignments, g) <==> g in AssignedGroups(assignments, t)
  {
  }
}
