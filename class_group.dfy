/** Class groups (`edu_class_group`): student counts, teachers and the capacity rule. */
module ClassGroups {
  import opened Common
  import opened Records

  /** The group record a Many2one names, `None` when the field is empty or names no stored group. */
  function GroupOf(groups: seq<ClassGroup>, groupId: Option<nat>): Option<ClassGroup> {
    if groupId.Some? && groupId.value < |groups| then Some(groups[groupId.value]) else None
  }

  /** `total_student_count`: the enrollments of group `g`, whatever their status. */
  function TotalStudentCount(enrollments: seq<Enrollment>, g: nat): nat {
    CountWhere(enrollments, (e: Enrollment) => e.groupId == Some(g))
  }

  /** `active_student_count`: the enrollments of group `g` whose status is active. */
  function ActiveStudentCount(enrollments: seq<Enrollment>, g: nat): nat {
    CountWhere(enrollments, (e: Enrollment) => e.groupId == Some(g) && e.status.Active?)
  }

  /** A group never has more active students than enrollments. */
  lemma ActiveAtMostTotal(enrollments: seq<Enrollment>, g: nat)
    ensures ActiveStudentCount(enrollments, g) <= TotalStudentCount(enrollments, g)
  {
    CountWhereMonotone(enrollments,
      (e: Enrollment) => e.groupId == Some(g) && e.status.Active?,
      (e: Enrollment) => e.groupId == Some(g));
  }

  /**
   * The students of the group's active enrollments, in enrollment order (before the
   * recordset union removes repeats).
   */
  function ActiveStudents(enrollments: seq<Enrollment>, g: nat): (r: seq<nat>)
    ensures forall i :: 0 <= i < |r| ==>
              exists j :: 0 <= j < |enrollments| && enrollments[j].groupId == Some(g)
                && enrollments[j].status.Active? && enrollments[j].studentId == r[i]
    ensures forall j :: (0 <= j < |enrollments| && enrollments[j].groupId == Some(g)
              && enrollments[j].status.Active?) ==> enrollments[j].studentId in r
    decreases |enrollments|
  {
    if enrollments == [] then []
    else
      var n := |enrollments| - 1;
      var init := ActiveStudents(enrollments[..n], g);
      var e := enrollments[n];
      if e.groupId == Some(g) && e.status.Active? then init + [e.studentId] else init
  }

  /** There are as many active students, counted with repeats, as the group's active count. */
  lemma {:induction false} ActiveStudentsCount(enrollments: seq<Enrollment>, g: nat)
    ensures |ActiveStudents(enrollments, g)| == ActiveStudentCount(enrollments, g)
    decreases |enrollments|
  {
    if enrollments != [] {
      ActiveStudentsCount(enrollments[..|enrollments| - 1], g);
    }
  }

  /** `teacher_ids`: the teachers of the group's active assignments. */
  function GroupTeachers(assignments: seq<Assignment>, g: nat): set<nat> {
    set a | a in assignments && a.groupId == Some(g) && a.status.Active? :: a.teacherId
  }

  /** `_check_capacity`: a negative capacity is rejected, zero means no limit. */
  function CheckCapacity(group: ClassGroup): (r: Option<Error>)
    ensures r.None? <==> group.capacity >= 0
  {
    if group.capacity < 0 then Some(CapacityNegative) else None
  }
}
