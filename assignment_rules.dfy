/**
 * The value-level rules of teaching assignments (`edu_assignment`): load units, the
 * target and time constraints, the default end time and the fee-overdue gate.
 */
module AssignmentRules {
  import opened Common
  import opened Records
  import opened ClassGroups
  import Students
  import Enrollments

  /**
   * `load_units`: a group assignment weighs the group's active student count, a
   * student assignment 1, an assignment without a target 0.
   */
  function LoadUnits(a: Assignment, enrollments: seq<Enrollment>): (u: nat)
    ensures a.groupId.Some? ==> u == ActiveStudentCount(enrollments, a.groupId.value)
    ensures a.groupId.None? ==> u == if a.studentId.Some? then 1 else 0
  {
    if a.groupId.Some? then ActiveStudentCount(enrollments, a.groupId.value)
    else if a.studentId.Some? then 1
    else 0
  }

  /** While the enrollments respect capacities, a group assignment weighs at most its group's capacity. */
  lemma LoadUnitsWithinCapacity(a: Assignment, groups: seq<ClassGroup>, enrollments: seq<Enrollment>)
    requires Enrollments.WithinCapacity(groups, enrollments)
    requires a.groupId.Some? && a.groupId.value < |groups| && groups[a.groupId.value].capacity > 0
    ensures LoadUnits(a, enrollments) <= groups[a.groupId.value].capacity
  {
  }

  /** `_check_target`: exactly one of student and class group must be set. */
  function CheckTarget(a: Assignment): (r: Option<Error>)
    ensures r.None? <==> (a.studentId.Some? != a.groupId.Some?)
    ensures r == Some(TargetMissing) <==> a.studentId.None? && a.groupId.None?
    ensures r == Some(TargetBoth) <==> a.studentId.Some? && a.groupId.Some?
  {
    if a.studentId.None? && a.groupId.None? then Some(TargetMissing)
    else if a.studentId.Some? && a.groupId.Some? then Some(TargetBoth)
    else None
  }

  /**
   * `_check_time_range` of assignments and of sessions: when both times are set
   * (nonzero), the end must be after the start.
   */
  predicate TimeRangeOk(start: int, end: int) {
    !(start != 0 && end != 0 && end <= start)
  }

  /** The end time of generated sessions: the given end, else start plus the configured duration. */
  function DefaultEndTime(start: int, end: int, duration: int): (e: int)
    ensures end != 0 ==> e == end
    ensures end == 0 ==> e - start == duration
  {
    if end != 0 then end else start + duration
  }

  /** Times that pass the rule, completed with a positive duration, still pass it. */
  lemma DefaultEndTimePasses(start: int, end: int, duration: int)
    requires TimeRangeOk(start, end) && duration > 0
    ensures TimeRangeOk(start, DefaultEndTime(start, end, duration))
  {
  }

  /** A configured duration of zero turns a start time without an end into an invalid range. */
  lemma ZeroDurationFails(start: int)
    requires start != 0
    ensures !TimeRangeOk(start, DefaultEndTime(start, 0, 0))
  {
  }

  /** `overdue_days` of the student's current enrollment, `None` when there is no current enrollment. */
  function CurrentOverdue(enrollments: seq<Enrollment>, links: seq<InvoiceLink>, sid: nat): (r: Option<int>)
    ensures r.Some? <==> Students.CurrentEnrollment(enrollments, sid).Some?
    ensures r.Some? ==> r.value == Enrollments.OverdueDays(Enrollments.LinksOf(links, Students.CurrentEnrollment(enrollments, sid).value))
  {
    var c := Students.CurrentEnrollment(enrollments, sid);
    if c.Some? then Some(Enrollments.OverdueDays(Enrollments.LinksOf(links, c.value))) else None
  }

  /**
   * `_block_if_overdue` raises: there is a student, blocking is switched on (the
   * parameter is the string "True"), the threshold is nonzero, and the current
   * enrollment's `overdue_days` exceeds it. In every other case the gate lets generation go on.
   */
  predicate OverdueBlocks(cfg: Config, enrollments: seq<Enrollment>, links: seq<InvoiceLink>, student: Option<nat>) {
    && student.Some?
    && cfg.blockSessionsOnOverdue == "True"
    && cfg.maxOverdueDays != 0
    && var o := CurrentOverdue(enrollments, links, student.value);
       o.Some? && o.value > cfg.maxOverdueDays
  }

  /**
   * With a positive threshold the gate blocks exactly when an invoice link of the
   * current enrollment is overdue by more than the threshold.
   */
  lemma {:induction false} BlocksIffLinkOverThreshold(cfg: Config, enrollments: seq<Enrollment>, links: seq<InvoiceLink>, sid: nat)
    requires cfg.blockSessionsOnOverdue == "True" && cfg.maxOverdueDays > 0
    requires Students.CurrentEnrollment(enrollments, sid).Some?
    ensures OverdueBlocks(cfg, enrollments, links, Some(sid)) <==>
              exists i :: 0 <= i < |links| && links[i].enrollmentId == Students.CurrentEnrollment(enrollments, sid).value
                && links[i].isOverdue && links[i].overdueDays > cfg.maxOverdueDays
  {
    var c := Students.CurrentEnrollment(enrollments, sid).value;
    var own := Enrollments.LinksOf(links, c);
    Enrollments.OverdueDaysIsMax(own);
    if OverdueBlocks(cfg, enrollments, links, Some(sid)) {
      var j :| 0 <= j < |own| && own[j].isOverdue && own[j].overdueDays == Enrollments.OverdueDays(own);
      assert own[j] in links;
      var i :| 0 <= i < |links| && links[i] == own[j];
    }
    if exists i :: 0 <= i < |links| && links[i].enrollmentId == c && links[i].isOverdue && links[i].overdueDays > cfg.maxOverdueDays {
      var i :| 0 <= i < |links| && links[i].enrollmentId == c && links[i].isOverdue && links[i].overdueDays > cfg.maxOverdueDays;
      assert links[i] in own;
      var j :| 0 <= j < |own| && own[j] == links[i];
    }
  }

  /** A negative threshold blocks every student who has a current enrollment, overdue or not. */
  lemma NegativeThresholdBlocks(cfg: Config, enrollments: seq<Enrollment>, links: seq<InvoiceLink>, sid: nat)
    requires cfg.blockSessionsOnOverdue == "True" && cfg.maxOverdueDays < 0
    requires Students.CurrentEnrollment(enrollments, sid).Some?
    ensures OverdueBlocks(cfg, enrollments, links, Some(sid))
  {
    Enrollments.OverdueDaysIsMax(Enrollments.LinksOf(links, Students.CurrentEnrollment(enrollments, sid).value));
  }

  /** The gate never blocks when switched off, with threshold 0, or for a student without a current enrollment. */
  lemma GateOpenCases(cfg: Config, enrollments: seq<Enrollment>, links: seq<InvoiceLink>, sid: nat)
    ensures cfg.blockSessionsOnOverdue != "True" ==> !OverdueBlocks(cfg, enrollments, links, Some(sid))
    ensures cfg.maxOverdueDays == 0 ==> !OverdueBlocks(cfg, enrollments, links, Some(sid))
    ensures Students.CurrentEnrollment(enrollments, sid).None? ==> !OverdueBlocks(cfg, enrollments, links, Some(sid))
    ensures !OverdueBlocks(cfg, enrollments, links, None)
  {
  }
}
