/**
 * The records of the education module, as plain values. A Many2one field is an
 * `Option<nat>` holding the identifier of the target record (its position in the
 * store), `None` when empty; a Char field is a `string`, "" when empty; a time of
 * day is an integer number of minutes, 0 when unset (the source's `0.0`); dates are
 * ordinals (see `Calendar`); money is an integer.
 */
module Records {
  import opened Common

  datatype Gender = Male | Female

  /** `edu_level`: placement ranges default to 0..100 and `sequence` to 10. */
  datatype Level = Level(name: string, sequence: int, minScore: int, maxScore: int, active: bool)

  /** `edu_class_group`. */
  datatype ClassGroup = ClassGroup(
    levelId: nat,
    capacity: int,
    meets: DayFlags,
    timeStart: int,
    timeEnd: int,
    location: string,
    companyId: Option<nat>)

  /** `hr.employee` with the teaching fields this module adds. */
  datatype Teacher = Teacher(
    isTeacher: bool,
    jobName: string,
    specializations: set<nat>,
    maxLoad: int,
    available: DayFlags,
    gender: Option<Gender>,
    companyId: Option<nat>,
    active: bool)

  /** `edu_student`. */
  datatype Student = Student(
    name: string,
    studentRef: string,
    gender: Option<Gender>,
    birthDate: Option<int>,
    phone: string,
    email: string,
    partnerId: Option<nat>,
    guardianIds: seq<nat>,
    companyId: Option<nat>)

  /** `edu_guardian`. */
  datatype Guardian = Guardian(name: string, phone: string, email: string, partnerId: Option<nat>)

  /** `res.partner` as the billing code creates it. */
  datatype Partner = Partner(name: string, phone: string, email: string)

  /** `edu_fees.plan`. */
  datatype FeePlan = FeePlan(levelId: Option<nat>, amount: int, accountId: Option<nat>, active: bool)

  datatype EnrollmentStatus = Draft | Active | Paused | Graduated | Cancelled

  /** `edu_enrollment`. */
  datatype Enrollment = Enrollment(
    studentId: nat,
    levelId: nat,
    groupId: Option<nat>,
    startDate: Option<int>,
    endDate: Option<int>,
    status: EnrollmentStatus,
    placementScore: int,
    feePlanId: Option<nat>)

  datatype AssignmentStatus = Draft | Active | Paused | Done | Cancelled

  /** `edu_assignment`. */
  datatype Assignment = Assignment(
    teacherId: nat,
    studentId: Option<nat>,
    groupId: Option<nat>,
    startDate: Option<int>,
    endDate: Option<int>,
    status: AssignmentStatus,
    meetingDay: Option<Weekday>,
    timeStart: int,
    timeEnd: int)

  /** `edu_session`. */
  datatype Session = Session(
    assignmentId: Option<nat>,
    groupId: Option<nat>,
    studentId: Option<nat>,
    teacherId: Option<nat>,
    date: int,
    startTime: int,
    endTime: int,
    location: string)

  datatype PersonType = StudentLine | TeacherLine

  datatype AttendanceStatus = Present | Absent | Late | Excused

  /** `edu_attendance`. */
  datatype Attendance = Attendance(
    sessionId: nat,
    personType: PersonType,
    studentId: Option<nat>,
    teacherId: Option<nat>,
    status: AttendanceStatus)

  /** `ti_accounting_je`. */
  datatype Entry = Entry(accountId: nat, partnerId: nat, dueDate: Option<int>, debit: int, credit: int, explain: string)

  /**
   * `edu_invoice.link`: the related entry fields it stores, and `overdueDays` /
   * `isOverdue`, which are stored computed fields as of the day they were computed.
   */
  datatype InvoiceLink = InvoiceLink(
    enrollmentId: nat,
    entryId: nat,
    dueDate: Option<int>,
    debit: int,
    credit: int,
    overdueDays: int,
    isOverdue: bool)

  /**
   * A snapshot of the `edu_islamic_complex.*` configuration parameters, as their
   * string or integer values (`None` for a parameter that is not set).
   */
  datatype Config = Config(
    blockSessionsOnOverdue: string,
    maxOverdueDays: int,
    recurrenceWeeks: Option<int>,
    sessionDuration: Option<int>,
    enableGenderRules: string,
    defaultFeeAccount: int)
}
