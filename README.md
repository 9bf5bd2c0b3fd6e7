# Islamic education complex: scheduling, placement, attendance and fee rules

This project models the deterministic core of the Odoo module `edu_islamic_complex`, which
manages students, levels, class groups, teaching assignments, sessions, attendance and fees
for a Quran education centre, and proves properties of that model in Dafny.

Modelled:

- **Recurring session generation.** An active assignment produces weekly sessions. It
  starts from the first date on or after the start date that falls on the meeting weekday,
  and skips dates the assignment already holds. Student assignments first pass an
  overdue-fees gate. Group assignments repeat the weekday routine for every day the group
  meets, Monday first.
- **Attendance seeding.** Creating a session adds an absent line for every target student
  not yet covered, and a present line for the teacher when that line is missing. This
  module also models the attendance person rule and the line uniqueness.
- **The placement wizard.** It covers:
  - the placement score and age;
  - the level range lookup with its fallback;
  - teacher scoring, with reverse sorting on `(score, id)`, the `> -100` filter and the top
    five;
  - the action that creates the enrollment and, optionally, the assignment.
- **The invoice wizard.** It covers the validation order, the ledger entry and its invoice
  link, the explanation text, the default account, and the four-step billing-partner chain,
  which writes the partner it creates back onto the guardian or student.
- **Derived fields and constraints.** These are:
  - overdue days per invoice link and per enrollment;
  - load units and teacher load;
  - group counts and capacity;
  - unique active enrollment;
  - exactly one target;
  - the time-range and date-range rules;
  - teacher sets in both directions;
  - the student's current enrollment, attendance rate and reference number.

Representation:

- **Dates** are day ordinals, as Python's `date.toordinal()` gives them. The weekday is
  `(d + 6) % 7`, with Monday = 0.
- **Times of day** are integer minutes, with 0 meaning unset, as `0.0` is falsy in Python.
  Money is an integer.
- **Configuration parameters** are passed in as a `Config` snapshot.
- **The database** is the class `RecordStore.Store`, with one sequence field per model. A
  record's id is its position in that sequence.
- **Operations that create records** are methods that modify only the fields they write.
  Each one is proved against a function, and the lemmas are about those functions.
- **Raised errors** are `Err` results. The four user-facing entry points restore every
  field they wrote, as the transaction rollback does:
  `Assignments.Create`, `Assignments.ActionGenerateSessions`,
  `Placement.ActionCreateEnrollment` and `Invoicing.ActionCreateInvoice`.
- **Constraints** (`@api.constrains`) run in method-name order, and the first one that
  fails decides the error.
- **The attendance invariant** `RecordStore.Store.Valid` says that attendance lines point at
  stored sessions, name one person each, and are unique. Every method that creates
  sessions or lines requires it and keeps it.
- **Computed numbers** use the unbounded types `int` and `real`. The attendance rate is an
  exact `real` where Odoo has a float.

## Model

| member | source | states |
|---|---|---|
| Common.Dedup | edu_islamic_complex/models/session.py:93-98 | The recordset of target students holds each student once, and only the students of the list. |
| Calendar.SameWeekday | edu_islamic_complex/models/assignment.py:189-190 | Two dates share a weekday exactly when they are a whole number of weeks apart. |
| Calendar.DaysAhead | edu_islamic_complex/models/assignment.py:189 | `(weekday - start.weekday()) % 7` lies in 0..6. |
| Calendar.FirstOnOrAfter | edu_islamic_complex/models/assignment.py:185-190 | The first date is the earliest date at or after the start with the requested weekday, and at most six days later. |
| Calendar.Candidates | edu_islamic_complex/models/assignment.py:196-197 | `weeks` candidates `first + 7k`, and none when `weeks <= 0`. |
| Calendar.CandidatesShape | edu_islamic_complex/models/assignment.py:196-197 | The candidates strictly increase, one week apart, all on the first date's weekday. |
| Calendar.Fresh | edu_islamic_complex/models/assignment.py:196-199 | The kept dates are candidates that are not already taken. |
| Calendar.WeekDatesAreFresh | edu_islamic_complex/models/assignment.py:196-199 | Walking `for week in range(weeks)` one week at a time keeps exactly the untaken candidates. |
| Calendar.FreshComplete | edu_islamic_complex/models/assignment.py:198-199 | Every untaken candidate is kept. |
| Calendar.FreshIncreasing | edu_islamic_complex/models/assignment.py:196-199 | Skipping taken dates keeps them in increasing order. |
| Calendar.FreshOfNothing | edu_islamic_complex/models/assignment.py:196-199 | With nothing taken, every candidate is kept. |
| Calendar.FreshOfCovered | edu_islamic_complex/models/assignment.py:196-199 | Once every candidate is taken, nothing is left to create. |
| Calendar.RunDatesSpec | edu_islamic_complex/models/assignment.py:185-199 | A run has at most `weeks` dates, in increasing order, each on the weekday at or after the start and not taken, and it includes every untaken candidate. |
| Calendar.DateRangeOk | edu_islamic_complex/models/assignment.py:136-140 | The date rule of `_check_dates`: an end date before the start date is refused when both are set. `Assignments.CheckAssignment` and `Enrollments.CheckEnrollment` state where it applies. |
| Calendar.WednesdayExample | edu_islamic_complex/models/assignment.py:185-199 | Three Wednesdays from Monday 2024-01-01 are 3, 10 and 17 January. |
| AssignmentRules.LoadUnits | edu_islamic_complex/models/assignment.py:104-112 | A group assignment weighs its group's active student count, a student assignment weighs 1, and one with no target weighs 0. |
| AssignmentRules.LoadUnitsWithinCapacity | edu_islamic_complex/models/assignment.py:104-112 | While groups respect their capacity, a group assignment weighs at most that capacity. |
| AssignmentRules.CheckTarget | edu_islamic_complex/models/assignment.py:114-120 | Passes exactly when one of student and group is set; neither gives TargetMissing, both give TargetBoth. |
| AssignmentRules.TimeRangeOk | edu_islamic_complex/models/assignment.py:130-134 | The time-range rule: when both times are set, the end is after the start. Its properties are stated by `AssignmentRules.DefaultEndTimePasses`, `AssignmentRules.ZeroDurationFails` and `Assignments.AddAllOkIff`. |
| AssignmentRules.DefaultEndTime | edu_islamic_complex/models/assignment.py:165-166 | An unset end time becomes the start time plus the configured duration; a set one is kept. |
| AssignmentRules.DefaultEndTimePasses | edu_islamic_complex/models/assignment.py:130-134 | Times that pass the range rule still pass it once completed with a positive duration. |
| AssignmentRules.ZeroDurationFails | edu_islamic_complex/models/assignment.py:162-166 | A configured duration of 0 makes a start time without an end time fail the session time check. |
| AssignmentRules.CurrentOverdue | edu_islamic_complex/models/assignment.py:222-223 | The overdue days are those of the current enrollment, and absent when there is none. |
| AssignmentRules.OverdueBlocks | edu_islamic_complex/models/assignment.py:213-225 | The overdue gate of `_block_if_overdue`. When it refuses and when it lets generation go on is stated by `AssignmentRules.BlocksIffLinkOverThreshold`, `AssignmentRules.NegativeThresholdBlocks` and `AssignmentRules.GateOpenCases`. |
| AssignmentRules.BlocksIffLinkOverThreshold | edu_islamic_complex/models/assignment.py:213-225 | With the gate on and a positive threshold, generation is refused exactly when some overdue link of the current enrollment exceeds the threshold. |
| AssignmentRules.NegativeThresholdBlocks | edu_islamic_complex/models/assignment.py:219-224 | A negative threshold refuses every student who has a current enrollment. |
| AssignmentRules.GateOpenCases | edu_islamic_complex/models/assignment.py:213-225 | The gate never refuses when switched off, with threshold 0, without a current enrollment, or without a student. |
| Assignments.SessionFor | edu_islamic_complex/models/assignment.py:200-211 | The created session carries the assignment, teacher, group, student, date and times. |
| Assignments.Templates | edu_islamic_complex/models/assignment.py:196-211 | One session per kept date. |
| Assignments.TemplatesAt | edu_islamic_complex/models/assignment.py:196-211 | The i-th session is the one for the i-th date. |
| Assignments.TemplatesAppend | edu_islamic_complex/models/assignment.py:196-211 | One more date adds its session at the end. |
| Assignments.AddAll | edu_islamic_complex/models/session.py:42-49 | A chain of `create` calls appends exactly its sessions, or fails with the time-range error. |
| Assignments.TimesOkStep | edu_islamic_complex/models/session.py:122-126 | A chain's times are valid exactly when its prefix's are and the last session's are. |
| Assignments.AddAllOkIff | edu_islamic_complex/models/session.py:122-126 | A chain of creations succeeds exactly when every session has a valid time range. |
| Assignments.AddAllKeepsWellFormed | edu_islamic_complex/models/session.py:42-49 | Creating sessions keeps the attendance invariant of the store. |
| Assignments.AddAllAppend | edu_islamic_complex/models/session.py:42-49 | One more creation continues the chain from where it stopped. |
| Assignments.AddAllConcat | edu_islamic_complex/models/session.py:42-49 | Two chains in a row are the second one started from the first one's result. |
| Assignments.AddAllErrStays | edu_islamic_complex/models/session.py:122-126 | Once a chain fails, later creations do not change the failure. |
| Assignments.WeekdayPlan | edu_islamic_complex/models/assignment.py:183-211 | The sessions `_create_sessions_for_weekday` creates, given the stored sessions. Their properties are stated by `Assignments.WeekdayPlanSpec` and `Assignments.WeekdayPlanIdempotent`. |
| Assignments.WeekdayPlanSpec | edu_islamic_complex/models/assignment.py:183-211 | Each weekday run creates at most `weeks` sessions, in increasing date order. Each is on the weekday, on or after the start date (today when unset), with the given times, on a date the assignment does not yet hold. |
| Assignments.CoveredGrows | edu_islamic_complex/models/assignment.py:191-195 | More sessions hold at least as many candidate dates. |
| Assignments.RunDateHeld | edu_islamic_complex/models/assignment.py:191-199 | A date of a run is held once its sessions are stored. |
| Assignments.HeldStaysHeld | edu_islamic_complex/models/assignment.py:191-195 | A held date stays held when sessions are added. |
| Assignments.CandidateHeld | edu_islamic_complex/models/assignment.py:191-199 | Every candidate of a run is held after the run. |
| Assignments.RunCovers | edu_islamic_complex/models/assignment.py:191-199 | After a run, all its candidates are held. |
| Assignments.WeekdayPlanCoveredEmpty | edu_islamic_complex/models/assignment.py:196-199 | With all candidates held, the weekday run has nothing to create. |
| Assignments.WeekdayPlanIdempotent | edu_islamic_complex/models/assignment.py:191-199 | Planning a weekday again after its sessions are stored finds nothing to create. |
| Assignments.WeekdayRun | edu_islamic_complex/models/assignment.py:183-211 | `_create_sessions_for_weekday` on a schedule. `Assignments.WeekdayRunSpec` and `Assignments.WeekdayRunIdempotent` state its result, and `Assignments.CreateSessionsForWeekday` is proved against it. |
| Assignments.WeekdayRunSpec | edu_islamic_complex/models/assignment.py:183-211 | A weekday run stores exactly its plan. It fails only when it has a session to create and the time range is invalid. |
| Assignments.WeekdayRunIdempotent | edu_islamic_complex/models/assignment.py:191-199 | Running the same weekday twice creates nothing the second time. |
| Assignments.WeekSessionsAreTemplates | edu_islamic_complex/models/assignment.py:196-211 | The week-by-week loop creates the sessions of the dates kept week by week. |
| Assignments.PlanComplete | edu_islamic_complex/models/assignment.py:196-211 | The whole loop creates exactly the weekday plan. |
| Assignments.WeekSessionsGrow | edu_islamic_complex/models/assignment.py:196-211 | The sessions of the first weeks are a prefix of those of the whole loop. |
| Assignments.CreateNext | edu_islamic_complex/models/assignment.py:200-211 | One `create` continues the chain, and leaves the store unchanged on failure. |
| Assignments.CreateWeek | edu_islamic_complex/models/assignment.py:196-211 | One loop iteration either skips a taken date or creates that week's session. |
| Assignments.WeekFailureStays | edu_islamic_complex/models/assignment.py:196-211 | A failure in one week is the failure of the whole loop. |
| Assignments.CreateWeeks | edu_islamic_complex/models/assignment.py:196-211 | The `for week in range(weeks)` loop on the store ends in the state, or fails with the error, of the chain of its sessions. |
| Assignments.CreateSessionsForWeekday | edu_islamic_complex/models/assignment.py:183-211 | `_create_sessions_for_weekday` on the store gives the result of the weekday run, and returns the number of sessions created. |
| Assignments.GroupPlan | edu_islamic_complex/models/assignment.py:169-181 | The sessions the group loop creates through a given weekday. Their properties are stated by `Assignments.GroupPlanGrows`, `Assignments.GroupPlanLength`, `Assignments.GroupPlanSpec` and `Assignments.GroupPlanIdempotent`. |
| Assignments.GroupPlanGrows | edu_islamic_complex/models/assignment.py:177-181 | The plan through an earlier weekday is a prefix of the plan through a later one. |
| Assignments.GroupPlanLength | edu_islamic_complex/models/assignment.py:177-181 | A group creates at most `weeks` sessions for each weekday. |
| Assignments.GroupPlanSpec | edu_islamic_complex/models/assignment.py:169-181 | Every group session belongs to the assignment, carries its teacher, group and times, and is dated on or after the start on a day the group meets. |
| Assignments.GroupPlanCovers | edu_islamic_complex/models/assignment.py:177-181 | After the group run, every flagged weekday's candidates are held. |
| Assignments.GroupPlanCoveredEmpty | edu_islamic_complex/models/assignment.py:177-181 | With every flagged weekday's candidates held, the group run has nothing to create. |
| Assignments.GroupPlanIdempotent | edu_islamic_complex/models/assignment.py:169-181 | Planning the group again after its sessions are stored finds nothing. |
| Assignments.GroupDay | edu_islamic_complex/models/assignment.py:180-181 | One iteration of the weekday loop runs a flagged day, and does nothing on an unflagged one. |
| Assignments.GroupFailureStays | edu_islamic_complex/models/assignment.py:180-181 | A failure on one weekday is the failure of the whole group run. |
| Assignments.GroupSessionsLoop | edu_islamic_complex/models/assignment.py:177-181 | The loop over the group's weekdays on the store gives the result of the group run, succeeding or failing exactly as it does. |
| Assignments.GroupRun | edu_islamic_complex/models/assignment.py:169-181 | The group loop on a schedule. `Assignments.GroupFailureStays` and `Assignments.GroupRunIdempotent` state its result, and `Assignments.GroupSessionsLoop` is proved against it. |
| Assignments.GroupRunIdempotent | edu_islamic_complex/models/assignment.py:169-181 | A second group run changes nothing. |
| Assignments.Generate | edu_islamic_complex/models/assignment.py:146-153 | `_generate_sessions` on a schedule. Its errors, idempotence and invariant are stated by `Assignments.GenerateErrors`, `Assignments.GenerateNothing`, `Assignments.GenerateIdempotent` and `Assignments.GenerateKeepsWellFormed`. |
| Assignments.GenerateErrors | edu_islamic_complex/models/assignment.py:146-167 | Generation fails with OverdueBlocked exactly for an active student assignment with a meeting day whose gate refuses. Any other failure is an invalid time range. |
| Assignments.GenerateNothing | edu_islamic_complex/models/assignment.py:146-158 | Inactive assignments, and student assignments without a meeting day, generate nothing. |
| Assignments.GroupIgnoresOverdue | edu_islamic_complex/models/assignment.py:169-181 | Group generation does not depend on overdue fees. |
| Assignments.GenerateIdempotent | edu_islamic_complex/models/assignment.py:146-199 | Generating twice creates nothing the second time. |
| Assignments.GenerateKeepsWellFormed | edu_islamic_complex/models/assignment.py:146-211 | Generation keeps the store's attendance invariant. |
| Assignments.GroupGeneration | edu_islamic_complex/models/assignment.py:169-181 | `_generate_group_sessions` on a schedule. Its result is stated by `Assignments.GroupGenerationIsPlan`, `Assignments.GroupGenerationLength`, `Assignments.GroupGenerationSpec` and `Assignments.GroupIgnoresOverdue`. |
| Assignments.GroupGenerationIsPlan | edu_islamic_complex/models/assignment.py:169-181 | Group generation appends exactly the group plan, with the group's times and the configured weeks. |
| Assignments.GroupGenerationLength | edu_islamic_complex/models/assignment.py:169-181 | Group generation keeps the stored sessions as a prefix, and adds at most seven times the configured weeks. |
| Assignments.GroupGenerationSpec | edu_islamic_complex/models/assignment.py:169-211 | Each generated group session belongs to the assignment and group, with the group's times, on a meeting day on or after the start date. |
| Assignments.AppendedGroupSessions | edu_islamic_complex/models/assignment.py:169-181 | Sessions appended to the store keep their properties at their new positions. |
| Assignments.StudentRun | edu_islamic_complex/models/assignment.py:155-167 | `_generate_student_sessions` on a schedule. Its result is stated by `Assignments.StudentGenerationIsPlan`, `Assignments.StudentGenerationOrdered` and `Assignments.StudentGenerationSpec`. |
| Assignments.StudentGenerationIsPlan | edu_islamic_complex/models/assignment.py:155-167 | Student generation appends exactly the meeting day's plan, with the default end time. |
| Assignments.StudentGenerationOrdered | edu_islamic_complex/models/assignment.py:155-167 | Student generation keeps the stored sessions as a prefix, adds at most the configured weeks, and adds them in increasing date order. |
| Assignments.AppendedInOrder | edu_islamic_complex/models/assignment.py:196-211 | Appended sessions keep their date order at their new positions. |
| Assignments.StudentGenerationSpec | edu_islamic_complex/models/assignment.py:155-167 | Each generated student session belongs to the assignment and student, with its times, on the meeting day on or after the start date. |
| Assignments.GenerateStudentSessions | edu_islamic_complex/models/assignment.py:155-167 | `_generate_student_sessions` on the store gives the result of student generation. An overdue refusal changes nothing. |
| Assignments.GenerateGroupSessions | edu_islamic_complex/models/assignment.py:169-181 | `_generate_group_sessions` on the store gives the result of group generation. |
| Assignments.GenerateSessions | edu_islamic_complex/models/assignment.py:146-153 | `_generate_sessions` dispatches on status and assignment type, and its result is that of generation. |
| Assignments.ActionGenerateSessions | edu_islamic_complex/models/assignment.py:142-144 | The button's result is that of generation, and a failure leaves the store unchanged. The store's attendance invariant (`RecordStore.Store.Valid`) holds afterwards. |
| Assignments.CheckAssignment | edu_islamic_complex/models/assignment.py:114-140 | The constraints in name order: dates, target, teacher load, then time range. The assignment passes exactly when every rule holds. Each error is given exactly when the rules before it hold and its own rule fails. |
| Assignments.CreateKeepsLoadLimits | edu_islamic_complex/models/assignment.py:122-128 | An assignment that passes the checks keeps every teacher within a nonzero maximum load. |
| Assignments.Create | edu_islamic_complex/models/assignment.py:75-82 | `create` succeeds exactly when the constraints pass and generation succeeds. It then stores the assignment and its generated sessions. A failed check gives the constraint's error, and a failed generation gives the generation error. Either error leaves all three record sets unchanged. The attendance invariant is kept. |
| Assignments.TeacherLoadScenario | edu_islamic_complex/tests/test_constraints.py:37-52 | A second active student for a teacher with maximum load 1 is refused. |
| Assignments.TargetBothScenario | edu_islamic_complex/tests/test_constraints.py:54-62 | An assignment with both a student and a group is refused. |
| AttendanceRules.CheckPerson | edu_islamic_complex/models/attendance.py:45-55 | A line passes exactly when it names the one person its type says, and each error names the rule it breaks. |
| AttendanceRules.DefaultLineNeedsStudent | edu_islamic_complex/models/attendance.py:12-28 | A line with only the defaults (student type, absent) needs a student to pass. |
| AttendanceRules.SqlUniqueIgnoresWellFormed | edu_islamic_complex/models/attendance.py:37-42 | The SQL unique constraint as written never rejects well-formed lines. |
| AttendanceRules.DuplicateLinesPassSqlUnique | edu_islamic_complex/models/attendance.py:37-42 | Two identical student lines for one session pass the SQL constraint. |
| Sessions.Targets | edu_islamic_complex/models/session.py:93-98 | The students a session seeds lines for. Their properties are stated by `Sessions.TargetsSpec`. |
| Sessions.TargetsSpec | edu_islamic_complex/models/session.py:93-98 | With a group, the targets are exactly the students of its active enrollments, each once. Otherwise the target is the session's student, if any. |
| Sessions.StudentSeedSpec | edu_islamic_complex/models/session.py:99-109 | Exactly one absent student line for each target not yet covered, and none for the others. |
| Sessions.StudentSeedStep | edu_islamic_complex/models/session.py:99-109 | One more target adds its line unless the student is already covered. |
| Sessions.StudentSeedCovered | edu_islamic_complex/models/session.py:99-109 | When every target is covered, no student line is added. |
| Sessions.NotExistingHasNoLine | edu_islamic_complex/models/session.py:89-92 | A student outside the covered set has no student line for the session. |
| Sessions.StudentLinesKeepTeacherLines | edu_islamic_complex/models/session.py:110-120 | Adding student lines does not give the session a teacher line. |
| Sessions.SeedLines | edu_islamic_complex/models/session.py:87-120 | The lines `_create_attendance_lines` adds. Their properties are stated by `Sessions.SeedCovers`, `Sessions.SeedIdempotent` and `Sessions.SeedKeepsWellFormed`. |
| Sessions.SeedCovers | edu_islamic_complex/models/session.py:87-120 | After seeding, every target student has a line, and so does the set teacher. |
| Sessions.SeedIdempotent | edu_islamic_complex/models/session.py:87-120 | Seeding a second time adds no line. |
| Sessions.SeedKeepsWellFormed | edu_islamic_complex/models/session.py:87-120 | Seeding keeps lines pointing at stored sessions, each naming one person, with no two lines sharing a key. |
| Sessions.AttendanceCount | edu_islamic_complex/models/session.py:81-84 | `attendance_count`. Its properties are stated by `Sessions.PresentAtMostAttendance` and `Sessions.NewSessionCounts`. |
| Sessions.PresentCount | edu_islamic_complex/models/session.py:81-85 | `present_count`. Its properties are stated by `Sessions.PresentAtMostAttendance` and `Sessions.NewSessionCounts`. |
| Sessions.PresentAtMostAttendance | edu_islamic_complex/models/session.py:81-85 | `present_count <= attendance_count`. |
| Sessions.NewSessionCounts | edu_islamic_complex/models/session.py:81-120 | A new session counts one line per target, none of them present; the teacher line is not counted. |
| Sessions.AddSession | edu_islamic_complex/models/session.py:42-49 | Creating a session fails exactly when the time range is invalid. Otherwise the session is appended with its seeded lines. |
| Sessions.AddSessionKeepsWellFormed | edu_islamic_complex/models/session.py:42-49 | Creating a session keeps the attendance invariant. |
| Sessions.SeedAttendance | edu_islamic_complex/models/session.py:87-120 | `_create_attendance_lines` on the store appends exactly the seeded lines, and keeps the attendance invariant. |
| Sessions.CreateSession | edu_islamic_complex/models/session.py:42-49 | `create` on the store gives the result of `AddSession`, and keeps the store's attendance invariant. |
| Sessions.AssignmentCompany | edu_islamic_complex/models/assignment.py:95-102 | The assignment's company is its group's when that is set. Otherwise it is its student's when that is set, and otherwise the current company. |
| Sessions.SessionCompany | edu_islamic_complex/models/session.py:67-79 | With a stored assignment, the company is the assignment's. Without one it is the group's when set, else the student's when set, else the current company. It is always the current company or a stored group's or student's. |
| Sessions.GeneratedSessionCompany | edu_islamic_complex/models/session.py:67-79 | A generated session has its assignment's company. |
| Enrollments.LinksOf | edu_islamic_complex/models/enrollment.py:41 | The invoice links of an enrollment are exactly the stored links that name it. |
| Enrollments.LinksOfCount | edu_islamic_complex/models/enrollment.py:90-92 | An enrollment has as many invoice links as there are stored links that name it. |
| Enrollments.InvoiceCount | edu_islamic_complex/models/enrollment.py:90-92 | `invoice_count` is the number of stored invoice links that name the enrollment. |
| Enrollments.OverdueDays | edu_islamic_complex/models/enrollment.py:94-104 | The running maximum of `_compute_overdue`. Its properties are stated by `Enrollments.OverdueDaysIsMax`. |
| Enrollments.HasOverdue | edu_islamic_complex/models/enrollment.py:94-104 | The flag of `_compute_overdue`. Its properties are stated by `Enrollments.HasOverdueIff` and `Enrollments.HasOverdueOfConsistent`. |
| Enrollments.OverdueDaysIsMax | edu_islamic_complex/models/enrollment.py:94-104 | `overdue_days` is the largest day count of a link flagged overdue, 0 when there is none, and never negative. |
| Enrollments.HasOverdueIff | edu_islamic_complex/models/enrollment.py:94-104 | `has_overdue` holds exactly when some link is flagged overdue with a positive day count. |
| Enrollments.HasOverdueOfConsistent | edu_islamic_complex/models/enrollment.py:94-104 | With consistently computed links, `has_overdue` holds exactly when some link is overdue. |
| Enrollments.ComputeOverdue | edu_islamic_complex/models/enrollment.py:94-104 | The running-maximum loop computes the maximum and the flag. |
| Enrollments.GroupLevelOk | edu_islamic_complex/models/enrollment.py:53-57 | `_check_group_level`: the chosen group must be of the enrollment's level. `Enrollments.CheckEnrollment` states where it applies. |
| Enrollments.CapacityOk | edu_islamic_complex/models/enrollment.py:59-68 | `_check_capacity`. Its effect is stated by `Enrollments.CreateKeepsCapacity` and `Enrollments.CapacityScenario`. |
| Enrollments.UniqueActiveOk | edu_islamic_complex/models/enrollment.py:70-82 | `_check_unique_active`. Its effect is stated by `Enrollments.CreateKeepsOneOngoing`. |
| Enrollments.CheckEnrollment | edu_islamic_complex/models/enrollment.py:53-88 | The constraints in name order: capacity, dates, group level, then unique active. An enrollment passes exactly when all four rules hold. Each error is given exactly when the rules before it hold and its own rule fails. |
| Enrollments.Create | edu_islamic_complex/models/enrollment.py:46-51 | `create` stores the enrollment when it passes the checks, and otherwise changes nothing. |
| Enrollments.CreateKeepsCapacity | edu_islamic_complex/models/enrollment.py:59-68 | A passing enrollment keeps every group within its nonzero capacity. |
| Enrollments.CreateKeepsOneOngoing | edu_islamic_complex/models/enrollment.py:70-82 | A passing enrollment keeps at most one active or paused enrollment per student and level. |
| Enrollments.CapacityScenario | edu_islamic_complex/tests/test_constraints.py:18-35 | A second active enrollment in a group of capacity 1 is refused. |
| Enrollments.FirstActivePlan | edu_islamic_complex/models/enrollment.py:125-127 | The first active fee plan of the level, or none when the level has no active plan. |
| Enrollments.FeePlanOnLevelChange | edu_islamic_complex/models/enrollment.py:123-130 | The fee plan is filled from the level's first active plan only when none is set. |
| Fees.LinkOverdue | edu_islamic_complex/models/fees.py:48-59 | Overdue exactly with a due date, a positive balance and a day after the due date; the days are `today - due` then, otherwise 0, and never negative. |
| Fees.ComputedLinkConsistent | edu_islamic_complex/models/fees.py:48-59 | A stored link is overdue exactly when its days are positive. |
| Fees.OverdueExample | edu_islamic_complex/models/fees.py:48-59 | A fee of 100 due on 1 January is 30 days overdue on 31 January, and not overdue once paid or on the due date. |
| ClassGroups.TotalStudentCount | edu_islamic_complex/models/class_group.py:52-56 | `total_student_count`, bounded by `ClassGroups.ActiveAtMostTotal`. |
| ClassGroups.ActiveStudentCount | edu_islamic_complex/models/class_group.py:52-56 | `active_student_count`. Its properties are stated by `ClassGroups.ActiveAtMostTotal` and `ClassGroups.ActiveStudentsCount`. |
| ClassGroups.GroupTeachers | edu_islamic_complex/models/class_group.py:58-62 | The teachers of the group's active assignments. `Employees.GroupTeacherDuality` relates them to the teacher side. |
| ClassGroups.ActiveAtMostTotal | edu_islamic_complex/models/class_group.py:52-56 | `active_student_count <= total_student_count`. |
| ClassGroups.ActiveStudents | edu_islamic_complex/models/class_group.py:52-56 | The students of the group's active enrollments, in store order. |
| ClassGroups.ActiveStudentsCount | edu_islamic_complex/models/class_group.py:52-56 | There are as many active students, counted with repeats, as the active count. |
| ClassGroups.CheckCapacity | edu_islamic_complex/models/class_group.py:64-68 | A negative capacity is refused; zero is allowed. |
| Employees.LowerChar | edu_islamic_complex/models/hr_employee.py:45-47 | ASCII capitals map to lower case; every other character is kept. |
| Employees.Lower | edu_islamic_complex/models/hr_employee.py:45-47 | The job name lower-cased character by character, ASCII capitals only, keeping its length. |
| Employees.LowerIdempotent | edu_islamic_complex/models/hr_employee.py:45-47 | Lower-casing twice is lower-casing once. |
| Employees.IsTeacherEffective | edu_islamic_complex/models/hr_employee.py:42-47 | The effective-teacher flag. Its properties are stated by `Employees.TeacherTestIgnoresCase` and `Employees.TeacherTestExamples`. |
| Employees.TeacherTestIgnoresCase | edu_islamic_complex/models/hr_employee.py:42-47 | The effective-teacher test ignores the job name's letter case. |
| Employees.TeacherTestExamples | edu_islamic_complex/models/hr_employee.py:42-47 | "Senior TEACHER" and the Arabic word for teacher qualify, "Accountant" does not, and the flag always qualifies. |
| Employees.CurrentLoad | edu_islamic_complex/models/hr_employee.py:49-58 | A teacher without active assignments has load 0. |
| Employees.CurrentLoadAppend | edu_islamic_complex/models/hr_employee.py:49-58 | A new assignment adds its load units to its teacher's load when active, and nothing otherwise. |
| Employees.StudentOnlyLoad | edu_islamic_complex/models/hr_employee.py:49-58 | With only student assignments, the load is the number of active ones. |
| Employees.AssignedGroups | edu_islamic_complex/models/hr_employee.py:60-71 | The groups of the teacher's active assignments. |
| Employees.AssignedStudents | edu_islamic_complex/models/hr_employee.py:60-71 | The direct students of the teacher's active assignments, and the students of every enrollment in those assignments' groups. |
| Employees.StudentTeacherDuality | edu_islamic_complex/models/hr_employee.py:60-71 | A teacher is among a student's teachers exactly when the student is among the teacher's students. |
| Employees.GroupTeacherDuality | edu_islamic_complex/models/hr_employee.py:60-71 | A teacher is among a group's teachers exactly when the group is among the teacher's groups. |
| Students.CurrentEnrollment | edu_islamic_complex/models/student.py:82-86 | The current enrollment is an active one, first in the `start_date desc` order, with ties going to the earlier record in store order. There is none exactly when no enrollment is active. |
| Students.CurrentLevel | edu_islamic_complex/models/student.py:82-86 | The level of the current enrollment. |
| Students.TeacherIds | edu_islamic_complex/models/student.py:126-136 | The teachers of the student's active assignments, and of active assignments of any group the student is enrolled in. |
| Students.AttendanceCount | edu_islamic_complex/models/student.py:142 | The intended `attendance_count` (see Left out). Its properties are stated by `Students.PresentAtMostAttendance` and `Students.AttendanceRate`. |
| Students.PresentCount | edu_islamic_complex/models/student.py:88-102 | The present student lines. Their properties are stated by `Students.PresentAtMostAttendance` and `Students.AttendanceRate`. |
| Students.PresentAtMostAttendance | edu_islamic_complex/models/student.py:95-102 | Present lines never outnumber the student's lines. |
| Students.PercentBounded | edu_islamic_complex/models/student.py:104-107 | A share of a positive total, as a percentage, lies in [0, 100]. |
| Students.AttendanceRate | edu_islamic_complex/models/student.py:88-107 | The accumulating loop gives `present / total * 100` as an exact `real`, and 0 without lines, so the rate lies in [0, 100]. |
| Students.RefOnCreate | edu_islamic_complex/models/student.py:75-80 | A supplied reference is kept; otherwise the sequence value is drawn. |
| Students.RefOnCreateStable | edu_islamic_complex/models/student.py:75-80 | A reference drawn at creation is kept by a second pass. |
| Placement.AgeYears | edu_islamic_complex/wizard/placement_wizard.py:67-75 | The age is the number of whole 365-day years since the birth date, and 0 without one. |
| Placement.ReadingWeight | edu_islamic_complex/wizard/placement_wizard.py:77-90 | The reading weight is a multiple of 10, at most 30. It is 0 exactly for no reading level or an empty selection. |
| Placement.Score | edu_islamic_complex/wizard/placement_wizard.py:77-90 | The score is twice the memorised ajza plus the age, plus a reading weight of at most 30. |
| Placement.ScoreMonotone | edu_islamic_complex/wizard/placement_wizard.py:77-90 | For the same reading level, each juz adds 2 and each year adds 1, so more of either never lowers the score. |
| Placement.ScoreExample | edu_islamic_complex/wizard/placement_wizard.py:77-90 | Basic reading, three ajza and age ten give 26. |
| Placement.FirstInRange | edu_islamic_complex/wizard/placement_wizard.py:96-103 | The first level by sequence whose range holds the score, or none when no range holds it. |
| Placement.Highest | edu_islamic_complex/wizard/placement_wizard.py:104-105 | The level with the highest sequence. |
| Placement.RecommendLevel | edu_islamic_complex/wizard/placement_wizard.py:92-108 | A level is recommended exactly when an active level exists. |
| Placement.RecommendLevelSpec | edu_islamic_complex/wizard/placement_wizard.py:92-108 | The recommendation is the first range holding the score, and otherwise the highest level. |
| Placement.SelectedLevelSpec | edu_islamic_complex/wizard/placement_wizard.py:107-108 | The compute keeps a chosen level; the onchange then installs any recommendation. |
| Placement.AvailabilityMatch | edu_islamic_complex/wizard/placement_wizard.py:198-213 | `_availability_match`. Its meaning is stated by `Placement.AvailabilityMatchSpec`. |
| Placement.AvailabilityMatchSpec | edu_islamic_complex/wizard/placement_wizard.py:198-213 | A match is exactly a wanted day on which the teacher is available: a group meeting day, else the meeting day. |
| Placement.TeacherScore | edu_islamic_complex/wizard/placement_wizard.py:121-137 | The additive teacher score. Its properties are stated by `Placement.TeacherScoreLoad` and `Placement.GenderRuleSpec`. |
| Placement.TeacherScoreLoad | edu_islamic_complex/wizard/placement_wizard.py:121-137 | A heavier load never raises a teacher's score. |
| Placement.GenderRuleEnabled | edu_islamic_complex/wizard/placement_wizard.py:190-196 | The gender rule is on exactly when the parameter is the string "True". `Placement.GenderRuleSpec` states what it changes. |
| Placement.GenderRuleSpec | edu_islamic_complex/wizard/placement_wizard.py:132-136 | With the rule on, a gender mismatch scores 110 below a match; with the rule off, gender does not count. |
| Placement.InsertSorted | edu_islamic_complex/wizard/placement_wizard.py:138 | Insertion keeps the list reverse-sorted on `(score, id)`. |
| Placement.InsertPerm | edu_islamic_complex/wizard/placement_wizard.py:138 | Insertion adds exactly the one pair. |
| Placement.SortDescSpec | edu_islamic_complex/wizard/placement_wizard.py:138 | `sort(reverse=True)` gives a reverse-sorted permutation. |
| Placement.Keep | edu_islamic_complex/wizard/placement_wizard.py:139 | The filter never lengthens the list. |
| Placement.KeepMembers | edu_islamic_complex/wizard/placement_wizard.py:139 | The filter keeps exactly the pairs scoring above -100. |
| Placement.KeepSorted | edu_islamic_complex/wizard/placement_wizard.py:139 | The filter keeps the order. |
| Placement.AppendBelowSorted | edu_islamic_complex/wizard/placement_wizard.py:139 | A pair below every pair of a reverse-sorted list extends it in order. |
| Placement.KeepAll | edu_islamic_complex/wizard/placement_wizard.py:139 | A list scoring above -100 throughout is kept whole. |
| Placement.TopSpec | edu_islamic_complex/wizard/placement_wizard.py:138-140 | At most five pairs, in order, each above -100 and from the list. Every pair above -100 is either kept or below five kept pairs. |
| Placement.RankingSpec | edu_islamic_complex/wizard/placement_wizard.py:110-137 | The scored list holds exactly the candidate teachers, each with its own score. |
| Placement.SuggestedIds | edu_islamic_complex/wizard/placement_wizard.py:110-140 | The suggested teachers. Their properties are stated by `Placement.SuggestedSpec`, and `Placement.SuggestTeachers` is proved against it. |
| Placement.SuggestedSpec | edu_islamic_complex/wizard/placement_wizard.py:110-140 | At most five suggestions, all candidates scoring above -100, in `(score, id)` descending order. Every other candidate above -100 ranks below five of them. |
| Placement.Ids | edu_islamic_complex/wizard/placement_wizard.py:140 | The ids, in order. |
| Placement.SuggestTeachers | edu_islamic_complex/wizard/placement_wizard.py:110-140 | The scoring loop on the store produces the suggested ids. |
| Placement.EnrollmentFor | edu_islamic_complex/wizard/placement_wizard.py:151-161 | The enrollment is active, for the chosen level and group, with the placement score. |
| Placement.AssignmentFor | edu_islamic_complex/wizard/placement_wizard.py:162-181 | The assignment the action creates. Its properties are stated by `Placement.AssignmentForSpec`. |
| Placement.AssignmentForSpec | edu_islamic_complex/wizard/placement_wizard.py:162-181 | The assignment targets exactly one of group and student, is active and starts today. A group assignment has no student, no meeting day and no times. |
| Placement.ActionCreateEnrollment | edu_islamic_complex/wizard/placement_wizard.py:147-188 | Without a level it raises LevelRequired. Otherwise the result is decided in order. It is the enrollment constraint's error when that check fails. Without an assignment to create, it is the new enrollment's id. With one, it is the assignment constraint's error if that check fails, else the generation error if generation fails, else the enrollment's id. On success the enrollment is stored, and the assignment with its sessions only when asked with a teacher. Any error leaves the store unchanged, and the attendance invariant is kept. |
| Invoicing.EntryExplain | edu_islamic_complex/wizard/create_invoice_wizard.py:72-76 | The explanation is never empty. It is the level name with " (start - end)" when both dates are set, else the level name, else "Education Fees". |
| Invoicing.ExplainFallback | edu_islamic_complex/wizard/create_invoice_wizard.py:72-76 | "Education Fees" appears exactly without a complete period and without a level name. |
| Invoicing.DefaultAccount | edu_islamic_complex/wizard/create_invoice_wizard.py:78-81 | The configured account, absent exactly when the parameter is not positive. |
| Invoicing.FirstWithPartner | edu_islamic_complex/wizard/create_invoice_wizard.py:87-89 | The first guardian with a partner, or none. |
| Invoicing.BillingPartner | edu_islamic_complex/wizard/create_invoice_wizard.py:83-105 | `_get_billing_partner` on the records. Its result is stated by `Invoicing.BillingChain`, `Invoicing.BillingPartnerSpec`, `Invoicing.BillingIdempotent` and `Invoicing.BillingPartnerExists`. |
| Invoicing.BillingChain | edu_islamic_complex/wizard/create_invoice_wizard.py:83-105 | The four steps in order. First the student's own partner is used. Else the partner of the first guardian that has one. Both leave the records unchanged. Else a new partner with the first guardian's name, phone and email is recorded on that guardian. Else a new partner with the student's name, phone and email is recorded on the student. |
| Invoicing.BillingPartnerSpec | edu_islamic_complex/wizard/create_invoice_wizard.py:83-105 | Either a stored partner is reused and nothing changes, or exactly one partner is appended and recorded on the first guardian, or on the student when it has no guardian. No other record changes. |
| Invoicing.BillingIdempotent | edu_islamic_complex/wizard/create_invoice_wizard.py:83-105 | A second resolution returns the same partner and creates nothing. |
| Invoicing.BillingPartnerExists | edu_islamic_complex/wizard/create_invoice_wizard.py:83-105 | The resolved partner is always a stored partner. |
| Invoicing.GetBillingPartner | edu_islamic_complex/wizard/create_invoice_wizard.py:83-105 | `_get_billing_partner` on the store gives the partner and the records of the resolution. |
| Invoicing.InvoiceAccount | edu_islamic_complex/wizard/create_invoice_wizard.py:43-45 | The wizard's own account is used when set. Otherwise the default applies, so there is no account exactly when neither is set. |
| Invoicing.InvoiceAmount | edu_islamic_complex/wizard/create_invoice_wizard.py:49-51 | The wizard's own nonzero amount is used. The amount is 0 exactly when the wizard has none and the enrollment's fee plan gives none. |
| Invoicing.InvoiceError | edu_islamic_complex/wizard/create_invoice_wizard.py:38-51 | The errors in order: no enrollment, then no account (own or default), then a zero amount (own, else the plan's). |
| Invoicing.EntryFor | edu_islamic_complex/wizard/create_invoice_wizard.py:52-60 | The entry debits the amount and credits 0. It is due at the period end, else the invoice date. |
| Invoicing.LinkFor | edu_islamic_complex/wizard/create_invoice_wizard.py:61-63 | The link ties the entry to the enrollment, with its overdue fields computed. |
| Invoicing.NewLinkNotOverdue | edu_islamic_complex/wizard/create_invoice_wizard.py:61-63 | A new link due in the future, or with nothing owed, is not overdue. |
| Invoicing.ActionCreateInvoice | edu_islamic_complex/wizard/create_invoice_wizard.py:38-70 | It fails exactly with the first validation error and then changes nothing. Otherwise it adds exactly one entry and one link. |

## Left out

- `_compute_datetimes` (float hours to a datetime with rounding): times of day are whole minutes, and no datetime is computed.
- The `ir.sequence` names of sessions and enrollments, mail tracking, and the window actions (`action_view_*`, `action_open_placement_wizard`, the enrollment's `action_create_invoice`): these are user-interface and ORM bookkeeping.
- Assignment `write` generating sessions when the status becomes active (edu_islamic_complex/models/assignment.py:84-88): only `create` and the button are modelled.
- `_compute_assignment_type` is read directly as "group set or not".
- The invoice wizard's onchanges (edu_islamic_complex/wizard/create_invoice_wizard.py:22-36): they only prefill form fields.
- Invoicing.ActionCreateInvoice: the "no partner" error is not modelled, because `_get_billing_partner` always returns a partner (`Invoicing.BillingPartnerExists`).
- Invoicing.EntryExplain: the date text of the period is a parameter (`dateText`), as the date formatting is locale code.
- Invoicing.DefaultAccount: a negative account parameter is treated as absent, like 0.
- Invoicing.DefaultAccount: a positive parameter naming no stored account is taken as the account. In the source `browse` of such an id is truthy, and the entry `create` then fails on the required `account_id`; that failure is not modelled.
- The placement result text (`placement_result`) and the `name` of the generated assignment: free text.
- Placement.RecommendLevel: levels with equal `sequence` are taken in store order, as the database returns them.
- Many2many order: ids are kept in store order; `(6, 0, ids)` commands do not preserve order anyway.
- Invoicing.BillingPartner: the "first" guardian is the first of the student's `guardianIds` as stored. In the source, `guardian_ids[0]` and `filtered(...)[:1]` follow the guardian model's own `_order` (by id unless it declares another), and the model assumes `guardianIds` is kept in that order.
- The student's `invoice_count` (edu_islamic_complex/models/student.py:144-145): it maps `invoice_link_ids.invoice_id`, a field the invoice link model does not declare (it declares only `entry_id`). The enrollment's count is `Enrollments.InvoiceCount`.
- Students.AttendanceCount: it models the intended `attendance_count`. As written, `mapped("invoice_link_ids.invoice_id")` looks up the undeclared field and raises, even on empty recordsets. So the whole `_compute_counts` (edu_islamic_complex/models/student.py:138-145) fails, including this count; the model does not capture that failure.
- The dashboard, evaluations, settings and the debugging patches: not part of this model.
- Concurrency: the existing-dates check is read-then-write, and it is modelled sequentially.
- Multi-company record rules and currency: only the company fallback of sessions is modelled.
- Inner operations (`CreateWeeks`, `CreateSessionsForWeekday`, `GroupSessionsLoop`, `GenerateSessions`): they leave the store unspecified on error. The rollback is stated at the four entry points that a user calls.
- Employees.Lower: only the ASCII capitals `A`-`Z` are lowered. Python's `str.lower()` also lowers other capitals, such as 'É' to 'é' and 'Σ' to 'σ', and turns 'İ' into two characters, so the length is not always kept there. The test's result does not change, because "teacher" is ASCII and the Arabic word has no letter case.
- Students.AttendanceRate: the rate is an exact `real`, where the source computes a float (edu_islamic_complex/models/student.py:105); rounding is not modelled.
- Students.CurrentEnrollment: enrollments with equal `start_date` are taken in store order, as the database returns them under `_order = "start_date desc"`.
- Assignments.CheckAssignment and Enrollments.CheckEnrollment: every constraint runs on `create`, whichever fields the values name.

## Findings

| source | as written | input that shows it | evidently intended | confidence | as-written member | corrected member |
|---|---|---|---|---|---|---|
| edu_islamic_complex/models/attendance.py:37-42 | `unique(session_id, person_type, student_id, teacher_id)` | two student lines for session 0 and student 7, both with `teacher_id` NULL; PostgreSQL treats NULLs as distinct, so both are accepted | at most one line per session, person type and person | not executed | AttendanceRules.DuplicateLinesPassSqlUnique | Sessions.SeedKeepsWellFormed |
