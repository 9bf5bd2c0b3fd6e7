/**
 * The record store the ORM provides: one sequence per model, a record's identifier
 * being its position. Creating a record appends it; writing a field replaces the
 * record at its position. The order of a sequence stands for the order in which the
 * ORM returns the records of a relation.
 */
module RecordStore {
  import opened Records
  import AttendanceRules

  class Store {
    var levels: seq<Level>
    var groups: seq<ClassGroup>
    var teachers: seq<Teacher>
    var students: seq<Student>
    var guardians: seq<Guardian>
    var partners: seq<Partner>
    var plans: seq<FeePlan>
    var enrollments: seq<Enrollment>
    var assignments: seq<Assignment>
    var sessions: seq<Session>
    var lines: seq<Attendance>
    var entries: seq<Entry>
    var links: seq<InvoiceLink>

    /** Attendance lines point at stored sessions, name one person each, and are unique. */
    ghost predicate Valid()
      reads this`sessions, this`lines
    {
      AttendanceRules.LinesWellFormed(|sessions|, lines)
    }

    /** An empty database. */
    constructor ()
      ensures Valid()
      ensures levels == [] && groups == [] && teachers == [] && students == [] && guardians == []
      ensures partners == [] && plans == [] && enrollments == [] && assignments == []
      ensures sessions == [] && lines == [] && entries == [] && links == []
    {
      levels, groups, teachers, students, guardians := [], [], [], [], [];
      partners, plans, enrollments, assignments := [], [], [], [];
      sessions, lines, entries, links := [], [], [], [];
    }
  }
}
