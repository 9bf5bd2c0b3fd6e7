/** Enrollments (`edu_enrollment`): overdue fees, the creation constraints and the fee-plan default. */
module Enrollments {
  import opened Common
  import opened Records
  import opened ClassGroups
  import Calendar
  import RecordStore

  /** `invoice_link_ids`: the invoice links of enrollment `eid`, in store order. */
  function LinksOf(links: seq<InvoiceLink>, eid: nat): (r: seq<InvoiceLink>)
    ensures forall i :: 0 <= i < |r| ==> r[i] in links && r[i].enrollmentId == eid
    ensures forall i :: 0 <= i < |links| && links[i].enrollmentId == eid ==> links[i] in r
    decreases |links|
  {
    if links == [] then []
    else
      var n := |links| - 1;
      var init := LinksOf(links[..n], eid);
      if links[n].enrollmentId == eid then init + [links[n]] else init
  }

  /** The positions of the stored links that name enrollment `eid`. */
  ghost function LinkIndices(links: seq<InvoiceLink>, eid: nat): set<nat> {
    set i: nat | i < |links| && links[i].enrollmentId == eid
  }

  /** One more stored link adds its position exactly when it names the enrollment. */
  lemma LinkIndicesStep(links: seq<InvoiceLink>, eid: nat)
    requires links != []
    ensures |LinkIndices(links, eid)| ==
            |LinkIndices(links[..|links| - 1], eid)| + (if links[|links| - 1].enrollmentId == eid then 1 else 0)
  {
    var n := |links| - 1;
    var init := links[..n];
    var before := LinkIndices(init, eid);
    var rest: set<nat> := if links[n].enrollmentId == eid then {n} else {};
    forall i | i in LinkIndices(links, eid) ensures i in before + rest {
      if i < n {
        assert init[i] == links[i];
      }
    }
    assert LinkIndices(links, eid) == before + rest;
    assert n !in before;
    assert before * rest == {};
  }

  /** The enrollment's invoice links are as many as the stored links that name it. */
  lemma {:induction false} LinksOfCount(links: seq<InvoiceLink>, eid: nat)
    ensures |LinksOf(links, eid)| == |LinkIndices(links, eid)|
    decreases |links|
  {
    if links != [] {
      LinksOfCount(links[..|links| - 1], eid);
      LinkIndicesStep(links, eid);
    }
  }

  /** `_compute_invoice_count`: the number of stored invoice links that name enrollment `eid`. */
  function InvoiceCount(links: seq<InvoiceLink>, eid: nat): (r: nat)
    ensures r == |LinkIndices(links, eid)|
  {
    LinksOfCount(links, eid);
    |LinksOf(links, eid)|
  }

  /**
   * `overdue_days` after the loop of `_compute_overdue` over `links`: a running maximum,
   * starting at 0, over the links flagged overdue.
   */
  function OverdueDays(links: seq<InvoiceLink>): int
    decreases |links|
  {
    if links == [] then 0
    else
      var m := OverdueDays(links[..|links| - 1]);
      var l := links[|links| - 1];
      if l.isOverdue && l.overdueDays > m then l.overdueDays else m
  }

  /** `has_overdue` after the same loop: set whenever the running maximum is raised. */
  function HasOverdue(links: seq<InvoiceLink>): bool
    decreases |links|
  {
    if links == [] then false
    else
      var l := links[|links| - 1];
      HasOverdue(links[..|links| - 1]) || (l.isOverdue && l.overdueDays > OverdueDays(links[..|links| - 1]))
  }

  /** `overdue_days` is the largest `overdue_days` of a link flagged overdue, and 0 when there is none. */
  lemma {:induction false} OverdueDaysIsMax(links: seq<InvoiceLink>)
    ensures OverdueDays(links) >= 0
    ensures forall i :: 0 <= i < |links| && links[i].isOverdue ==> links[i].overdueDays <= OverdueDays(links)
    ensures OverdueDays(links) == 0 ||
            exists i :: 0 <= i < |links| && links[i].isOverdue && links[i].overdueDays == OverdueDays(links)
    decreases |links|
  {
    if links != [] {
      var n := |links| - 1;
      OverdueDaysIsMax(links[..n]);
      var m := OverdueDays(links[..n]);
      if OverdueDays(links) != 0 && OverdueDays(links) == m {
        var i :| 0 <= i < n && links[..n][i].isOverdue && links[..n][i].overdueDays == m;
        assert links[i] == links[..n][i];
      }
      forall i | 0 <= i < |links| && links[i].isOverdue ensures links[i].overdueDays <= OverdueDays(links) {
        if i < n {
          assert links[i] == links[..n][i];
        }
      }
    }
  }

  /** `has_overdue` holds exactly when some link is flagged overdue with a positive day count. */
  lemma {:induction false} HasOverdueIff(links: seq<InvoiceLink>)
    ensures HasOverdue(links) <==> exists i :: 0 <= i < |links| && links[i].isOverdue && links[i].overdueDays > 0
    decreases |links|
  {
    if links != [] {
      var n := |links| - 1;
      HasOverdueIff(links[..n]);
      OverdueDaysIsMax(links[..n]);
      if HasOverdue(links[..n]) {
        var i :| 0 <= i < n && links[..n][i].isOverdue && links[..n][i].overdueDays > 0;
        assert links[i] == links[..n][i];
      }
      if exists i :: 0 <= i < |links| && links[i].isOverdue && links[i].overdueDays > 0 {
        var i :| 0 <= i < |links| && links[i].isOverdue && links[i].overdueDays > 0;
        if i < n {
          assert links[..n][i] == links[i];
        }
      }
    }
  }

  /**
   * For links whose flag implies positive days (every link whose stored fields were
   * computed, see `Fees.ComputedLinkConsistent`), `has_overdue` is "some link is overdue".
   */
  lemma HasOverdueOfConsistent(links: seq<InvoiceLink>)
    requires forall i :: 0 <= i < |links| && links[i].isOverdue ==> links[i].overdueDays > 0
    ensures HasOverdue(links) <==> exists i :: 0 <= i < |links| && links[i].isOverdue
  {
    HasOverdueIff(links);
  }

  /** The loop of `_compute_overdue` for one enrollment. */
  method ComputeOverdue(links: seq<InvoiceLink>) returns (overdueDays: int, hasOverdue: bool)
    ensures overdueDays == OverdueDays(links) && hasOverdue == HasOverdue(links)
    ensures overdueDays >= 0
    ensures hasOverdue <==> exists i :: 0 <= i < |links| && links[i].isOverdue && links[i].overdueDays > 0
  {
    overdueDays, hasOverdue := 0, false;
    for k := 0 to |links|
      invariant overdueDays == OverdueDays(links[..k]) && hasOverdue == HasOverdue(links[..k])
    {
      assert links[..k + 1][..k] == links[..k];
      var link := links[k];
      if link.isOverdue && link.overdueDays > overdueDays {
        overdueDays := link.overdueDays;
        hasOverdue := true;
      }
    }
    assert links[..|links|] == links;
    OverdueDaysIsMax(links);
    HasOverdueIff(links);
  }

  /** `_check_group_level`: an enrollment in a group has the group's level. */
  predicate GroupLevelOk(groups: seq<ClassGroup>, e: Enrollment) {
    var g := GroupOf(groups, e.groupId);
    g.Some? ==> e.levelId == g.value.levelId
  }

  /**
   * `_check_capacity` for enrollment `i` of `enrollments` (the store after the
   * write): an active enrollment of a group whose capacity is set (nonzero) must not
   * bring the group's active enrollments above it.
   */
  predicate CapacityOk(groups: seq<ClassGroup>, enrollments: seq<Enrollment>, i: nat)
    requires i < |enrollments|
  {
    var e := enrollments[i];
    var g := GroupOf(groups, e.groupId);
    e.status.Active? && g.Some? && g.value.capacity != 0 ==>
      ActiveStudentCount(enrollments, e.groupId.value) <= g.value.capacity
  }

  predicate Ongoing(e: Enrollment) {
    e.status.Active? || e.status.Paused?
  }

  /** Two enrollments of one student at one level that are both active or paused. */
  predicate Rivals(a: Enrollment, b: Enrollment) {
    Ongoing(a) && Ongoing(b) && a.studentId == b.studentId && a.levelId == b.levelId
  }

  /** `_check_unique_active`: no other active or paused enrollment of the same student at the same level. */
  predicate UniqueActiveOk(enrollments: seq<Enrollment>, i: nat)
    requires i < |enrollments|
  {
    forall j :: 0 <= j < |enrollments| && j != i ==> !Rivals(enrollments[i], enrollments[j])
  }

  /**
   * The enrollment constraints for record `i`; `None` when all pass. The ORM runs a
   * model's constraint methods in the order of their names: `_check_capacity`,
   * `_check_dates`, `_check_group_level`, `_check_unique_active`.
   */
  function CheckEnrollment(groups: seq<ClassGroup>, enrollments: seq<Enrollment>, i: nat): (r: Option<Error>)
    requires i < |enrollments|
    ensures r.None? <==>
              && CapacityOk(groups, enrollments, i)
              && Calendar.DateRangeOk(enrollments[i].startDate, enrollments[i].endDate)
              && GroupLevelOk(groups, enrollments[i]) && UniqueActiveOk(enrollments, i)
    ensures r == Some(CapacityExceeded) <==> !CapacityOk(groups, enrollments, i)
    ensures r == Some(DateRangeInvalid) <==>
              CapacityOk(groups, enrollments, i) && !Calendar.DateRangeOk(enrollments[i].startDate, enrollments[i].endDate)
    ensures r == Some(GroupLevelMismatch) <==>
              && CapacityOk(groups, enrollments, i) && Calendar.DateRangeOk(enrollments[i].startDate, enrollments[i].endDate)
              && !GroupLevelOk(groups, enrollments[i])
    ensures r == Some(DuplicateActiveEnrollment) <==>
              && CapacityOk(groups, enrollments, i) && Calendar.DateRangeOk(enrollments[i].startDate, enrollments[i].endDate)
              && GroupLevelOk(groups, enrollments[i]) && !UniqueActiveOk(enrollments, i)
    ensures r.Some? ==> r.value in {CapacityExceeded, DateRangeInvalid, GroupLevelMismatch, DuplicateActiveEnrollment}
  {
    var e := enrollments[i];
    if !CapacityOk(groups, enrollments, i) then Some(CapacityExceeded)
    else if !Calendar.DateRangeOk(e.startDate, e.endDate) then Some(DateRangeInvalid)
    else if !GroupLevelOk(groups, e) then Some(GroupLevelMismatch)
    else if !UniqueActiveOk(enrollments, i) then Some(DuplicateActiveEnrollment)
    else None
  }

  /**
   * `create` of an enrollment: the record is written, its constraints are checked, and
   * a violation rolls the write back.
   */
  method Create(db: RecordStore.Store, e: Enrollment) returns (r: Result<nat>)
    modifies db`enrollments
    ensures var after := old(db.enrollments) + [e];
            var check := CheckEnrollment(db.groups, after, |after| - 1);
            && (r.Ok? <==> check.None?)
            && (r.Ok? ==> r.value == |old(db.enrollments)| && db.enrollments == after)
            && (r.Err? ==> check == Some(r.error) && db.enrollments == old(db.enrollments))
  {
    var after := db.enrollments + [e];
    var check := CheckEnrollment(db.groups, after, |after| - 1);
    if check.Some? {
      return Err(check.value);
    }
    db.enrollments := after;
    r := Ok(|after| - 1);
  }

  /** No group whose capacity is positive holds more active enrollments than its capacity. */
  predicate WithinCapacity(groups: seq<ClassGroup>, enrollments: seq<Enrollment>) {
    forall g :: 0 <= g < |groups| && groups[g].capacity > 0 ==>
      ActiveStudentCount(enrollments, g) <= groups[g].capacity
  }

  /** An enrollment that passes `_check_capacity` keeps every group within its capacity. */
  lemma CreateKeepsCapacity(groups: seq<ClassGroup>, enrollments: seq<Enrollment>, e: Enrollment)
    requires WithinCapacity(groups, enrollments)
    requires CheckEnrollment(groups, enrollments + [e], |enrollments|).None?
    ensures WithinCapacity(groups, enrollments + [e])
  {
    var after := enrollments + [e];
    forall g | 0 <= g < |groups| && groups[g].capacity > 0
      ensures ActiveStudentCount(after, g) <= groups[g].capacity
    {
      CountWhereAppend(enrollments, e, (x: Enrollment) => x.groupId == Some(g) && x.status.Active?);
      assert after[|enrollments|] == e;
    }
  }

  /** At most one active or paused enrollment per student and level. */
  predicate OneOngoingPerLevel(enrollments: seq<Enrollment>) {
    forall i, j :: 0 <= i < j < |enrollments| ==> !Rivals(enrollments[i], enrollments[j])
  }

  /** An enrollment that passes `_check_unique_active` keeps the store free of rival enrollments. */
  lemma CreateKeepsOneOngoing(groups: seq<ClassGroup>, enrollments: seq<Enrollment>, e: Enrollment)
    requires OneOngoingPerLevel(enrollments)
    requires CheckEnrollment(groups, enrollments + [e], |enrollments|).None?
    ensures OneOngoingPerLevel(enrollments + [e])
  {
    var after := enrollments + [e];
    forall i, j | 0 <= i < j < |after| ensures !Rivals(after[i], after[j]) {
      if j == |enrollments| {
        assert UniqueActiveOk(after, j);
        assert !Rivals(after[j], after[i]);
      } else {
        assert after[i] == enrollments[i] && after[j] == enrollments[j];
      }
    }
  }

  /**
   * A group of capacity 1 takes one active enrollment; a second student's active
   * enrollment is rejected as over capacity.
   */
  lemma CapacityScenario()
    ensures var groups := [ClassGroup(0, 1, [], 0, 0, "", None)];
            var e1 := Enrollment(1, 0, Some(0), None, None, EnrollmentStatus.Active, 0, None);
            var e2 := Enrollment(2, 0, Some(0), None, None, EnrollmentStatus.Active, 0, None);
            CheckEnrollment(groups, [e1], 0).None? &&
            CheckEnrollment(groups, [e1, e2], 1) == Some(CapacityExceeded)
  {
    var groups := [ClassGroup(0, 1, [], 0, 0, "", None)];
    var e1 := Enrollment(1, 0, Some(0), None, None, EnrollmentStatus.Active, 0, None);
    var e2 := Enrollment(2, 0, Some(0), None, None, EnrollmentStatus.Active, 0, None);
    var p := (e: Enrollment) => e.groupId == Some(0) && e.status.Active?;
    assert [e1, e2][..1] == [e1];
    assert [e1][..0] == [];
    assert ActiveStudentCount([e1], 0) == 1;
    assert ActiveStudentCount([e1, e2], 0) == 2;
  }

  /** The first active fee plan of `level` in store order. */
  function FirstActivePlan(plans: seq<FeePlan>, level: nat): (r: Option<nat>)
    ensures r.Some? ==> r.value < |plans| && plans[r.value].levelId == Some(level) && plans[r.value].active
    ensures r.Some? ==> forall j :: 0 <= j < r.value ==> !(plans[j].levelId == Some(level) && plans[j].active)
    ensures r.None? ==> forall j :: 0 <= j < |plans| ==> !(plans[j].levelId == Some(level) && plans[j].active)
    decreases |plans|
  {
    if plans == [] then None
    else
      var n := |plans| - 1;
      var r := FirstActivePlan(plans[..n], level);
      if r.Some? then r
      else if plans[n].levelId == Some(level) && plans[n].active then Some(n)
      else None
  }

  /**
   * `_onchange_level_id`: with a level chosen and no fee plan yet, the plan becomes
   * the level's first active plan (if any); a plan already set is kept.
   */
  function FeePlanOnLevelChange(levelId: Option<nat>, feePlanId: Option<nat>, plans: seq<FeePlan>): (r: Option<nat>)
    ensures feePlanId.Some? || levelId.None? ==> r == feePlanId
    ensures feePlanId.None? && levelId.Some? ==> r == FirstActivePlan(plans, levelId.value)
  {
    if levelId.Some? && feePlanId.None? then FirstActivePlan(plans, levelId.value) else feePlanId
  }
}
