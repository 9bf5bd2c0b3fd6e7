/**
 * The enrollment invoice wizard (`edu_create.invoice.wizard`): it resolves a billing
 * partner, then books one journal entry for the fee and links it to the enrollment.
 */
module Invoicing {
  import opened Common
  import opened Records
  import Fees
  import RecordStore

  /** The wizard's fields `action_create_invoice` reads. */
  datatype InvoiceWizard = InvoiceWizard(
    enrollmentId: Option<nat>,
    invoiceDate: Option<int>,
    periodStart: Option<int>,
    periodEnd: Option<int>,
    amount: int,
    accountId: Option<nat>)

  /** The explanation used when the level name and the period give none. */
  const DefaultExplain: string := "Education Fees"

  /**
   * `_entry_explain`: the level name, followed by " (start - end)" when both period
   * dates are set; "Education Fees" when that leaves nothing. `dateText` is the text
   * form Python gives a date.
   */
  function EntryExplain(levelName: string, periodStart: Option<int>, periodEnd: Option<int>,
                        dateText: int -> string): (r: string)
    ensures r != []
    ensures periodStart.Some? && periodEnd.Some? ==>
              r == levelName + " (" + dateText(periodStart.value) + " - " + dateText(periodEnd.value) + ")"
    ensures !(periodStart.Some? && periodEnd.Some?) ==> r == if levelName == [] then DefaultExplain else levelName
  {
    var name := if periodStart.Some? && periodEnd.Some?
                then levelName + " (" + dateText(periodStart.value) + " - " + dateText(periodEnd.value) + ")"
                else levelName;
    if name == [] then DefaultExplain else name
  }

  /** The default explanation appears only without a complete period and without a level name. */
  lemma ExplainFallback(levelName: string, periodStart: Option<int>, periodEnd: Option<int>, dateText: int -> string)
    requires levelName != DefaultExplain
    ensures EntryExplain(levelName, periodStart, periodEnd, dateText) == DefaultExplain <==>
            levelName == [] && !(periodStart.Some? && periodEnd.Some?)
  {
    if periodStart.Some? && periodEnd.Some? {
      var r := EntryExplain(levelName, periodStart, periodEnd, dateText);
      assert r[|levelName| + 1] == '(';
      assert forall i :: 0 <= i < |DefaultExplain| ==> DefaultExplain[i] != '(';
    }
  }

  /**
   * `_get_default_account`: the configured account id, absent when the parameter is 0.
   * Any positive id is taken, whether or not an account is stored under it.
   */
  function DefaultAccount(cfg: Config): (r: Option<nat>)
    ensures cfg.defaultFeeAccount > 0 <==> r.Some?
    ensures r.Some? ==> r.value == cfg.defaultFeeAccount
  {
    if cfg.defaultFeeAccount > 0 then Some(cfg.defaultFeeAccount) else None
  }

  /** The result of `_get_billing_partner`: the partner and the records after it. */
  datatype Billing = Billing(partnerId: nat, students: seq<Student>, guardians: seq<Guardian>, partners: seq<Partner>)

  /** Student `sid` is stored and all its guardians are. */
  predicate GuardiansStored(students: seq<Student>, guardians: seq<Guardian>, sid: nat) {
    sid < |students| && forall k :: 0 <= k < |students[sid].guardianIds| ==> students[sid].guardianIds[k] < |guardians|
  }

  /** `guardian_ids.filtered("partner_id")[:1]`: the position of the first guardian with a partner. */
  function FirstWithPartner(guardians: seq<Guardian>, ids: seq<nat>): (r: Option<nat>)
    requires forall k :: 0 <= k < |ids| ==> ids[k] < |guardians|
    ensures r.Some? ==> r.value < |ids| && guardians[ids[r.value]].partnerId.Some?
    ensures r.Some? ==> forall k :: 0 <= k < r.value ==> guardians[ids[k]].partnerId.None?
    ensures r.None? ==> forall k :: 0 <= k < |ids| ==> guardians[ids[k]].partnerId.None?
    decreases |ids|
  {
    if ids == [] then None
    else if guardians[ids[0]].partnerId.Some? then Some(0)
    else
      var r := FirstWithPartner(guardians, ids[1..]);
      if r.Some? then Some(r.value + 1) else None
  }

  /**
   * `_get_billing_partner` on the records: the student's partner; else the first
   * guardian's partner; else a new partner made from the first guardian and stored on
   * it; else a new partner made from the student and stored on the student.
   */
  function BillingPartner(students: seq<Student>, guardians: seq<Guardian>, partners: seq<Partner>, sid: nat): Billing
    requires GuardiansStored(students, guardians, sid)
  {
    var st := students[sid];
    if st.partnerId.Some? then Billing(st.partnerId.value, students, guardians, partners)
    else
      var f := FirstWithPartner(guardians, st.guardianIds);
      if f.Some? then Billing(guardians[st.guardianIds[f.value]].partnerId.value, students, guardians, partners)
      else if st.guardianIds != [] then
        var g := st.guardianIds[0];
        var gd := guardians[g];
        Billing(|partners|, students, guardians[g := gd.(partnerId := Some(|partners|))],
                partners + [Partner(gd.name, gd.phone, gd.email)])
      else
        Billing(|partners|, students[sid := st.(partnerId := Some(|partners|))], guardians,
                partners + [Partner(st.name, st.phone, st.email)])
  }

  /**
   * The resolution created a partner: neither the student nor any of its guardians
   * had one, exactly one partner was appended, and it is recorded on the first
   * guardian, or on the student when it has no guardian.
   */
  predicate CreatedPartner(students: seq<Student>, guardians: seq<Guardian>, partners: seq<Partner>, sid: nat, b: Billing)
    requires GuardiansStored(students, guardians, sid)
  {
    var st := students[sid];
    && b.partnerId == |partners| && |b.partners| == |partners| + 1 && b.partners[..|partners|] == partners
    && st.partnerId.None?
    && (forall k :: 0 <= k < |st.guardianIds| ==> guardians[st.guardianIds[k]].partnerId.None?)
    && sid < |b.students| && (forall k :: 0 <= k < |st.guardianIds| ==> st.guardianIds[k] < |b.guardians|)
    && (if st.guardianIds == [] then b.students[sid].partnerId == Some(b.partnerId)
        else b.guardians[st.guardianIds[0]].partnerId == Some(b.partnerId))
  }

  /**
   * The four steps of the chain, in order: the student's own partner; else the
   * partner of the first guardian that has one; else a new partner with the first
   * guardian's name, phone and email, recorded on that guardian; else a new partner
   * with the student's name, phone and email, recorded on the student. The first two
   * change no record.
   */
  lemma BillingChain(students: seq<Student>, guardians: seq<Guardian>, partners: seq<Partner>, sid: nat)
    requires GuardiansStored(students, guardians, sid)
    ensures var b := BillingPartner(students, guardians, partners, sid);
            var st := students[sid];
            && (st.partnerId.Some? ==> b == Billing(st.partnerId.value, students, guardians, partners))
            && (st.partnerId.None? && (exists k :: 0 <= k < |st.guardianIds| && guardians[st.guardianIds[k]].partnerId.Some?) ==>
                  && (b.students, b.guardians, b.partners) == (students, guardians, partners)
                  && exists k :: 0 <= k < |st.guardianIds| && guardians[st.guardianIds[k]].partnerId == Some(b.partnerId)
                       && forall j :: 0 <= j < k ==> guardians[st.guardianIds[j]].partnerId.None?)
            && (st.partnerId.None? && st.guardianIds != [] &&
                (forall k :: 0 <= k < |st.guardianIds| ==> guardians[st.guardianIds[k]].partnerId.None?) ==>
                  var gd := guardians[st.guardianIds[0]];
                  && b.partnerId == |partners| && b.partners == partners + [Partner(gd.name, gd.phone, gd.email)]
                  && b.students == students && b.guardians == guardians[st.guardianIds[0] := gd.(partnerId := Some(|partners|))])
            && (st.partnerId.None? && st.guardianIds == [] ==>
                  && b.partnerId == |partners| && b.partners == partners + [Partner(st.name, st.phone, st.email)]
                  && b.guardians == guardians && b.students == students[sid := st.(partnerId := Some(|partners|))])
  {
    var st := students[sid];
    var f := FirstWithPartner(guardians, st.guardianIds);
    if st.partnerId.None? && exists k :: 0 <= k < |st.guardianIds| && guardians[st.guardianIds[k]].partnerId.Some? {
      assert f.Some?;
    }
  }

  /**
   * Resolution either reuses a stored partner, changing nothing, or appends exactly
   * one partner and records it on the first guardian, or (without guardians) on the
   * student; every other record is left as it was, and the student's guardian list
   * is kept.
   */
  lemma BillingPartnerSpec(students: seq<Student>, guardians: seq<Guardian>, partners: seq<Partner>, sid: nat)
    requires GuardiansStored(students, guardians, sid)
    ensures var b := BillingPartner(students, guardians, partners, sid);
            var st := students[sid];
            && |b.students| == |students| && |b.guardians| == |guardians|
            && b.students[sid].guardianIds == st.guardianIds
            && (forall i :: 0 <= i < |students| && i != sid ==> b.students[i] == students[i])
            && (forall i :: 0 <= i < |guardians| && (st.guardianIds == [] || i != st.guardianIds[0]) ==> b.guardians[i] == guardians[i])
            && ((b.students, b.guardians, b.partners) == (students, guardians, partners) ||
                CreatedPartner(students, guardians, partners, sid, b))
  {
    var st := students[sid];
    if st.partnerId.None? && FirstWithPartner(guardians, st.guardianIds).None? {
      var b := BillingPartner(students, guardians, partners, sid);
      assert b.partners[..|partners|] == partners;
    }
  }

  /**
   * The partner is written back, so resolving again returns the same partner and
   * creates nothing.
   */
  lemma BillingIdempotent(students: seq<Student>, guardians: seq<Guardian>, partners: seq<Partner>, sid: nat)
    requires GuardiansStored(students, guardians, sid)
    ensures var b := BillingPartner(students, guardians, partners, sid);
            GuardiansStored(b.students, b.guardians, sid) &&
            BillingPartner(b.students, b.guardians, b.partners, sid) == b
  {
    var st := students[sid];
    var b := BillingPartner(students, guardians, partners, sid);
    BillingPartnerSpec(students, guardians, partners, sid);
    if st.partnerId.None? && FirstWithPartner(guardians, st.guardianIds).None? && st.guardianIds != [] {
      assert FirstWithPartner(b.guardians, st.guardianIds) == Some(0);
    }
  }

  /**
   * The "no billing partner" refusal never fires: when the stored partner references
   * are valid, the resolved partner is a stored partner.
   */
  lemma BillingPartnerExists(students: seq<Student>, guardians: seq<Guardian>, partners: seq<Partner>, sid: nat)
    requires GuardiansStored(students, guardians, sid)
    requires students[sid].partnerId.Some? ==> students[sid].partnerId.value < |partners|
    requires forall g :: 0 <= g < |guardians| && guardians[g].partnerId.Some? ==> guardians[g].partnerId.value < |partners|
    ensures var b := BillingPartner(students, guardians, partners, sid);
            b.partnerId < |b.partners|
  {
  }

  /** `_get_billing_partner` on the store. */
  method GetBillingPartner(db: RecordStore.Store, sid: nat) returns (pid: nat)
    requires GuardiansStored(db.students, db.guardians, sid)
    modifies db`students, db`guardians, db`partners
    ensures var b := BillingPartner(old(db.students), old(db.guardians), old(db.partners), sid);
            pid == b.partnerId && db.students == b.students && db.guardians == b.guardians && db.partners == b.partners
  {
    var st := db.students[sid];
    if st.partnerId.Some? {
      return st.partnerId.value;
    }
    var f := FirstWithPartner(db.guardians, st.guardianIds);
    if f.Some? {
      return db.guardians[st.guardianIds[f.value]].partnerId.value;
    }
    pid := |db.partners|;
    if st.guardianIds != [] {
      var g := st.guardianIds[0];
      var gd := db.guardians[g];
      db.partners := db.partners + [Partner(gd.name, gd.phone, gd.email)];
      db.guardians := db.guardians[g := gd.(partnerId := Some(pid))];
    } else {
      db.partners := db.partners + [Partner(st.name, st.phone, st.email)];
      db.students := db.students[sid := st.(partnerId := Some(pid))];
    }
  }

  /** The wizard's enrollment, absent when the field is empty or names no stored enrollment. */
  function EnrollmentOf(enrollments: seq<Enrollment>, w: InvoiceWizard): Option<Enrollment> {
    if w.enrollmentId.Some? && w.enrollmentId.value < |enrollments| then Some(enrollments[w.enrollmentId.value]) else None
  }

  /** The account: the wizard's own, else the configured default. */
  function InvoiceAccount(cfg: Config, w: InvoiceWizard): (r: Option<nat>)
    ensures w.accountId.Some? ==> r == w.accountId
    ensures r.None? <==> w.accountId.None? && cfg.defaultFeeAccount <= 0
  {
    if w.accountId.Some? then w.accountId else DefaultAccount(cfg)
  }

  /** The amount: the wizard's own when nonzero, else the amount of the enrollment's fee plan (0 without one). */
  function InvoiceAmount(plans: seq<FeePlan>, e: Enrollment, w: InvoiceWizard): (r: int)
    ensures w.amount != 0 ==> r == w.amount
    ensures r == 0 <==>
              w.amount == 0 && (e.feePlanId.None? || e.feePlanId.value >= |plans| || plans[e.feePlanId.value].amount == 0)
  {
    if w.amount != 0 then w.amount
    else if e.feePlanId.Some? && e.feePlanId.value < |plans| then plans[e.feePlanId.value].amount
    else 0
  }

  /**
   * The refusals of `action_create_invoice`, in the order it checks them: no
   * enrollment, then no account, then a zero amount (the partner check between the
   * last two never fails).
   */
  function InvoiceError(enrollments: seq<Enrollment>, plans: seq<FeePlan>, cfg: Config, w: InvoiceWizard): (r: Option<Error>)
    ensures r == Some(EnrollmentRequired) <==> EnrollmentOf(enrollments, w).None?
    ensures r == Some(AccountRequired) <==> EnrollmentOf(enrollments, w).Some? && InvoiceAccount(cfg, w).None?
    ensures r == Some(AmountRequired) <==>
              EnrollmentOf(enrollments, w).Some? && InvoiceAccount(cfg, w).Some? &&
              InvoiceAmount(plans, EnrollmentOf(enrollments, w).value, w) == 0
    ensures r.Some? ==> r.value in {EnrollmentRequired, AccountRequired, AmountRequired}
  {
    var e := EnrollmentOf(enrollments, w);
    if e.None? then Some(EnrollmentRequired)
    else if InvoiceAccount(cfg, w).None? then Some(AccountRequired)
    else if InvoiceAmount(plans, e.value, w) == 0 then Some(AmountRequired)
    else None
  }

  /**
   * The entry `action_create_invoice` books: the whole amount as debit, no credit,
   * due at the period end, else at the invoice date.
   */
  function EntryFor(account: nat, partner: nat, w: InvoiceWizard, amount: int, explain: string): (e: Entry)
    ensures e.accountId == account && e.partnerId == partner && e.explain == explain
    ensures e.debit == amount && e.credit == 0 && e.debit - e.credit == amount
    ensures e.dueDate == if w.periodEnd.Some? then w.periodEnd else w.invoiceDate
  {
    Entry(account, partner, if w.periodEnd.Some? then w.periodEnd else w.invoiceDate, amount, 0, explain)
  }

  /** The link tying entry `entryId` to enrollment `eid`, its overdue fields computed on `today`. */
  function LinkFor(eid: nat, entryId: nat, entry: Entry, today: int): (l: InvoiceLink)
    ensures l.enrollmentId == eid && l.entryId == entryId
    ensures l.dueDate == entry.dueDate && l.debit == entry.debit && l.credit == entry.credit
    ensures Fees.ComputedOn(l, today)
  {
    var o := Fees.LinkOverdue(entry.debit, entry.credit, entry.dueDate, today);
    InvoiceLink(eid, entryId, entry.dueDate, entry.debit, entry.credit, o.0, o.1)
  }

  /** A fresh fee link due in the future (or with nothing owed) is not overdue. */
  lemma NewLinkNotOverdue(eid: nat, entryId: nat, entry: Entry, today: int)
    requires entry.dueDate.None? || today <= entry.dueDate.value || entry.debit <= entry.credit
    ensures !LinkFor(eid, entryId, entry, today).isOverdue && LinkFor(eid, entryId, entry, today).overdueDays == 0
  {
  }

  /** The level name of an enrollment, empty when the level is not stored. */
  function LevelName(levels: seq<Level>, e: Enrollment): string {
    if e.levelId < |levels| then levels[e.levelId].name else ""
  }

  /**
   * `action_create_invoice`: one transaction. A refusal leaves every record as it
   * was, including a partner the resolution created before the amount check. On
   * success it resolves the partner, books exactly one entry and one link.
   */
  method ActionCreateInvoice(db: RecordStore.Store, cfg: Config, w: InvoiceWizard, today: int, dateText: int -> string)
    returns (r: Result<nat>)
    requires EnrollmentOf(db.enrollments, w).Some? ==>
               GuardiansStored(db.students, db.guardians, EnrollmentOf(db.enrollments, w).value.studentId)
    modifies db`students, db`guardians, db`partners, db`entries, db`links
    ensures var err := InvoiceError(db.enrollments, db.plans, cfg, w);
            && (r.Err? <==> err.Some?)
            && (r.Err? ==> r.error == err.value)
    ensures r.Err? ==>
              && db.students == old(db.students) && db.guardians == old(db.guardians) && db.partners == old(db.partners)
              && db.entries == old(db.entries) && db.links == old(db.links)
    ensures r.Ok? ==>
              var e := EnrollmentOf(db.enrollments, w).value;
              var b := BillingPartner(old(db.students), old(db.guardians), old(db.partners), e.studentId);
              var entry := EntryFor(InvoiceAccount(cfg, w).value, b.partnerId, w, InvoiceAmount(db.plans, e, w),
                                    EntryExplain(LevelName(db.levels, e), w.periodStart, w.periodEnd, dateText));
              && r.value == |old(db.entries)|
              && db.students == b.students && db.guardians == b.guardians && db.partners == b.partners
              && db.entries == old(db.entries) + [entry]
              && db.links == old(db.links) + [LinkFor(w.enrollmentId.value, r.value, entry, today)]
  {
    if w.enrollmentId.None? || w.enrollmentId.value >= |db.enrollments| {
      return Err(EnrollmentRequired);
    }
    var eid := w.enrollmentId.value;
    var e := db.enrollments[eid];
    var account := InvoiceAccount(cfg, w);
    if account.None? {
      return Err(AccountRequired);
    }
    var students0, guardians0, partners0 := db.students, db.guardians, db.partners;
    var partner := GetBillingPartner(db, e.studentId);
    var amount := InvoiceAmount(db.plans, e, w);
    if amount == 0 {
      db.students, db.guardians, db.partners := students0, guardians0, partners0;
      return Err(AmountRequired);
    }
    var entry := EntryFor(account.value, partner, w, amount,
                          EntryExplain(LevelName(db.levels, e), w.periodStart, w.periodEnd, dateText));
    db.entries := db.entries + [entry];
    var entryId := |db.entries| - 1;
    db.links := db.links + [LinkFor(eid, entryId, entry, today)];
    r := Ok(entryId);
  }
}
