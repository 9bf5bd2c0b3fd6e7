/** Invoice links (`edu_invoice.link`): how many days a fee entry is overdue. */
module Fees {
  import opened Common
  import opened Records

  /**
   * `_compute_overdue` of an invoice link on day `today`: the pair
   * (`overdue_days`, `is_overdue`). An entry is overdue when it has a due date, an
   * unpaid balance (debit - credit > 0) and `today` is strictly after the due date.
   */
  function LinkOverdue(debit: int, credit: int, dueDate: Option<int>, today: int): (r: (int, bool))
    ensures r.0 >= 0
    ensures r.1 <==> dueDate.Some? && debit - credit > 0 && today > dueDate.value
    ensures r.1 <==> r.0 > 0
    ensures r.1 ==> r.0 == today - dueDate.value
    ensures dueDate.None? || debit - credit <= 0 ==> r == (0, false)
  {
    var balance := debit - credit;
    if dueDate.Some? && balance > 0 then
      var delta := today - dueDate.value;
      (if delta > 0 then delta else 0, delta > 0)
    else
      (0, false)
  }

  /** The stored `overdue_days` / `is_overdue` of `link` are those computed on `day`. */
  predicate ComputedOn(link: InvoiceLink, day: int) {
    (link.overdueDays, link.isOverdue) == LinkOverdue(link.debit, link.credit, link.dueDate, day)
  }

  /** A link whose stored fields were computed on some day is overdue exactly when its days are positive. */
  lemma ComputedLinkConsistent(link: InvoiceLink, day: int)
    requires ComputedOn(link, day)
    ensures link.overdueDays >= 0
    ensures link.isOverdue <==> link.overdueDays > 0
  {
  }

  /** A fee due on 2024-01-01 (738886), 100 unpaid, seen on 2024-01-31, is 30 days overdue; once paid it is not. */
  lemma OverdueExample()
    ensures LinkOverdue(100, 0, Some(738886), 738916) == (30, true)
    ensures LinkOverdue(100, 100, Some(738886), 738916) == (0, false)
    ensures LinkOverdue(100, 0, Some(738886), 738886) == (0, false)
  {
  }
}
