/**
 * Date arithmetic used by the recurring-session calendar. A date is a proleptic
 * Gregorian ordinal, as Python's `date.toordinal()` gives it (0001-01-01, a Monday,
 * is ordinal 1), so adding `timedelta(days=k)` is adding `k`.
 */
module Calendar {
  import opened Common

  /** Python's `date.weekday()`: Monday = 0 .. Sunday = 6. */
  function WeekdayOf(day: int): Weekday {
    (day + 6) % 7
  }

  /** Two dates share a weekday exactly when they are a whole number of weeks apart. */
  lemma SameWeekday(x: int, y: int)
    ensures WeekdayOf(x) == WeekdayOf(y) <==> (x - y) % 7 == 0
  {
    var qx, rx := (x + 6) / 7, (x + 6) % 7;
    var qy, ry := (y + 6) / 7, (y + 6) % 7;
    assert x - y == 7 * (qx - qy) + (rx - ry);
    if rx == ry {
      assert (x - y) % 7 == 0;
    } else if rx > ry {
      assert (x - y) % 7 == rx - ry;
    } else {
      assert (x - y) % 7 == rx - ry + 7;
    }
  }

  /** `(weekday - start.weekday()) % 7` of `_create_sessions_for_weekday`. */
  function DaysAhead(start: int, weekday: Weekday): (k: int)
    ensures 0 <= k < 7
  {
    (weekday - WeekdayOf(start)) % 7
  }

  /**
   * The first meeting date: the earliest date on or after `start` that falls on
   * `weekday` (possibly `start` itself).
   */
  function FirstOnOrAfter(start: int, weekday: Weekday): (d: int)
    ensures start <= d < start + 7
    ensures WeekdayOf(d) == weekday
    ensures forall e :: start <= e && WeekdayOf(e) == weekday ==> d <= e
  {
    var d := start + DaysAhead(start, weekday);
    assert WeekdayOf(d) == weekday by {
      var q, r := (start + 6) / 7, (start + 6) % 7;
      assert start + 6 == 7 * q + r;
      if weekday >= r {
        assert d + 6 == 7 * q + weekday;
      } else {
        assert d + 6 == 7 * (q + 1) + weekday;
      }
    }
    forall e | start <= e && WeekdayOf(e) == weekday ensures d <= e {
      SameWeekday(d, e);
    }
    d
  }

  /** The `weeks` candidate dates `first + 7 * k` for `k` in `range(weeks)`. */
  function Candidates(first: int, weeks: int): (ds: seq<int>)
    ensures |ds| == if weeks <= 0 then 0 else weeks
    ensures forall k :: 0 <= k < |ds| ==> ds[k] == first + 7 * k
  {
    if weeks <= 0 then [] else seq(weeks, k requires 0 <= k < weeks => first + 7 * k)
  }

  predicate StrictlyIncreasing(ds: seq<int>) {
    forall i, j :: 0 <= i < j < |ds| ==> ds[i] < ds[j]
  }

  /** Every candidate falls on the weekday of the first date, one week after the previous one. */
  lemma CandidatesShape(first: int, weeks: int)
    ensures StrictlyIncreasing(Candidates(first, weeks))
    ensures forall k :: 0 <= k < |Candidates(first, weeks)| ==>
              Candidates(first, weeks)[k] >= first && WeekdayOf(Candidates(first, weeks)[k]) == WeekdayOf(first)
    ensures forall k :: 0 < k < |Candidates(first, weeks)| ==>
              Candidates(first, weeks)[k] == Candidates(first, weeks)[k - 1] + 7
  {
    var ds := Candidates(first, weeks);
    forall k | 0 <= k < |ds| ensures WeekdayOf(ds[k]) == WeekdayOf(first) {
      SameWeekday(ds[k], first);
      assert ds[k] - first == 7 * k;
    }
  }

  /**
   * The candidates not already taken, in order: the loop of `_create_sessions_for_weekday`
   * skips a date found in `existing` and keeps the others.
   */
  function Fresh(ds: seq<int>, existing: set<int>): (r: seq<int>)
    ensures |r| <= |ds|
    ensures forall i :: 0 <= i < |r| ==> r[i] in ds && r[i] !in existing
    decreases |ds|
  {
    if ds == [] then []
    else
      var init := Fresh(ds[..|ds| - 1], existing);
      var d := ds[|ds| - 1];
      if d in existing then init else init + [d]
  }

  /** One more week: its candidate date is kept unless it is taken. */
  lemma FreshStep(first: int, week: nat, existing: set<int>)
    requires week > 0
    ensures var d := first + 7 * (week - 1);
            Fresh(Candidates(first, week), existing) ==
            Fresh(Candidates(first, week - 1), existing) + (if d in existing then [] else [d])
  {
    assert Candidates(first, week)[..week - 1] == Candidates(first, week - 1);
  }

  /** The dates the first `week` iterations of `for week in range(weeks)` keep, walked one week at a time. */
  function WeekDates(first: int, existing: set<int>, week: nat): seq<int> {
    if week == 0 then []
    else
      var d := first + 7 * (week - 1);
      WeekDates(first, existing, week - 1) + (if d in existing then [] else [d])
  }

  /** Walking the weeks one at a time keeps exactly the untaken candidates. */
  lemma {:induction false} WeekDatesAreFresh(first: int, existing: set<int>, week: nat)
    ensures WeekDates(first, existing, week) == Fresh(Candidates(first, week), existing)
  {
    if week > 0 {
      WeekDatesAreFresh(first, existing, week - 1);
      FreshStep(first, week, existing);
    }
  }

  /** A candidate is kept exactly when it is not taken. */
  lemma {:induction false} FreshComplete(ds: seq<int>, existing: set<int>, d: int)
    requires d in ds && d !in existing
    ensures d in Fresh(ds, existing)
    decreases |ds|
  {
    var init := ds[..|ds| - 1];
    assert ds == init + [ds[|ds| - 1]];
    if d != ds[|ds| - 1] {
      FreshComplete(init, existing, d);
    }
  }

  /** Skipping taken dates keeps the order of the candidates. */
  lemma {:induction false} FreshIncreasing(ds: seq<int>, existing: set<int>)
    requires StrictlyIncreasing(ds)
    ensures StrictlyIncreasing(Fresh(ds, existing))
    decreases |ds|
  {
    if ds != [] {
      var init := ds[..|ds| - 1];
      FreshIncreasing(init, existing);
    }
  }

  /** With nothing taken, every candidate is kept. */
  lemma {:induction false} FreshOfNothing(ds: seq<int>)
    ensures Fresh(ds, {}) == ds
    decreases |ds|
  {
    if ds != [] {
      FreshOfNothing(ds[..|ds| - 1]);
      assert ds == ds[..|ds| - 1] + [ds[|ds| - 1]];
    }
  }

  /** Once every candidate is taken, nothing is left to create. */
  lemma {:induction false} FreshOfCovered(ds: seq<int>, existing: set<int>)
    requires forall i :: 0 <= i < |ds| ==> ds[i] in existing
    ensures Fresh(ds, existing) == []
    decreases |ds|
  {
    if ds != [] {
      FreshOfCovered(ds[..|ds| - 1], existing);
    }
  }

  /**
   * The dates one weekday run of `_create_sessions_for_weekday` creates, given the
   * dates the assignment already holds.
   */
  function RunDates(start: int, weekday: Weekday, weeks: int, existing: set<int>): seq<int> {
    Fresh(Candidates(FirstOnOrAfter(start, weekday), weeks), existing)
  }

  /**
   * At most `weeks` dates, strictly increasing, all on the meeting weekday, on or after
   * the start date, none already taken, and every untaken candidate is created.
   */
  lemma RunDatesSpec(start: int, weekday: Weekday, weeks: int, existing: set<int>)
    ensures |RunDates(start, weekday, weeks, existing)| <= if weeks <= 0 then 0 else weeks
    ensures StrictlyIncreasing(RunDates(start, weekday, weeks, existing))
    ensures forall i :: 0 <= i < |RunDates(start, weekday, weeks, existing)| ==>
              var d := RunDates(start, weekday, weeks, existing)[i];
              start <= d && WeekdayOf(d) == weekday && d !in existing
    ensures forall k :: 0 <= k < weeks && FirstOnOrAfter(start, weekday) + 7 * k !in existing ==>
              FirstOnOrAfter(start, weekday) + 7 * k in RunDates(start, weekday, weeks, existing)
  {
    var first := FirstOnOrAfter(start, weekday);
    var ds := Candidates(first, weeks);
    CandidatesShape(first, weeks);
    FreshIncreasing(ds, existing);
    forall k | 0 <= k < weeks && first + 7 * k !in existing
      ensures first + 7 * k in RunDates(start, weekday, weeks, existing)
    {
      assert ds[k] == first + 7 * k;
      FreshComplete(ds, existing, first + 7 * k);
    }
  }

  /** Wednesday runs from Monday 2024-01-01 (ordinal 738886) for three weeks: 3, 10 and 17 January. */
  lemma WednesdayExample()
    ensures RunDates(738886, 2, 3, {}) == [738888, 738895, 738902]
  {
    assert WeekdayOf(738886) == 0;
    assert FirstOnOrAfter(738886, 2) == 738888;
    FreshOfNothing(Candidates(738888, 3));
    assert Candidates(738888, 3) == [738888, 738895, 738902];
  }

  /** `_check_dates`: an end date before the start date is rejected when both are set. */
  predicate DateRangeOk(start: Option<int>, end: Option<int>) {
    !(start.Some? && end.Some? && end.value < start.value)
  }
}
