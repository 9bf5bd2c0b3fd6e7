/** Shared vocabulary: optional values, error outcomes, weekdays and small sequence helpers. */
module Common {

  /** An optional value; `None` stands for the ORM's empty field (`False`). */
  datatype Option<+T> = None | Some(value: T) {
    function GetOr(default: T): T {
      match this
      case Some(v) => v
      case None => default
    }
  }

  /** The errors the modelled code raises; each is a rolled-back transaction. */
  datatype Error =
    // ValidationError raised by `_check_*` constraints
    | TargetMissing | TargetBoth | TeacherOverloaded | TimeRangeInvalid | DateRangeInvalid
    | GroupLevelMismatch | CapacityExceeded | CapacityNegative | DuplicateActiveEnrollment
    // UserError raised by actions
    | OverdueBlocked | LevelRequired | EnrollmentRequired | AccountRequired | AmountRequired

  datatype Result<+T> = Ok(value: T) | Err(error: Error)

  /** Python's `date.weekday()` range: Monday = 0 .. Sunday = 6. */
  type Weekday = d: int | 0 <= d < 7

  /** A Monday..Sunday table of boolean fields (`meeting_monday`, `available_monday`, ...). */
  type DayFlags = seq<bool>

  /** The flag for weekday `d`; a table shorter than seven days reads as unset. */
  predicate Flag(f: DayFlags, d: int) {
    0 <= d < |f| && f[d]
  }

  /** The record with identifier `id` of a store sequence (identifiers are positions). */
  function Get<T>(s: seq<T>, id: nat): (r: Option<T>)
    ensures r.Some? <==> id < |s|
    ensures r.Some? ==> r.value == s[id]
  {
    if id < |s| then Some(s[id]) else None
  }

  predicate NoDuplicates<T(==)>(s: seq<T>) {
    forall i, j :: 0 <= i < j < |s| ==> s[i] != s[j]
  }

  /**
   * The distinct elements of `s` in order of first occurrence: what a recordset
   * union (`mapped`) yields.
   */
  function Dedup<T(==)>(s: seq<T>): (r: seq<T>)
    ensures forall i :: 0 <= i < |r| ==> r[i] in s
    ensures forall i :: 0 <= i < |s| ==> s[i] in r
    ensures NoDuplicates(r)
    ensures |r| <= |s|
    decreases |s|
  {
    if s == [] then []
    else
      var init := s[..|s| - 1];
      assert s == init + [s[|s| - 1]];
      var r := Dedup(init);
      if s[|s| - 1] in r then r else r + [s[|s| - 1]]
  }

  /** Number of elements of `s` satisfying `p`. */
  function CountWhere<T>(s: seq<T>, p: T -> bool): (n: nat)
    ensures n <= |s|
    decreases |s|
  {
    if s == [] then 0
    else CountWhere(s[..|s| - 1], p) + (if p(s[|s| - 1]) then 1 else 0)
  }

  lemma {:induction false} CountWhereAppend<T>(s: seq<T>, x: T, p: T -> bool)
    ensures CountWhere(s + [x], p) == CountWhere(s, p) + (if p(x) then 1 else 0)
  {
    assert (s + [x])[..|s + [x]| - 1] == s;
  }

  /** Counting is monotone in the predicate. */
  lemma {:induction false} CountWhereMonotone<T>(s: seq<T>, p: T -> bool, q: T -> bool)
    requires forall i :: 0 <= i < |s| && p(s[i]) ==> q(s[i])
    ensures CountWhere(s, p) <= CountWhere(s, q)
    decreases |s|
  {
    if s != [] {
      var init := s[..|s| - 1];
      CountWhereMonotone(init, p, q);
    }
  }

  /** Counting over a concatenation adds the counts of the parts. */
  lemma {:induction false} CountWhereConcat<T>(a: seq<T>, b: seq<T>, p: T -> bool)
    ensures CountWhere(a + b, p) == CountWhere(a, p) + CountWhere(b, p)
    decreases |b|
  {
    if b == [] {
      assert a + b == a;
    } else {
      var n := |b| - 1;
      assert (a + b)[..|a + b| - 1] == a + b[..n];
      CountWhereConcat(a, b[..n], p);
    }
  }

  /** Only the elements satisfying `p` are counted. */
  lemma {:induction false} CountWhereNone<T>(s: seq<T>, p: T -> bool)
    requires forall i :: 0 <= i < |s| ==> !p(s[i])
    ensures CountWhere(s, p) == 0
    decreases |s|
  {
    if s != [] {
      CountWhereNone(s[..|s| - 1], p);
    }
  }

  /** When every element satisfies `p`, all of them are counted. */
  lemma {:induction false} CountWhereAll<T>(s: seq<T>, p: T -> bool)
    requires forall i :: 0 <= i < |s| ==> p(s[i])
    ensures CountWhere(s, p) == |s|
    decreases |s|
  {
    if s != [] {
      CountWhereAll(s[..|s| - 1], p);
    }
  }
}
