/**
 * The placement wizard (`edu_placement.wizard`): the placement score, the level it
 * recommends, the ranking of suggested teachers, and the creation of an enrollment
 * with an optional teaching assignment.
 */
module Placement {
  import opened Common
  import opened Records
  import opened ClassGroups
  import Employees
  import Enrollments
  import Assignments
  import Sessions
  import AssignmentRules
  import RecordStore

  /** The `reading_level` selection. */
  datatype ReadingLevel = NoReading | Basic | Intermediate | Advanced

  /** The wizard's fields that its computations and its action read. */
  datatype Wizard = Wizard(
    studentId: nat,
    readingLevel: Option<ReadingLevel>,
    memorizationJuz: int,
    levelId: Option<nat>,
    groupId: Option<nat>,
    teacherId: Option<nat>,
    createAssignment: bool,
    meetingDay: Option<Weekday>,
    timeStart: int,
    timeEnd: int)

  /**
   * `_compute_age`: whole years of 365 days since the birth date (floor division,
   * as Python's `//`), 0 without a birth date.
   */
  function AgeYears(birthDate: Option<int>, today: int): (age: int)
    ensures birthDate.None? ==> age == 0
    ensures birthDate.Some? ==> age * 365 <= today - birthDate.value < (age + 1) * 365
  {
    if birthDate.None? then 0 else (today - birthDate.value) / 365
  }

  /** The reading weight of `_compute_score`; an empty selection weighs 0. */
  function ReadingWeight(r: Option<ReadingLevel>): (w: nat)
    ensures w <= 30 && w % 10 == 0
    ensures r.None? || r == Some(NoReading) <==> w == 0
  {
    match r
    case None => 0
    case Some(NoReading) => 0
    case Some(Basic) => 10
    case Some(Intermediate) => 20
    case Some(Advanced) => 30
  }

  /** `_compute_score`: reading weight, twice the memorised ajza, plus the age in years. */
  function Score(w: Wizard, age: int): (s: int)
    ensures 2 * w.memorizationJuz + age <= s <= 2 * w.memorizationJuz + age + 30
  {
    ReadingWeight(w.readingLevel) + 2 * w.memorizationJuz + age
  }

  /**
   * For the same reading level, each further memorised juz adds 2 to the score and
   * each further year of age adds 1, so neither ever lowers it.
   */
  lemma ScoreMonotone(w: Wizard, w': Wizard, age: int, age': int)
    requires w'.readingLevel == w.readingLevel
    ensures Score(w', age') - Score(w, age) == 2 * (w'.memorizationJuz - w.memorizationJuz) + (age' - age)
    ensures w.memorizationJuz <= w'.memorizationJuz && age <= age' ==> Score(w, age) <= Score(w', age')
  {
  }

  /** Basic reading, three ajza and ten years give 26. */
  lemma ScoreExample(w: Wizard)
    requires w.readingLevel == Some(Basic) && w.memorizationJuz == 3
    ensures Score(w, AgeYears(Some(0), 3650)) == 26
  {
  }

  /** A level whose placement range holds the score (only active levels are searched). */
  predicate InRange(l: Level, score: int) {
    l.active && l.minScore <= score <= l.maxScore
  }

  /** Level `i` comes no later than level `j` in ascending `sequence` order, store order on ties. */
  predicate Before(levels: seq<Level>, i: nat, j: nat)
    requires i < |levels| && j < |levels|
  {
    levels[i].sequence < levels[j].sequence || (levels[i].sequence == levels[j].sequence && i <= j)
  }

  /** Level `i` comes no later than level `j` in descending `sequence` order, store order on ties. */
  predicate AtLeast(levels: seq<Level>, i: nat, j: nat)
    requires i < |levels| && j < |levels|
  {
    levels[i].sequence > levels[j].sequence || (levels[i].sequence == levels[j].sequence && i <= j)
  }

  /** The first level, by ascending sequence, among the first `n` whose range holds the score. */
  function FirstInRange(levels: seq<Level>, score: int, n: nat): (r: Option<nat>)
    requires n <= |levels|
    ensures r.Some? ==> r.value < n && InRange(levels[r.value], score)
    ensures r.Some? ==> forall j :: 0 <= j < n && InRange(levels[j], score) ==> Before(levels, r.value, j)
    ensures r.None? ==> forall j :: 0 <= j < n ==> !InRange(levels[j], score)
    decreases n
  {
    if n == 0 then None
    else
      var r := FirstInRange(levels, score, n - 1);
      if InRange(levels[n - 1], score) && (r.None? || levels[n - 1].sequence < levels[r.value].sequence) then Some(n - 1)
      else r
  }

  /** The first active level, by descending sequence, among the first `n`. */
  function Highest(levels: seq<Level>, n: nat): (r: Option<nat>)
    requires n <= |levels|
    ensures r.Some? ==> r.value < n && levels[r.value].active
    ensures r.Some? ==> forall j :: 0 <= j < n && levels[j].active ==> AtLeast(levels, r.value, j)
    ensures r.None? ==> forall j :: 0 <= j < n ==> !levels[j].active
    decreases n
  {
    if n == 0 then None
    else
      var r := Highest(levels, n - 1);
      if levels[n - 1].active && (r.None? || levels[n - 1].sequence > levels[r.value].sequence) then Some(n - 1)
      else r
  }

  /**
   * `_compute_recommended_level`: the first level by sequence whose range holds the
   * score, else the level with the highest sequence; a level comes back whenever an
   * active level exists.
   */
  function RecommendLevel(levels: seq<Level>, score: int): (r: Option<nat>)
    ensures r.Some? <==> exists j :: 0 <= j < |levels| && levels[j].active
    ensures r.Some? ==> r.value < |levels| && levels[r.value].active
  {
    var f := FirstInRange(levels, score, |levels|);
    if f.Some? then f else Highest(levels, |levels|)
  }

  /**
   * The recommendation is the earliest in-range level when one holds the score, and
   * otherwise the highest level, none of them holding the score.
   */
  lemma RecommendLevelSpec(levels: seq<Level>, score: int)
    ensures var r := RecommendLevel(levels, score);
            && ((exists j :: 0 <= j < |levels| && InRange(levels[j], score)) ==>
                  r.Some? && InRange(levels[r.value], score) &&
                  forall j :: 0 <= j < |levels| && InRange(levels[j], score) ==> Before(levels, r.value, j))
            && ((forall j :: 0 <= j < |levels| ==> !InRange(levels[j], score)) ==>
                  r.Some? ==> forall j :: 0 <= j < |levels| && levels[j].active ==> AtLeast(levels, r.value, j))
  {
  }

  /** `_compute_recommended_level` fills `level_id` only when it is empty. */
  function LevelAfterCompute(levelId: Option<nat>, recommended: Option<nat>): Option<nat> {
    if levelId.None? then recommended else levelId
  }

  /** `_onchange_recommended_level` overrides `level_id` whenever there is a recommendation. */
  function LevelAfterOnchange(levelId: Option<nat>, recommended: Option<nat>): Option<nat> {
    if recommended.Some? then recommended else levelId
  }

  /**
   * The compute keeps a chosen level; after the onchange the selected level is the
   * recommendation when there is one and otherwise the level the user chose.
   */
  lemma SelectedLevelSpec(levelId: Option<nat>, recommended: Option<nat>)
    ensures levelId.Some? ==> LevelAfterCompute(levelId, recommended) == levelId
    ensures LevelAfterOnchange(LevelAfterCompute(levelId, recommended), recommended) ==
            if recommended.Some? then recommended else levelId
  {
  }

  /**
   * `_availability_match`: with a class group, some day the group meets is a day the
   * teacher is available; else, with a meeting day, the teacher's flag for it; else false.
   */
  predicate AvailabilityMatch(groups: seq<ClassGroup>, w: Wizard, t: Teacher) {
    if w.groupId.Some? then
      var g := GroupOf(groups, w.groupId);
      g.Some? && exists d :: 0 <= d < 7 && Flag(g.value.meets, d) && Flag(t.available, d)
    else if w.meetingDay.Some? then Flag(t.available, w.meetingDay.value)
    else false
  }

  /** The days the wizard asks for: the group's meeting days, else the single meeting day. */
  predicate WantedDay(groups: seq<ClassGroup>, w: Wizard, d: int) {
    if w.groupId.Some? then
      var g := GroupOf(groups, w.groupId);
      g.Some? && Flag(g.value.meets, d)
    else w.meetingDay == Some(d)
  }

  /** A match is exactly a wanted day on which the teacher is available. */
  lemma AvailabilityMatchSpec(groups: seq<ClassGroup>, w: Wizard, t: Teacher)
    ensures AvailabilityMatch(groups, w, t) <==> exists d :: 0 <= d < 7 && WantedDay(groups, w, d) && Flag(t.available, d)
  {
    if w.groupId.None? && w.meetingDay.Some? && Flag(t.available, w.meetingDay.value) {
      assert WantedDay(groups, w, w.meetingDay.value);
    }
  }

  /**
   * The additive teacher score of `_compute_suggested_teachers`: specialisation,
   * spare load (or 5 without a maximum), minus twice the load, availability, and the
   * gender rule when it is on and the student's gender is set.
   */
  function TeacherScore(levelId: Option<nat>, t: Teacher, load: int, matched: bool, genderRule: bool,
                        studentGender: Option<Gender>): int
  {
    (if levelId.Some? && levelId.value in t.specializations then 30 else 0)
    + (if t.maxLoad != 0 then (if t.maxLoad - load > 0 then t.maxLoad - load else 0) else 5)
    - 2 * load
    + (if matched then 5 else 0)
    + (if genderRule && studentGender.Some? then (if t.gender == studentGender then 10 else -100) else 0)
  }

  /** A heavier load never raises the score. */
  lemma TeacherScoreLoad(levelId: Option<nat>, t: Teacher, load: int, more: int, matched: bool, genderRule: bool,
                         studentGender: Option<Gender>)
    requires load <= more
    ensures TeacherScore(levelId, t, more, matched, genderRule, studentGender) <=
            TeacherScore(levelId, t, load, matched, genderRule, studentGender) - 2 * (more - load)
  {
  }

  /**
   * With the gender rule on, a teacher whose gender differs from the student's scores
   * 110 below the same teacher with the student's gender; with the rule off gender
   * does not count.
   */
  lemma GenderRuleSpec(levelId: Option<nat>, t: Teacher, load: int, matched: bool, genderRule: bool, g: Gender)
    requires t.gender != Some(g)
    ensures genderRule ==>
              TeacherScore(levelId, t, load, matched, genderRule, Some(g)) ==
              TeacherScore(levelId, t.(gender := Some(g)), load, matched, genderRule, Some(g)) - 110
    ensures !genderRule ==>
              TeacherScore(levelId, t, load, matched, genderRule, Some(g)) ==
              TeacherScore(levelId, t.(gender := Some(g)), load, matched, genderRule, Some(g))
  {
  }

  /** `_gender_rule_enabled`: the parameter is the string "True". */
  predicate GenderRuleEnabled(cfg: Config) {
    cfg.enableGenderRules == "True"
  }

  /** A `(score, id)` pair of the `scored` list. */
  datatype Ranked = Ranked(score: int, id: nat)

  /** `x` sorts before `y` when sorting pairs in reverse: larger score first, then larger id. */
  predicate Above(x: Ranked, y: Ranked) {
    x.score > y.score || (x.score == y.score && x.id >= y.id)
  }

  predicate SortedDesc(s: seq<Ranked>) {
    forall i, j :: 0 <= i < j < |s| ==> Above(s[i], s[j])
  }

  /** Insertion of one pair into a reverse-sorted list. */
  function Insert(x: Ranked, s: seq<Ranked>): seq<Ranked>
    decreases |s|
  {
    if s == [] then [x]
    else if Above(x, s[0]) then [x] + s
    else [s[0]] + Insert(x, s[1..])
  }

  /** Inserting into a reverse-sorted list keeps it reverse-sorted; the head is the new pair or the old head. */
  lemma {:induction false} InsertSorted(x: Ranked, s: seq<Ranked>)
    requires SortedDesc(s)
    ensures var r := Insert(x, s);
            SortedDesc(r) && |r| == |s| + 1 && (r[0] == x || (s != [] && r[0] == s[0]))
    decreases |s|
  {
    if s != [] && !Above(x, s[0]) {
      InsertSorted(x, s[1..]);
      var rest := Insert(x, s[1..]);
      assert Above(s[0], rest[0]);
      forall k | 0 <= k < |rest|
        ensures Above(s[0], rest[k])
      {
        if k > 0 {
          assert Above(rest[0], rest[k]);
        }
      }
    }
  }

  /** Inserting adds exactly the one pair. */
  lemma {:induction false} InsertPerm(x: Ranked, s: seq<Ranked>)
    ensures multiset(Insert(x, s)) == multiset(s) + multiset{x}
    decreases |s|
  {
    if s != [] && !Above(x, s[0]) {
      InsertPerm(x, s[1..]);
      assert s == [s[0]] + s[1..];
    }
  }

  /** `scored.sort(reverse=True)` on a list of pairs. */
  function SortDesc(s: seq<Ranked>): seq<Ranked>
    decreases |s|
  {
    if s == [] then [] else Insert(s[0], SortDesc(s[1..]))
  }

  /** The sorted list is in reverse order and holds exactly the same pairs. */
  lemma {:induction false} SortDescSpec(s: seq<Ranked>)
    ensures SortedDesc(SortDesc(s)) && multiset(SortDesc(s)) == multiset(s)
    decreases |s|
  {
    if s != [] {
      SortDescSpec(s[1..]);
      InsertSorted(s[0], SortDesc(s[1..]));
      InsertPerm(s[0], SortDesc(s[1..]));
      assert s == [s[0]] + s[1..];
    }
  }

  /** The pairs scoring above -100. */
  function Keep(s: seq<Ranked>): (r: seq<Ranked>)
    ensures |r| <= |s|
    decreases |s|
  {
    if s == [] then []
    else
      var n := |s| - 1;
      Keep(s[..n]) + (if s[n].score > -100 then [s[n]] else [])
  }

  /** Filtering keeps exactly the pairs above -100. */
  lemma {:induction false} KeepMembers(s: seq<Ranked>)
    ensures forall x :: x in Keep(s) <==> x in s && x.score > -100
    decreases |s|
  {
    if s != [] {
      var n := |s| - 1;
      KeepMembers(s[..n]);
      assert s == s[..n] + [s[n]];
    }
  }

  /** Filtering a reverse-sorted list keeps it reverse-sorted. */
  lemma {:induction false} KeepSorted(s: seq<Ranked>)
    requires SortedDesc(s)
    ensures SortedDesc(Keep(s))
    decreases |s|
  {
    if s != [] {
      var n := |s| - 1;
      var prev := Keep(s[..n]);
      assert SortedDesc(s[..n]);
      KeepSorted(s[..n]);
      KeepMembers(s[..n]);
      if s[n].score > -100 {
        forall i | 0 <= i < |prev|
          ensures Above(prev[i], s[n])
        {
          assert prev[i] in s[..n];
          var p :| 0 <= p < n && s[..n][p] == prev[i];
          assert s[p] == prev[i];
        }
        AppendBelowSorted(prev, s[n]);
      }
    }
  }

  /** Appending a pair below every pair of a reverse-sorted list keeps it reverse-sorted. */
  lemma AppendBelowSorted(s: seq<Ranked>, x: Ranked)
    requires SortedDesc(s)
    requires forall i :: 0 <= i < |s| ==> Above(s[i], x)
    ensures SortedDesc(s + [x])
  {
    var r := s + [x];
    forall i, j | 0 <= i < j < |r|
      ensures Above(r[i], r[j])
    {
      if j == |s| {
        assert r[i] == s[i];
      } else {
        assert r[i] == s[i] && r[j] == s[j];
      }
    }
  }

  /** A list whose scores all exceed -100 is kept whole. */
  lemma {:induction false} KeepAll(s: seq<Ranked>)
    requires forall i :: 0 <= i < |s| ==> s[i].score > -100
    ensures Keep(s) == s
    decreases |s|
  {
    if s != [] {
      var n := |s| - 1;
      KeepAll(s[..n]);
      assert s == s[..n] + [s[n]];
    }
  }

  /** `scored[:5]` filtered on `score > -100`. */
  function Top(s: seq<Ranked>): seq<Ranked> {
    Keep(s[..if |s| < 5 then |s| else 5])
  }

  /**
   * Of a reverse-sorted list, the top holds at most five pairs, all above -100, in
   * order; a pair above -100 is left out only when five pairs, each sorting before
   * it, fill the top.
   */
  lemma TopSpec(s: seq<Ranked>)
    requires SortedDesc(s)
    ensures var t := Top(s);
            && |t| <= 5 && SortedDesc(t)
            && (forall k :: 0 <= k < |t| ==> t[k].score > -100 && t[k] in s)
            && forall x :: x in s && x.score > -100 && x !in t ==> |t| == 5 && forall k :: 0 <= k < 5 ==> Above(t[k], x)
  {
    var m := if |s| < 5 then |s| else 5;
    var head := s[..m];
    assert SortedDesc(head);
    KeepMembers(head);
    KeepSorted(head);
    var t := Top(s);
    forall x | x in s && x.score > -100 && x !in t
      ensures |t| == 5 && forall k :: 0 <= k < 5 ==> Above(t[k], x)
    {
      var p :| 0 <= p < |s| && s[p] == x;
      if p < m {
        assert false;
      }
      assert forall k :: 0 <= k < m ==> head[k] == s[k] && Above(s[k], x);
      KeepAll(head);
    }
    forall k | 0 <= k < |t|
      ensures t[k].score > -100 && t[k] in s
    {
      assert t[k] in Keep(head);
      var p :| 0 <= p < m && head[p] == t[k];
      assert s[p] == t[k];
    }
  }

  /** The teachers `_compute_suggested_teachers` searches: effective teachers of the student's company or of none. */
  predicate Candidate(t: Teacher, student: Student) {
    t.active && Employees.IsTeacherEffective(t) && (t.companyId.None? || t.companyId == student.companyId)
  }

  /** The score of teacher `i` for the wizard. */
  function ScoreOf(teachers: seq<Teacher>, assignments: seq<Assignment>, enrollments: seq<Enrollment>, groups: seq<ClassGroup>,
                   w: Wizard, student: Student, genderRule: bool, i: nat): int
    requires i < |teachers|
  {
    TeacherScore(w.levelId, teachers[i], Employees.CurrentLoad(assignments, enrollments, i),
                 AvailabilityMatch(groups, w, teachers[i]), genderRule, student.gender)
  }

  /** The `scored` list after the loop has visited the first `n` teachers (store order). */
  function Ranking(teachers: seq<Teacher>, assignments: seq<Assignment>, enrollments: seq<Enrollment>, groups: seq<ClassGroup>,
                   w: Wizard, student: Student, genderRule: bool, n: nat): seq<Ranked>
    requires n <= |teachers|
  {
    if n == 0 then []
    else
      Ranking(teachers, assignments, enrollments, groups, w, student, genderRule, n - 1)
      + (if Candidate(teachers[n - 1], student)
         then [Ranked(ScoreOf(teachers, assignments, enrollments, groups, w, student, genderRule, n - 1), n - 1)]
         else [])
  }

  /** The pairs of the ranking are exactly the candidates, each with its own score. */
  lemma {:induction false} RankingSpec(teachers: seq<Teacher>, assignments: seq<Assignment>, enrollments: seq<Enrollment>,
                                       groups: seq<ClassGroup>, w: Wizard, student: Student, genderRule: bool, n: nat)
    requires n <= |teachers|
    ensures var s := Ranking(teachers, assignments, enrollments, groups, w, student, genderRule, n);
            forall x :: x in s <==>
              x.id < n && Candidate(teachers[x.id], student) &&
              x.score == ScoreOf(teachers, assignments, enrollments, groups, w, student, genderRule, x.id)
  {
    if n > 0 {
      RankingSpec(teachers, assignments, enrollments, groups, w, student, genderRule, n - 1);
    }
  }

  /** The suggested teachers for the ranking's pairs: the ids of the top five above -100. */
  function SuggestedIds(teachers: seq<Teacher>, assignments: seq<Assignment>, enrollments: seq<Enrollment>,
                        groups: seq<ClassGroup>, w: Wizard, student: Student, genderRule: bool): seq<Ranked>
  {
    Top(SortDesc(Ranking(teachers, assignments, enrollments, groups, w, student, genderRule, |teachers|)))
  }

  /**
   * The suggestion holds at most five candidate teachers, each with its own score
   * above -100, in `(score, id)` descending order; a candidate scoring above -100 is
   * missing only when five suggested teachers rank before it. A gender mismatch drops
   * a teacher only through this score threshold.
   */
  lemma SuggestedSpec(teachers: seq<Teacher>, assignments: seq<Assignment>, enrollments: seq<Enrollment>,
                      groups: seq<ClassGroup>, w: Wizard, student: Student, genderRule: bool)
    ensures var t := SuggestedIds(teachers, assignments, enrollments, groups, w, student, genderRule);
            && |t| <= 5 && SortedDesc(t)
            && (forall k :: 0 <= k < |t| ==>
                  && t[k].id < |teachers| && Candidate(teachers[t[k].id], student) && t[k].score > -100
                  && t[k].score == ScoreOf(teachers, assignments, enrollments, groups, w, student, genderRule, t[k].id))
            && forall i :: 0 <= i < |teachers| && Candidate(teachers[i], student) &&
                           ScoreOf(teachers, assignments, enrollments, groups, w, student, genderRule, i) > -100 &&
                           Ranked(ScoreOf(teachers, assignments, enrollments, groups, w, student, genderRule, i), i) !in t ==>
                 |t| == 5 &&
                 forall k :: 0 <= k < 5 ==>
                   Above(t[k], Ranked(ScoreOf(teachers, assignments, enrollments, groups, w, student, genderRule, i), i))
  {
    var s := Ranking(teachers, assignments, enrollments, groups, w, student, genderRule, |teachers|);
    RankingSpec(teachers, assignments, enrollments, groups, w, student, genderRule, |teachers|);
    SortDescSpec(s);
    var sorted := SortDesc(s);
    TopSpec(sorted);
    forall x | x in sorted
      ensures x in s
    {
      assert x in multiset(sorted);
    }
    forall i | 0 <= i < |teachers| && Candidate(teachers[i], student)
      ensures Ranked(ScoreOf(teachers, assignments, enrollments, groups, w, student, genderRule, i), i) in sorted
    {
      var x := Ranked(ScoreOf(teachers, assignments, enrollments, groups, w, student, genderRule, i), i);
      assert x in s;
      assert x in multiset(s);
    }
  }

  /** The `(6, 0, top_ids)` value: the ids of the pairs, in order. */
  function Ids(s: seq<Ranked>): (ids: seq<nat>)
    ensures |ids| == |s| && forall k :: 0 <= k < |s| ==> ids[k] == s[k].id
    decreases |s|
  {
    if s == [] then [] else Ids(s[..|s| - 1]) + [s[|s| - 1].id]
  }

  /**
   * `_compute_suggested_teachers`: score every candidate teacher in a loop, sort the
   * pairs in reverse, and keep the ids of the first five above -100.
   */
  method SuggestTeachers(db: RecordStore.Store, cfg: Config, w: Wizard) returns (ids: seq<nat>)
    requires w.studentId < |db.students|
    ensures ids == Ids(SuggestedIds(db.teachers, db.assignments, db.enrollments, db.groups, w, db.students[w.studentId],
                                    GenderRuleEnabled(cfg)))
  {
    var genderRule := GenderRuleEnabled(cfg);
    var student := db.students[w.studentId];
    var scored: seq<Ranked> := [];
    for i := 0 to |db.teachers|
      invariant scored == Ranking(db.teachers, db.assignments, db.enrollments, db.groups, w, student, genderRule, i)
    {
      var t := db.teachers[i];
      if Candidate(t, student) {
        var load := Employees.CurrentLoad(db.assignments, db.enrollments, i);
        var score := TeacherScore(w.levelId, t, load, AvailabilityMatch(db.groups, w, t), genderRule, student.gender);
        scored := scored + [Ranked(score, i)];
      }
    }
    scored := SortDesc(scored);
    ids := Ids(Top(scored));
  }

  /** The enrollment `action_create_enrollment` creates: active, today, with the placement score. */
  function EnrollmentFor(w: Wizard, student: Student, today: int): (e: Enrollment)
    requires w.levelId.Some?
    ensures e.studentId == w.studentId && e.levelId == w.levelId.value && e.groupId == w.groupId
    ensures e.status.Active? && e.placementScore == Score(w, AgeYears(student.birthDate, today))
  {
    Enrollment(w.studentId, w.levelId.value, w.groupId, Some(today), None, EnrollmentStatus.Active,
               Score(w, AgeYears(student.birthDate, today)), None)
  }

  /**
   * The assignment `action_create_enrollment` creates for the chosen teacher: with a
   * class group it targets the group and carries no student, meeting day or times;
   * otherwise it targets the student with the wizard's day and times.
   */
  function AssignmentFor(w: Wizard, today: int): Assignment
    requires w.teacherId.Some?
  {
    if w.groupId.Some? then
      Assignment(w.teacherId.value, None, w.groupId, Some(today), None, AssignmentStatus.Active, None, 0, 0)
    else
      Assignment(w.teacherId.value, Some(w.studentId), None, Some(today), None, AssignmentStatus.Active,
                 w.meetingDay, w.timeStart, w.timeEnd)
  }

  /** The wizard's assignment always targets exactly one of student and group, is active and starts today. */
  lemma AssignmentForSpec(w: Wizard, today: int)
    requires w.teacherId.Some?
    ensures var a := AssignmentFor(w, today);
            && AssignmentRules.CheckTarget(a).None?
            && a.status.Active? && a.startDate == Some(today) && a.teacherId == w.teacherId.value
            && (a.groupId.Some? ==> a.studentId.None? && a.meetingDay.None? && a.timeStart == 0 && a.timeEnd == 0)
            && (a.groupId.None? ==> a.studentId == Some(w.studentId) && a.meetingDay == w.meetingDay)
  {
  }

  /** Whether the action also creates an assignment. */
  predicate WantsAssignment(w: Wizard) {
    w.createAssignment && w.teacherId.Some?
  }

  /**
   * `action_create_enrollment`: one transaction. Without a level it is refused; it
   * creates the enrollment (its constraints may refuse it) and, when asked and a
   * teacher is chosen, the assignment with its sessions (its constraints or its
   * session generation may refuse it). The first refusal is the result, and any
   * refusal leaves the store as it was.
   */
  method ActionCreateEnrollment(db: RecordStore.Store, cfg: Config, w: Wizard, today: int) returns (r: Result<nat>)
    requires w.studentId < |db.students|
    requires db.Valid()
    modifies db`enrollments, db`assignments, db`sessions, db`lines
    ensures db.Valid()
    ensures w.levelId.None? ==> r == Err(LevelRequired)
    ensures w.levelId.Some? ==>
              var grown := old(db.enrollments) + [EnrollmentFor(w, db.students[w.studentId], today)];
              var enrollmentCheck := Enrollments.CheckEnrollment(db.groups, grown, |grown| - 1);
              && (enrollmentCheck.Some? ==> r == Err(enrollmentCheck.value))
              && (enrollmentCheck.None? && !WantsAssignment(w) ==> r == Ok(|old(db.enrollments)|))
              && (enrollmentCheck.None? && WantsAssignment(w) ==>
                    var a := AssignmentFor(w, today);
                    var assignmentCheck := Assignments.CheckAssignment(db.teachers, old(db.assignments) + [a], grown);
                    var gen := Assignments.Generate(cfg, grown, db.links, db.groups, a, |old(db.assignments)|,
                                                    Sessions.Schedule(old(db.sessions), old(db.lines)), today);
                    r == (if assignmentCheck.Some? then Err(assignmentCheck.value)
                          else if gen.Err? then Err(gen.error)
                          else Ok(|old(db.enrollments)|)))
    ensures r.Ok? ==>
              && w.levelId.Some?
              && r.value == |old(db.enrollments)|
              && db.enrollments == old(db.enrollments) + [EnrollmentFor(w, db.students[w.studentId], today)]
              && Enrollments.CheckEnrollment(db.groups, db.enrollments, r.value).None?
    ensures r.Ok? && !WantsAssignment(w) ==>
              db.assignments == old(db.assignments) && db.sessions == old(db.sessions) && db.lines == old(db.lines)
    ensures r.Ok? && WantsAssignment(w) ==>
              && db.assignments == old(db.assignments) + [AssignmentFor(w, today)]
              && Assignments.CheckAssignment(db.teachers, db.assignments, db.enrollments).None?
              && Assignments.Generate(cfg, db.enrollments, db.links, db.groups, AssignmentFor(w, today), |old(db.assignments)|,
                                      Sessions.Schedule(old(db.sessions), old(db.lines)), today)
                 == Ok(Sessions.Schedule(db.sessions, db.lines))
    ensures r.Err? ==>
              db.enrollments == old(db.enrollments) && db.assignments == old(db.assignments) &&
              db.sessions == old(db.sessions) && db.lines == old(db.lines)
  {
    if w.levelId.None? {
      return Err(LevelRequired);
    }
    var enrollments0 := db.enrollments;
    var e := EnrollmentFor(w, db.students[w.studentId], today);
    var er := Enrollments.Create(db, e);
    if er.Err? {
      return Err(er.error);
    }
    if WantsAssignment(w) {
      var ar := Assignments.Create(db, cfg, AssignmentFor(w, today), today);
      if ar.Err? {
        db.enrollments := enrollments0;
        return Err(ar.error);
      }
    }
    r := Ok(er.value);
  }
}
