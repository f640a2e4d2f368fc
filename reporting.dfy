/**
 * The per-section passing rates of `getStudentsInSectionWithPassingRates`:
 * every score record of every assignment, exam and quiz whose student is in
 * the section counts as one attempt, and as one pass when it is marked
 * passed.
 */
module Reporting {
  import opened Base
  import opened Activities

  /** The `{ totalAttempts, passedCount }` counters kept per student. */
  datatype Tally = Tally(attempts: int, passes: int)

  /** No attempts and no passes. */
  function Zero(): Tally {
    Tally(0, 0)
  }

  function Add(a: Tally, b: Tally): Tally {
    Tally(a.attempts + b.attempts, a.passes + b.passes)
  }

  /** What one score record adds to student `s`'s counters. */
  function Contribution(r: ScoreRecord, s: Id): Tally {
    if r.studentId == s then Tally(1, if r.passed then 1 else 0) else Zero()
  }

  /** Student `s`'s attempts and passes in one score list. */
  function CountScores(scores: seq<ScoreRecord>, s: Id): (t: Tally)
    ensures 0 <= t.passes <= t.attempts <= |scores|
  {
    if scores == [] then Zero()
    else Add(CountScores(scores[..|scores| - 1], s), Contribution(scores[|scores| - 1], s))
  }

  /** Student `s`'s attempts and passes over the activities of `m` whose ids are in `keys`, in no particular order. */
  ghost function TallyIn(m: map<Id, Activity>, keys: set<Id>, s: Id): (t: Tally)
    requires keys <= m.Keys
    ensures 0 <= t.passes <= t.attempts
    decreases keys
  {
    if keys == {} then Zero()
    else
      var k := Pick(keys);
      Add(CountScores(m[k].scores, s), TallyIn(m, keys - {k}, s))
  }

  /** Student `s`'s attempts and passes over a whole collection. */
  ghost function TallyOf(m: map<Id, Activity>, s: Id): (t: Tally)
    ensures 0 <= t.passes <= t.attempts
  {
    TallyIn(m, m.Keys, s)
  }

  /** The order in which the activities are visited does not matter: any one of them can be taken out first. */
  lemma {:induction false} TallyInRemove(m: map<Id, Activity>, keys: set<Id>, k: Id, s: Id)
    requires keys <= m.Keys && k in keys
    ensures TallyIn(m, keys, s) == Add(CountScores(m[k].scores, s), TallyIn(m, keys - {k}, s))
    decreases keys
  {
    var j := Pick(keys);
    if j != k {
      var rest := keys - {j} - {k};
      assert keys - {k} - {j} == rest;
      TallyInRemove(m, keys - {j}, k, s);
      assert TallyIn(m, keys - {j}, s) == Add(CountScores(m[k].scores, s), TallyIn(m, rest, s));
      TallyInRemove(m, keys - {k}, j, s);
      assert TallyIn(m, keys - {k}, s) == Add(CountScores(m[j].scores, s), TallyIn(m, rest, s));
      assert Add(CountScores(m[j].scores, s), Add(CountScores(m[k].scores, s), TallyIn(m, rest, s))) ==
             Add(CountScores(m[k].scores, s), Add(CountScores(m[j].scores, s), TallyIn(m, rest, s)));
    }
  }

  /** Two collections whose score lists agree on `keys` give the same counts there. */
  lemma {:induction false} TallyInAgree(m: map<Id, Activity>, m': map<Id, Activity>, keys: set<Id>, s: Id)
    requires keys <= m.Keys && keys <= m'.Keys
    requires forall k :: k in keys ==> m[k].scores == m'[k].scores
    ensures TallyIn(m, keys, s) == TallyIn(m', keys, s)
    decreases keys
  {
    if keys != {} {
      var k := Pick(keys);
      TallyInAgree(m, m', keys - {k}, s);
      TallyInRemove(m', keys, k, s);
    }
  }

  /**
   * Appending one score record to one activity (what `takeExam` does) adds
   * exactly that record's contribution to every student's counts.
   */
  lemma TallyAfterAppend(m: map<Id, Activity>, k: Id, rec: ScoreRecord, s: Id)
    requires k in m
    ensures TallyOf(m[k := m[k].(scores := m[k].scores + [rec])], s) == Add(TallyOf(m, s), Contribution(rec, s))
  {
    var m' := m[k := m[k].(scores := m[k].scores + [rec])];
    assert m'.Keys == m.Keys;
    var rest := TallyIn(m, m.Keys - {k}, s);
    TallyInRemove(m, m.Keys, k, s);
    TallyInRemove(m', m.Keys, k, s);
    TallyInAgree(m, m', m.Keys - {k}, s);
    CountScoresAppend(m[k].scores, rec, s);
    AddRotate(CountScores(m[k].scores, s), Contribution(rec, s), rest);
  }

  /** One more record in a score list adds its contribution. */
  lemma CountScoresAppend(scores: seq<ScoreRecord>, rec: ScoreRecord, s: Id)
    ensures CountScores(scores + [rec], s) == Add(CountScores(scores, s), Contribution(rec, s))
  {
    assert (scores + [rec])[..|scores|] == scores;
  }

  lemma AddRotate(a: Tally, b: Tally, c: Tally)
    ensures Add(Add(a, b), c) == Add(Add(a, c), b)
  {
  }

  /** `userScores[studentId] || {}` with both counters defaulting to 0. */
  function Lookup(tallies: map<Id, Tally>, s: Id): Tally {
    if s in tallies then tallies[s] else Zero()
  }

  /** What a student's counters become when one record is processed. */
  function Bump(t: Tally, r: ScoreRecord): (b: Tally)
    ensures b == Add(t, Contribution(r, r.studentId))
  {
    Tally(t.attempts + 1, if r.passed then t.passes + 1 else t.passes)
  }

  lemma CountScoresSnoc(scores: seq<ScoreRecord>, i: nat, s: Id)
    requires i < |scores|
    ensures CountScores(scores[..i + 1], s) == Add(CountScores(scores[..i], s), Contribution(scores[i], s))
  {
    assert scores[..i + 1][..i] == scores[..i];
  }

  /** What `processScores` has added so far to the counters of a student in the section; nothing for anyone else. */
  function Counted(scores: seq<ScoreRecord>, studentIds: seq<Id>, s: Id): Tally {
    if s in studentIds then CountScores(scores, s) else Zero()
  }

  /** The tallies after one more record, given the tallies before it. */
  function Step(tallies: map<Id, Tally>, r: ScoreRecord, studentIds: seq<Id>): (out: map<Id, Tally>)
    ensures r.studentId in studentIds ==> Lookup(out, r.studentId) == Add(Lookup(tallies, r.studentId), Contribution(r, r.studentId))
    ensures r.studentId !in studentIds ==> out == tallies
  {
    if r.studentId in studentIds then tallies[r.studentId := Bump(Lookup(tallies, r.studentId), r)]
    else tallies
  }

  /** Processing a record leaves the counters of every other student as they were. */
  lemma StepLeavesOthers(tallies: map<Id, Tally>, r: ScoreRecord, studentIds: seq<Id>, s: Id)
    requires s != r.studentId
    ensures Lookup(Step(tallies, r, studentIds), s) == Lookup(tallies, s)
  {
  }

  lemma StepFrom(before: map<Id, Tally>, tallies: map<Id, Tally>, r: ScoreRecord, studentIds: seq<Id>, s: Id, pre: Tally, post: Tally)
    requires Lookup(before, s) == Add(Lookup(tallies, s), pre)
    requires post == if s in studentIds then Add(pre, Contribution(r, s)) else pre
    ensures Lookup(Step(before, r, studentIds), s) == Add(Lookup(tallies, s), post)
  {
    var after := Step(before, r, studentIds);
    var c := Contribution(r, s);
    if s != r.studentId {
      assert c == Zero();
      assert post == pre;
      StepLeavesOthers(before, r, studentIds, s);
    } else if s in studentIds {
      assert post == Add(pre, c);
      assert Lookup(after, s) == Add(Lookup(before, s), c);
    } else {
      assert post == pre;
      assert after == before;
    }
  }

  /** One more record keeps every student's counters equal to the initial ones plus what the records so far contribute. */
  lemma StepCounts(before: map<Id, Tally>, tallies: map<Id, Tally>, scores: seq<ScoreRecord>, i: nat, studentIds: seq<Id>)
    requires i < |scores|
    requires forall s :: Lookup(before, s) == Add(Lookup(tallies, s), Counted(scores[..i], studentIds, s))
    ensures forall s :: Lookup(Step(before, scores[i], studentIds), s) == Add(Lookup(tallies, s), Counted(scores[..i + 1], studentIds, s))
  {
    forall s
      ensures Lookup(Step(before, scores[i], studentIds), s) == Add(Lookup(tallies, s), Counted(scores[..i + 1], studentIds, s))
    {
      CountScoresSnoc(scores, i, s);
      StepFrom(before, tallies, scores[i], studentIds, s, Counted(scores[..i], studentIds, s), Counted(scores[..i + 1], studentIds, s));
    }
  }

  /**
   * `processScores(scores)`: every record whose student is in the section
   * bumps that student's counters; records of other students are skipped
   * and never create an entry.
   */
  method ProcessScores(scores: seq<ScoreRecord>, studentIds: seq<Id>, tallies: map<Id, Tally>)
    returns (out: map<Id, Tally>)
    ensures forall s :: Lookup(out, s) == Add(Lookup(tallies, s), Counted(scores, studentIds, s))
    ensures forall s :: s in out ==> s in tallies || s in studentIds
  {
    out := tallies;
    var i := 0;
    forall s
      ensures Lookup(out, s) == Add(Lookup(tallies, s), Counted(scores[..0], studentIds, s))
    {
      assert Counted(scores[..0], studentIds, s) == Zero();
    }
    while i < |scores|
      invariant 0 <= i <= |scores|
      invariant forall s :: Lookup(out, s) == Add(Lookup(tallies, s), Counted(scores[..i], studentIds, s))
      invariant forall s :: s in out ==> s in tallies || s in studentIds
    {
      var score := scores[i];
      StepCounts(out, tallies, scores, i, studentIds);
      ghost var before := out;
      if score.studentId in studentIds {
        if score.studentId !in out {
          out := out[score.studentId := Zero()];
        }
        assert out[score.studentId] == Lookup(before, score.studentId);
        out := out[score.studentId := Bump(out[score.studentId], score)];
      }
      assert forall s :: Lookup(out, s) == Lookup(Step(before, score, studentIds), s);
      i := i + 1;
    }
    assert scores[..i] == scores;
  }

  /** What `processScores` over the activities `keys` of `m` adds to the counters of a student in the section; nothing for anyone else. */
  ghost function CountedIn(m: map<Id, Activity>, keys: set<Id>, studentIds: seq<Id>, s: Id): Tally
    requires keys <= m.Keys
  {
    if s in studentIds then TallyIn(m, keys, s) else Zero()
  }

  /** For one student: processing the score list of one more activity `k` adds that activity's counts. */
  lemma CollectStepAt(m: map<Id, Activity>, done: set<Id>, k: Id, studentIds: seq<Id>,
                      before: map<Id, Tally>, after: map<Id, Tally>, tallies: map<Id, Tally>, s: Id)
    requires done <= m.Keys && k in m && k !in done
    requires Lookup(before, s) == Add(Lookup(tallies, s), CountedIn(m, done, studentIds, s))
    requires Lookup(after, s) == Add(Lookup(before, s), Counted(m[k].scores, studentIds, s))
    ensures Lookup(after, s) == Add(Lookup(tallies, s), CountedIn(m, done + {k}, studentIds, s))
  {
    if s in studentIds {
      TallyInRemove(m, done + {k}, k, s);
      assert done + {k} - {k} == done;
    }
  }

  lemma CollectStep(m: map<Id, Activity>, done: set<Id>, k: Id, studentIds: seq<Id>,
                    before: map<Id, Tally>, after: map<Id, Tally>, tallies: map<Id, Tally>)
    requires done <= m.Keys && k in m && k !in done
    requires forall s :: Lookup(before, s) == Add(Lookup(tallies, s), CountedIn(m, done, studentIds, s))
    requires forall s :: Lookup(after, s) == Add(Lookup(before, s), Counted(m[k].scores, studentIds, s))
    ensures forall s :: Lookup(after, s) == Add(Lookup(tallies, s), CountedIn(m, done + {k}, studentIds, s))
  {
    forall s
      ensures Lookup(after, s) == Add(Lookup(tallies, s), CountedIn(m, done + {k}, studentIds, s))
    {
      CollectStepAt(m, done, k, studentIds, before, after, tallies, s);
    }
  }

  /** `collection.forEach(doc => processScores(doc.scores))` over every activity of one collection. */
  method ProcessCollection(m: map<Id, Activity>, studentIds: seq<Id>, tallies: map<Id, Tally>)
    returns (out: map<Id, Tally>)
    ensures forall s :: Lookup(out, s) == Add(Lookup(tallies, s), CountedIn(m, m.Keys, studentIds, s))
    ensures forall s :: s in out ==> s in tallies || s in studentIds
  {
    out := tallies;
    var remaining := m.Keys;
    ghost var done: set<Id> := {};
    while remaining != {}
      invariant remaining + done == m.Keys && remaining !! done
      invariant forall s :: Lookup(out, s) == Add(Lookup(tallies, s), CountedIn(m, done, studentIds, s))
      invariant forall s :: s in out ==> s in tallies || s in studentIds
      decreases remaining
    {
      var k := Choose(remaining);
      ghost var before := out;
      out := ProcessScores(m[k].scores, studentIds, out);
      CollectStep(m, done, k, studentIds, before, out, tallies);
      remaining := remaining - {k};
      done := done + {k};
    }
    assert done == m.Keys;
  }

  /** One element of the answer: the student and the passing percentage, kept here with the counters it comes from. */
  datatype StudentRate = StudentRate(student: Id, totalAttempts: int, passedCount: int, percentage: real)

  /** `passedCount / totalAttempts * 100`, or 0 when there are no attempts (before `toFixed(2)`). */
  function PassingPercentage(t: Tally): (p: real)
    ensures t.attempts == 0 ==> p == 0.0
    ensures 0 <= t.passes <= t.attempts ==> 0.0 <= p <= 100.0
    ensures 0 < t.attempts == t.passes ==> p == 100.0
    ensures t.attempts > 0 ==> p == t.passes as real / t.attempts as real * 100.0
  {
    if t.attempts > 0 then
      var q := t.passes as real / t.attempts as real;
      QuotientBounds(t.passes as real, t.attempts as real);
      q * 100.0
    else 0.0
  }

  /** A fraction of a positive whole lies between 0 and 1, and is 1 for the whole itself. */
  lemma QuotientBounds(part: real, whole: real)
    requires whole > 0.0
    ensures 0.0 <= part <= whole ==> 0.0 <= part / whole <= 1.0
    ensures part == whole ==> part / whole == 1.0
  {
    var q := part / whole;
    assert q * whole == part;
  }

  function Rate(s: Id, t: Tally): StudentRate {
    StudentRate(s, t.attempts, t.passes, PassingPercentage(t))
  }

  /** The final `section.students.map(...)`: one answer per section student, in section order. */
  function RatesFor(students: seq<Id>, tallies: map<Id, Tally>): (r: seq<StudentRate>)
    ensures |r| == |students|
    ensures forall i :: 0 <= i < |students| ==> r[i] == Rate(students[i], Lookup(tallies, students[i]))
  {
    if students == [] then []
    else [Rate(students[0], Lookup(tallies, students[0]))] + RatesFor(students[1..], tallies)
  }

  /** A student's counts across the three collections. */
  ghost function SectionTally(assignments: map<Id, Activity>, exams: map<Id, Activity>,
                              quizzes: map<Id, Activity>, s: Id): (t: Tally)
    ensures 0 <= t.passes <= t.attempts
  {
    Add(Add(TallyOf(assignments, s), TallyOf(exams, s)), TallyOf(quizzes, s))
  }

  /**
   * The three `forEach` passes, started from the empty `userScores`, leave
   * each section student with their counts across the three collections.
   */
  lemma CollectedIsSectionTally(assignments: map<Id, Activity>, exams: map<Id, Activity>, quizzes: map<Id, Activity>,
                                studentIds: seq<Id>, t1: map<Id, Tally>, t2: map<Id, Tally>, t3: map<Id, Tally>, s: Id)
    requires s in studentIds
    requires Lookup(t1, s) == Add(Lookup(map[], s), CountedIn(assignments, assignments.Keys, studentIds, s))
    requires Lookup(t2, s) == Add(Lookup(t1, s), CountedIn(exams, exams.Keys, studentIds, s))
    requires Lookup(t3, s) == Add(Lookup(t2, s), CountedIn(quizzes, quizzes.Keys, studentIds, s))
    ensures Lookup(t3, s) == SectionTally(assignments, exams, quizzes, s)
  {
  }

  /** Taking an exam adds that one record's attempt (and pass) to the student's section counts, and nothing to anyone else's. */
  lemma SectionTallyAfterExam(assignments: map<Id, Activity>, exams: map<Id, Activity>, quizzes: map<Id, Activity>,
                              k: Id, rec: ScoreRecord, s: Id)
    requires k in exams
    ensures var exams' := exams[k := exams[k].(scores := exams[k].scores + [rec])];
            SectionTally(assignments, exams', quizzes, s) == Add(SectionTally(assignments, exams, quizzes, s), Contribution(rec, s))
  {
    TallyAfterAppend(exams, k, rec, s);
  }
}
