/**
 * The other documents the controllers update (subjects, sections, users,
 * discussions), the list rules they share, and the read-only projections
 * over score and read lists.
 */
module Records {
  import opened Base
  import opened Activities

  /** A subject. The schema requires the name and the three schedule strings; teacher and section are optional references. */
  datatype Subject = Subject(
    name: string,
    teacher: Option<Id>,
    section: Option<Id>,
    startTime: string,
    endTime: string,
    schedule: string)

  /** Mongoose's `required` check on a new subject. */
  predicate SubjectSchemaAccepts(s: Subject) {
    s.name != "" && s.startTime != "" && s.endTime != "" && s.schedule != ""
  }

  /** A section: its name, grade level, teacher and student lists, and an optional adviser. */
  datatype Section = Section(
    name: string,
    gradeLevel: string,
    teachers: seq<Id>,
    students: seq<Id>,
    adviser: Option<string>)

  /** Mongoose's `required` check on a section. */
  predicate SectionSchemaAccepts(s: Section) {
    s.name != "" && s.gradeLevel != ""
  }

  /** The fields of a user that the modelled handlers read or write. */
  datatype User = User(lrn: Option<string>, sections: seq<Id>)

  /** One entry of a discussion's `studentsRead` list. */
  datatype ReadRecord = ReadRecord(studentId: Id, dateRead: Time)

  datatype Discussion = Discussion(title: string, content: string, subjectId: Id, studentsRead: seq<ReadRecord>)

  /** A request string that JavaScript treats as truthy: present and non-empty. */
  predicate Given(v: Option<string>) {
    v.Some? && v.value != ""
  }

  predicate NoDuplicates<T(==)>(xs: seq<T>) {
    forall i, j :: 0 <= i < j < |xs| ==> xs[i] != xs[j]
  }

  /**
   * `if (list.includes(x)) return 400; list.push(x)`: a member already in
   * the list is refused and the list kept; otherwise it is appended at the
   * end and nothing before it moves.
   */
  function AddUnique(xs: seq<Id>, x: Id, why: Reason): (r: Result<seq<Id>>)
    ensures r.Err? <==> x in xs
    ensures r.Err? ==> r.error == BadRequest(why)
    ensures r.Ok? ==> |r.value| == |xs| + 1 && r.value[..|xs|] == xs && r.value[|xs|] == x
    ensures r.Ok? ==> forall y :: y in r.value <==> y in xs || y == x
  {
    if x in xs then Err(BadRequest(why)) else Ok(xs + [x])
  }

  /** The dedup check keeps a duplicate-free list duplicate-free. */
  lemma AddUniqueKeepsDistinct(xs: seq<Id>, x: Id, why: Reason)
    requires NoDuplicates(xs)
    ensures AddUnique(xs, x, why).Ok? ==> NoDuplicates(AddUnique(xs, x, why).value)
  {
    var r := AddUnique(xs, x, why);
    if r.Ok? {
      forall i, j | 0 <= i < j < |r.value|
        ensures r.value[i] != r.value[j]
      {
        if j == |xs| {
          assert r.value[i] == xs[i];
        } else {
          assert r.value[i] == xs[i] && r.value[j] == xs[j];
        }
      }
    }
  }

  // ---------------------------------------------------------------------
  // Read lists of discussions

  /** `studentsRead.find(record => record.studentId === studentId)`: the first record of that student. */
  function FindRead(records: seq<ReadRecord>, s: Id): (r: Option<ReadRecord>)
    ensures r.None? <==> forall i :: 0 <= i < |records| ==> records[i].studentId != s
    ensures r.Some? ==> r.value in records && r.value.studentId == s
  {
    if records == [] then None
    else if records[0].studentId == s then Some(records[0])
    else FindRead(records[1..], s)
  }

  /** `markAsRead` on one read list: a new record dated `now` only for a student without one. */
  function MarkRead(records: seq<ReadRecord>, s: Id, now: Time): (r: seq<ReadRecord>)
    ensures FindRead(records, s).Some? ==> r == records
    ensures FindRead(records, s).None? ==> r == records + [ReadRecord(s, now)]
    ensures FindRead(r, s).Some?
  {
    if FindRead(records, s).Some? then records
    else
      assert (records + [ReadRecord(s, now)])[|records|].studentId == s;
      records + [ReadRecord(s, now)]
  }

  /** Marking twice is marking once: the second call finds the first one's record. */
  lemma MarkReadIdempotent(records: seq<ReadRecord>, s: Id, t1: Time, t2: Time)
    ensures MarkRead(MarkRead(records, s, t1), s, t2) == MarkRead(records, s, t1)
  {
  }

  /** Existing read records are never removed or altered: the old list is a prefix of the new one. */
  lemma MarkReadExtends(records: seq<ReadRecord>, s: Id, now: Time)
    ensures |MarkRead(records, s, now)| <= |records| + 1
    ensures MarkRead(records, s, now)[..|records|] == records
  {
  }

  /** No student appears twice in a read list built only by `markAsRead`. */
  lemma MarkReadKeepsOnePerStudent(records: seq<ReadRecord>, s: Id, now: Time)
    requires forall i, j :: 0 <= i < j < |records| ==> records[i].studentId != records[j].studentId
    ensures var r := MarkRead(records, s, now);
            forall i, j :: 0 <= i < j < |r| ==> r[i].studentId != r[j].studentId
  {
  }

  /** One element of `getStudentsReadByDiscussionId`'s answer. */
  datatype ReadEntry = ReadEntry(student: Id, dateRead: Time)

  /** `studentsRead.map(entry => ({ student, dateRead }))`. */
  function Readers(records: seq<ReadRecord>): (r: seq<ReadEntry>)
    ensures |r| == |records|
    ensures forall i :: 0 <= i < |records| ==> r[i].student == records[i].studentId && r[i].dateRead == records[i].dateRead
  {
    if records == [] then [] else [ReadEntry(records[0].studentId, records[0].dateRead)] + Readers(records[1..])
  }

  /** After marking, the student is among the readers reported for the discussion. */
  lemma MarkedStudentIsListed(records: seq<ReadRecord>, s: Id, now: Time)
    ensures exists i :: 0 <= i < |Readers(MarkRead(records, s, now))| && Readers(MarkRead(records, s, now))[i].student == s
  {
    var r := MarkRead(records, s, now);
    var i :| 0 <= i < |r| && r[i] == FindRead(r, s).value;
    assert Readers(r)[i].student == s;
  }

  // ---------------------------------------------------------------------
  // Score lists

  /**
   * `scores.some(score => score.studentId.toString() === userId.toString())`:
   * whether the student has a score record in the list.
   */
  function HasTaken(scores: seq<ScoreRecord>, s: Id): (r: bool)
    ensures r <==> exists i :: 0 <= i < |scores| && scores[i].studentId == s
  {
    if scores == [] then false
    else scores[0].studentId == s || HasTaken(scores[1..], s)
  }

  /** Taking an exam makes the student count as having taken it, and leaves every other student's answer as it was. */
  lemma HasTakenAfterAppend(scores: seq<ScoreRecord>, rec: ScoreRecord, s: Id)
    ensures HasTaken(scores + [rec], s) <==> HasTaken(scores, s) || rec.studentId == s
  {
    var r := scores + [rec];
    if HasTaken(scores, s) {
      var i :| 0 <= i < |scores| && scores[i].studentId == s;
      assert r[i].studentId == s;
    }
    if rec.studentId == s {
      assert r[|scores|].studentId == s;
    }
    if HasTaken(r, s) {
      var i :| 0 <= i < |r| && r[i].studentId == s;
      if i < |scores| {
        assert scores[i].studentId == s;
      }
    }
  }

  /** One element of `getExamScores`'s answer. */
  datatype ScoreEntry = ScoreEntry(studentId: Id, obtainedMarks: real, passed: bool, examDate: Time)

  /** `scores.map(score => ({ studentId, obtainedMarks, passed, examDate }))`. */
  function ScoreEntries(scores: seq<ScoreRecord>): (r: seq<ScoreEntry>)
    ensures |r| == |scores|
    ensures forall i :: 0 <= i < |scores| ==>
      r[i] == ScoreEntry(scores[i].studentId, scores[i].obtainedMarks, scores[i].passed, scores[i].date)
  {
    if scores == [] then []
    else [ScoreEntry(scores[0].studentId, scores[0].obtainedMarks, scores[0].passed, scores[0].date)] + ScoreEntries(scores[1..])
  }

  /** The score projection and the "taken" check agree: a student has taken the exam exactly when an entry names them. */
  lemma ScoreEntriesShowTaken(scores: seq<ScoreRecord>, s: Id)
    ensures HasTaken(scores, s) ==> exists i :: 0 <= i < |scores| && ScoreEntries(scores)[i].studentId == s
    ensures (exists i :: 0 <= i < |scores| && ScoreEntries(scores)[i].studentId == s) ==> HasTaken(scores, s)
  {
    var e := ScoreEntries(scores);
    assert forall i :: 0 <= i < |scores| ==> e[i].studentId == scores[i].studentId;
    assert HasTaken(scores, s) <==> exists i :: 0 <= i < |scores| && e[i].studentId == s;
  }

  // ---------------------------------------------------------------------
  // Queries

  /** `Model.find(filter)` over one collection: exactly the documents that match, unchanged. */
  function Where<V>(m: map<Id, V>, matches: V -> bool): (r: map<Id, V>)
    ensures forall id :: id in r <==> id in m && matches(m[id])
    ensures forall id :: id in r ==> r[id] == m[id]
  {
    map id | id in m && matches(m[id]) :: m[id]
  }

  /** A query answered with 404 when nothing matches. */
  function NonEmptyOr<V>(r: map<Id, V>, what: Entity): (res: Result<map<Id, V>>)
    ensures res.Err? <==> r == map[]
    ensures res.Err? ==> res.error == NotFound(what)
    ensures res.Ok? ==> res.value == r
  {
    if r == map[] then Err(NotFound(what)) else Ok(r)
  }

  /** One element of `getStudentSubjects`'s answer. */
  datatype SubjectDetails = SubjectDetails(
    subjectId: Id,
    subjectName: string,
    startTime: string,
    endTime: string,
    schedule: string,
    teacher: Option<Id>)

  /** `subjects.map(subject => ({ subjectId, subjectName, startTime, endTime, schedule, teacher }))`, keyed by subject. */
  function Details(subjects: map<Id, Subject>): (r: map<Id, SubjectDetails>)
    ensures r.Keys == subjects.Keys
    ensures forall id :: id in r ==> r[id].subjectId == id && r[id].subjectName == subjects[id].name
    ensures forall id :: id in r ==> r[id].startTime == subjects[id].startTime && r[id].endTime == subjects[id].endTime
    ensures forall id :: id in r ==> r[id].schedule == subjects[id].schedule && r[id].teacher == subjects[id].teacher
  {
    map id | id in subjects :: SubjectDetails(id, subjects[id].name, subjects[id].startTime, subjects[id].endTime,
                                              subjects[id].schedule, subjects[id].teacher)
  }
}
