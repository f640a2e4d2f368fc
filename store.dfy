/**
 * The database the controllers work on, one map per collection, and the
 * handlers of the modelled controllers as methods that read or update it.
 * A handler that answers 4xx or 500 before saving leaves the store as it
 * was.
 */
module School {
  import opened Base
  import opened Json
  import opened Activities
  import opened Validation
  import opened Grading
  import opened Reporting
  import opened Records

  /** The entity a 404 of an activity handler names. */
  function EntityOf(k: Kind): Entity {
    match k
    case ExamKind => ExamDoc
    case AssignmentKind => AssignmentDoc
    case QuizKind => QuizDoc
  }

  /** What `takeExam` answers on success. */
  datatype Outcome = Outcome(obtainedMarks: real, totalMarks: real, passMarks: real, passed: bool)

  /** What `getStudentSubjects` answers on success: the section found and its subjects. */
  datatype StudentSubjects = StudentSubjects(section: Id, subjects: map<Id, SubjectDetails>)

  predicate Below(keys: set<Id>, bound: Id) {
    forall id :: id in keys ==> id < bound
  }

  /** Every stored activity of a table has the fields of its kind. */
  predicate TableShaped(k: Kind, t: map<Id, Activity>) {
    forall id :: id in t ==> Shape(k, t[id])
  }

  /** Every stored section passed the schema's `required` check when it was saved. */
  predicate SectionsSaved(sections: map<Id, Section>) {
    forall id :: id in sections ==> SectionSchemaAccepts(sections[id])
  }

  /** Every stored subject passed the schema's `required` check when it was saved. */
  predicate SubjectsSaved(subjects: map<Id, Subject>) {
    forall id :: id in subjects ==> SubjectSchemaAccepts(subjects[id])
  }

  /** No LRN is held by two users; an invariant of `assignLRN` over users that have no other way to get one here. */
  predicate DistinctLrns(users: map<Id, User>) {
    forall a, b :: a in users && b in users && a != b && users[a].lrn.Some? ==> users[a].lrn != users[b].lrn
  }

  /** No section name is used twice. */
  predicate DistinctNames(sections: map<Id, Section>) {
    forall a, b :: a in sections && b in sections && a != b ==> sections[a].name != sections[b].name
  }

  class Store {
    var subjects: map<Id, Subject>
    var users: map<Id, User>
    var sections: map<Id, Section>
    var discussions: map<Id, Discussion>
    var exams: map<Id, Activity>
    var assignments: map<Id, Activity>
    var quizzes: map<Id, Activity>
    /** The next identifier to hand out; every stored id is smaller. */
    var nextId: Id

    /** The collection of activities of kind `k`. */
    function Table(k: Kind): map<Id, Activity>
      reads this
    {
      match k
      case ExamKind => exams
      case AssignmentKind => assignments
      case QuizKind => quizzes
    }

    ghost predicate Valid()
      reads this
    {
      && TableShaped(ExamKind, exams)
      && TableShaped(AssignmentKind, assignments)
      && TableShaped(QuizKind, quizzes)
      && SectionsSaved(sections) && SubjectsSaved(subjects)
      && Below(exams.Keys, nextId) && Below(assignments.Keys, nextId) && Below(quizzes.Keys, nextId)
      && Below(subjects.Keys, nextId) && Below(users.Keys, nextId)
      && Below(sections.Keys, nextId) && Below(discussions.Keys, nextId)
    }

    /** Only the activity table of kind `k` and the id counter may have changed. */
    twostate predicate OnlyTable(k: Kind)
      reads this
    {
      && subjects == old(subjects) && users == old(users)
      && sections == old(sections) && discussions == old(discussions)
      && (k != ExamKind ==> exams == old(exams))
      && (k != AssignmentKind ==> assignments == old(assignments))
      && (k != QuizKind ==> quizzes == old(quizzes))
    }

    /** Only the sections and the id counter may have changed. */
    twostate predicate OnlySections()
      reads this
    {
      && subjects == old(subjects) && users == old(users) && discussions == old(discussions)
      && exams == old(exams) && assignments == old(assignments) && quizzes == old(quizzes)
    }

    /** Only the users may have changed. */
    twostate predicate OnlyUsers()
      reads this
    {
      && subjects == old(subjects) && sections == old(sections) && discussions == old(discussions)
      && exams == old(exams) && assignments == old(assignments) && quizzes == old(quizzes)
      && nextId == old(nextId)
    }

    /** Only the discussions may have changed. */
    twostate predicate OnlyDiscussions()
      reads this
    {
      && subjects == old(subjects) && users == old(users) && sections == old(sections)
      && exams == old(exams) && assignments == old(assignments) && quizzes == old(quizzes)
      && nextId == old(nextId)
    }

    /** Only the subjects and the id counter may have changed. */
    twostate predicate OnlySubjects()
      reads this
    {
      && users == old(users) && sections == old(sections) && discussions == old(discussions)
      && exams == old(exams) && assignments == old(assignments) && quizzes == old(quizzes)
    }

    /** An empty database. */
    constructor ()
      ensures Valid()
      ensures subjects == map[] && users == map[] && sections == map[] && discussions == map[]
      ensures exams == map[] && assignments == map[] && quizzes == map[]
    {
      subjects, users, sections, discussions := map[], map[], map[], map[];
      exams, assignments, quizzes := map[], map[], map[];
      nextId := 0;
    }

    /** A new document identifier, different from every stored one. */
    method FreshId() returns (id: Id)
      requires Valid()
      modifies this
      ensures id == old(nextId) && nextId == id + 1
      ensures Valid() && OnlyTable(ExamKind) && exams == old(exams)
    {
      id := nextId;
      nextId := nextId + 1;
    }

    /** Replace the table of kind `k`. */
    method SetTable(k: Kind, t: map<Id, Activity>)
      modifies this
      ensures Table(k) == t && OnlyTable(k) && nextId == old(nextId)
    {
      match k
      case ExamKind => exams := t;
      case AssignmentKind => assignments := t;
      case QuizKind => quizzes := t;
    }

    // -------------------------------------------------------------------
    // Activities: create, edit, delete

    /**
     * `createExam`, `createAssignment` and `createQuiz`: the request checks
     * in order, then the schema's check on save, then the new document
     * under a fresh id.
     */
    method CreateActivity(k: Kind, body: Body, parsedDeadline: Option<Time>, now: Time) returns (r: Result<Id>)
      requires Valid()
      modifies this
      ensures Valid() && OnlyTable(k)
      ensures var v := ValidateActivity(k, body, body.subject in old(subjects), parsedDeadline);
              && (v.Err? ==> r == Err(v.error) && Table(k) == old(Table(k)))
              && (v.Ok? && !SchemaAccepts(v.value) ==> r == Err(ServerError) && Table(k) == old(Table(k)))
              && (v.Ok? && SchemaAccepts(v.value) ==>
                    && r.Ok? && r.value !in old(Table(k))
                    && Table(k) == old(Table(k))[r.value := NewActivity(k, v.value, now)])
    {
      var v := ValidateActivity(k, body, body.subject in subjects, parsedDeadline);
      if v.Err? {
        return Err(v.error);
      }
      if !SchemaAccepts(v.value) {
        return Err(ServerError);
      }
      var doc := NewActivity(k, v.value, now);
      var id := FreshId();
      SetTable(k, Table(k)[id := doc]);
      r := Ok(id);
    }

    /** `editExam`, `editAssignment` and `editQuiz`: `findByIdAndUpdate` with the supplied fields and a fresh `updatedAt`. */
    method EditActivity(k: Kind, id: Id, p: Patch, now: Time) returns (r: Result<Activity>)
      requires Valid()
      modifies this
      ensures Valid() && OnlyTable(k) && nextId == old(nextId)
      ensures id !in old(Table(k)) ==> r == Err(NotFound(EntityOf(k))) && Table(k) == old(Table(k))
      ensures id in old(Table(k)) ==>
                && r == Ok(ApplyPatch(old(Table(k))[id], p, now))
                && Table(k) == old(Table(k))[id := r.value]
    {
      if id !in Table(k) {
        return Err(NotFound(EntityOf(k)));
      }
      var updated := ApplyPatch(Table(k)[id], p, now);
      SetTable(k, Table(k)[id := updated]);
      r := Ok(updated);
    }

    /** `deleteExam`, `deleteAssignment` and `deleteQuiz`: `findByIdAndDelete`, then only a success message. */
    method DeleteActivity(k: Kind, id: Id) returns (r: Result<()>)
      requires Valid()
      modifies this
      ensures Valid() && OnlyTable(k) && nextId == old(nextId)
      ensures id !in old(Table(k)) ==> r == Err(NotFound(EntityOf(k))) && Table(k) == old(Table(k))
      ensures id in old(Table(k)) ==> r == Ok(()) && Table(k) == old(Table(k)) - {id}
      ensures id !in Table(k)
    {
      if id !in Table(k) {
        return Err(NotFound(EntityOf(k)));
      }
      r := Ok(());
      SetTable(k, Table(k) - {id});
    }

    // -------------------------------------------------------------------
    // Exams: taking one, and the reads over their scores

    /**
     * `takeExam`: grade the answers against the stored questions, decide
     * pass or fail by the stored pass mark, and append one score record.
     * A student who already has a record is graded again.
     */
    method TakeExam(examId: Id, studentId: Id, answers: Value, now: Time) returns (r: Result<Outcome>)
      requires Valid()
      modifies this
      ensures Valid() && OnlyTable(ExamKind) && nextId == old(nextId)
      ensures examId !in old(exams) ==> r == Err(NotFound(ExamDoc)) && exams == old(exams)
      ensures examId in old(exams) ==>
                var e := old(exams)[examId];
                var m := ObtainedMarks(e.questions, answers);
                var passed := Passes(m, e.passMarks.value);
                && r == Ok(Outcome(m, e.totalMarks, e.passMarks.value, passed))
                && exams == old(exams)[examId := e.(scores := e.scores + [ScoreRecord(studentId, m, passed, now)])]
    {
      if examId !in exams {
        return Err(NotFound(ExamDoc));
      }
      var exam := exams[examId];
      var obtainedMarks := Grade(exam.questions, answers);
      var passed := obtainedMarks >= exam.passMarks.value;
      exam := exam.(scores := exam.scores + [ScoreRecord(studentId, obtainedMarks, passed, now)]);
      exams := exams[examId := exam];
      r := Ok(Outcome(obtainedMarks, exam.totalMarks, exam.passMarks.value, passed));
    }

    /** `checkIfUserHasTakenExam`: a missing user id first, then an unknown exam, then whether a score names the user. */
    function CheckIfTaken(examId: Id, userId: Option<Id>): (r: Result<bool>)
      reads this
      ensures userId.None? ==> r == Err(BadRequest(UserIdRequired))
      ensures userId.Some? && examId !in exams ==> r == Err(NotFound(ExamDoc))
      ensures userId.Some? && examId in exams ==> r.Ok?
      ensures r.Ok? ==> (r.value <==> exists i :: 0 <= i < |exams[examId].scores| && exams[examId].scores[i].studentId == userId.value)
    {
      if userId.None? then Err(BadRequest(UserIdRequired))
      else if examId !in exams then Err(NotFound(ExamDoc))
      else Ok(HasTaken(exams[examId].scores, userId.value))
    }

    /** `getExamScores`: one entry per score record, in order. */
    function ExamScores(examId: Id): (r: Result<seq<ScoreEntry>>)
      reads this
      ensures examId !in exams <==> r == Err(NotFound(ExamDoc))
      ensures r.Ok? ==> r.value == ScoreEntries(exams[examId].scores)
      ensures r.Ok? ==> |r.value| == |exams[examId].scores|
      ensures r.Ok? ==> forall i :: 0 <= i < |r.value| ==>
                r.value[i].studentId == exams[examId].scores[i].studentId && r.value[i].passed == exams[examId].scores[i].passed
    {
      if examId !in exams then Err(NotFound(ExamDoc)) else Ok(ScoreEntries(exams[examId].scores))
    }

    /**
     * `getExamsBySubject`, `getAssignmentsBySubject`, `getQuizzesBySubject`:
     * the activities of the subject. The exam handler only tests the query
     * result for null, so it never answers 404.
     */
    function BySubject(k: Kind, subjectId: Id): (r: Result<map<Id, Activity>>)
      reads this
      ensures k == ExamKind ==> r.Ok?
      ensures k != ExamKind ==> (r.Err? <==> forall id :: id in Table(k) ==> Table(k)[id].subject != subjectId)
      ensures r.Err? ==> r.error == NotFound(EntityOf(k))
      ensures r.Ok? ==> forall id :: id in r.value <==> id in Table(k) && Table(k)[id].subject == subjectId
      ensures r.Ok? ==> forall id :: id in r.value ==> r.value[id] == Table(k)[id]
    {
      var found := Where(Table(k), (a: Activity) => a.subject == subjectId);
      if k == ExamKind then Ok(found)
      else
        assert found == map[] <==> forall id :: id in Table(k) ==> Table(k)[id].subject != subjectId by {
          if found != map[] {
            var id := Pick(found.Keys);
          }
        }
        NonEmptyOr(found, EntityOf(k))
    }
  
    // -------------------------------------------------------------------
    // Sections

    /**
     * `getStudentsInSectionWithPassingRates`: one entry per section student,
     * in section order, with their attempts and passes over every score
     * record of every assignment, exam and quiz.
     */
    method PassingRates(sectionId: Id) returns (r: Result<seq<StudentRate>>)
      ensures sectionId !in sections ==> r == Err(NotFound(SectionDoc))
      ensures sectionId in sections ==> r.Ok? && |r.value| == |sections[sectionId].students|
      ensures sectionId in sections ==> forall i :: 0 <= i < |r.value| ==>
                var s := sections[sectionId].students[i];
                r.value[i] == Rate(s, SectionTally(assignments, exams, quizzes, s))
    {
      if sectionId !in sections {
        return Err(NotFound(SectionDoc));
      }
      var studentIds := sections[sectionId].students;
      var userScores: map<Id, Tally> := map[];
      var afterAssignments := ProcessCollection(assignments, studentIds, userScores);
      var afterExams := ProcessCollection(exams, studentIds, afterAssignments);
      var afterQuizzes := ProcessCollection(quizzes, studentIds, afterExams);
      var rates := RatesFor(studentIds, afterQuizzes);
      forall i | 0 <= i < |rates|
        ensures rates[i] == Rate(studentIds[i], SectionTally(assignments, exams, quizzes, studentIds[i]))
      {
        CollectedIsSectionTally(assignments, exams, quizzes, studentIds, afterAssignments, afterExams, afterQuizzes, studentIds[i]);
      }
      r := Ok(rates);
    }

    /** `addSection`: a name already used by a section is refused before anything is saved. */
    method AddSection(name: string, gradeLevel: string, adviser: Option<string>) returns (r: Result<Id>)
      requires Valid()
      modifies this
      ensures Valid() && OnlySections()
      ensures (exists id :: id in old(sections) && old(sections)[id].name == name) ==>
                r == Err(BadRequest(SectionNameTaken)) && sections == old(sections)
      ensures (forall id :: id in old(sections) ==> old(sections)[id].name != name) ==>
                var doc := Section(name, gradeLevel, [], [], adviser);
                && (SectionSchemaAccepts(doc) ==> r.Ok? && r.value !in old(sections) && sections == old(sections)[r.value := doc])
                && (!SectionSchemaAccepts(doc) ==> r == Err(ServerError) && sections == old(sections))
      ensures DistinctNames(old(sections)) ==> DistinctNames(sections)
    {
      if exists id :: id in sections && sections[id].name == name {
        return Err(BadRequest(SectionNameTaken));
      }
      var doc := Section(name, gradeLevel, [], [], adviser);
      if !SectionSchemaAccepts(doc) {
        return Err(ServerError);
      }
      var id := nextId;
      nextId := nextId + 1;
      sections := sections[id := doc];
      r := Ok(id);
    }

    /**
     * `updateSection`: a name or adviser that is missing or empty keeps the
     * stored one. The new name is not checked against the other sections.
     */
    method UpdateSection(sectionId: Id, name: Option<string>, adviser: Option<string>) returns (r: Result<Section>)
      requires Valid()
      modifies this
      ensures Valid() && OnlySections() && nextId == old(nextId)
      ensures sectionId !in old(sections) ==> r == Err(NotFound(SectionDoc)) && sections == old(sections)
      ensures sectionId in old(sections) ==>
                var before := old(sections)[sectionId];
                && r.Ok? && sections == old(sections)[sectionId := r.value]
                && r.value.name == (if Given(name) then name.value else before.name)
                && r.value.adviser == (if Given(adviser) then adviser else before.adviser)
                && r.value.gradeLevel == before.gradeLevel
                && r.value.teachers == before.teachers && r.value.students == before.students
    {
      if sectionId !in sections {
        return Err(NotFound(SectionDoc));
      }
      var section := sections[sectionId];
      if Given(name) {
        section := section.(name := name.value);
      }
      if Given(adviser) {
        section := section.(adviser := adviser);
      }
      sections := sections[sectionId := section];
      r := Ok(section);
    }

    /** `deleteSection`. */
    method DeleteSection(sectionId: Id) returns (r: Result<()>)
      requires Valid()
      modifies this
      ensures Valid() && OnlySections() && nextId == old(nextId)
      ensures sectionId !in old(sections) ==> r == Err(NotFound(SectionDoc)) && sections == old(sections)
      ensures sectionId in old(sections) ==> r.Ok? && sections == old(sections) - {sectionId}
    {
      if sectionId !in sections {
        return Err(NotFound(SectionDoc));
      }
      sections := sections - {sectionId};
      r := Ok(());
    }

    /** `addTeacher`: append the user to the section's teachers unless already there. */
    method AddTeacher(sectionId: Id, userId: Id) returns (r: Result<Section>)
      requires Valid()
      modifies this
      ensures Valid() && OnlySections() && nextId == old(nextId)
      ensures sectionId !in old(sections) ==> r == Err(NotFound(SectionDoc)) && sections == old(sections)
      ensures sectionId in old(sections) ==>
                var before := old(sections)[sectionId];
                match AddUnique(before.teachers, userId, TeacherAlreadyAdded)
                case Err(e) => r == Err(e) && sections == old(sections)
                case Ok(teachers) => r == Ok(before.(teachers := teachers)) && sections == old(sections)[sectionId := r.value]
    {
      if sectionId !in sections {
        return Err(NotFound(SectionDoc));
      }
      var section := sections[sectionId];
      if userId in section.teachers {
        return Err(BadRequest(TeacherAlreadyAdded));
      }
      section := section.(teachers := section.teachers + [userId]);
      sections := sections[sectionId := section];
      r := Ok(section);
    }

    /** `addStudent`: append the user to the section's students unless already there. */
    method AddStudent(sectionId: Id, userId: Id) returns (r: Result<Section>)
      requires Valid()
      modifies this
      ensures Valid() && OnlySections() && nextId == old(nextId)
      ensures sectionId !in old(sections) ==> r == Err(NotFound(SectionDoc)) && sections == old(sections)
      ensures sectionId in old(sections) ==>
                var before := old(sections)[sectionId];
                match AddUnique(before.students, userId, StudentAlreadyAdded)
                case Err(e) => r == Err(e) && sections == old(sections)
                case Ok(students) => r == Ok(before.(students := students)) && sections == old(sections)[sectionId := r.value]
    {
      if sectionId !in sections {
        return Err(NotFound(SectionDoc));
      }
      var section := sections[sectionId];
      if userId in section.students {
        return Err(BadRequest(StudentAlreadyAdded));
      }
      section := section.(students := section.students + [userId]);
      sections := sections[sectionId := section];
      r := Ok(section);
    }

    // -------------------------------------------------------------------
    // Discussions

    /** `markAsRead`: record the student's read once; later calls find the record and change nothing. */
    method MarkAsRead(discussionId: Id, studentId: Id, now: Time) returns (r: Result<Discussion>)
      requires Valid()
      modifies this
      ensures Valid() && OnlyDiscussions()
      ensures discussionId !in old(discussions) ==> r == Err(NotFound(DiscussionDoc)) && discussions == old(discussions)
      ensures discussionId in old(discussions) ==>
                var before := old(discussions)[discussionId];
                && r == Ok(before.(studentsRead := MarkRead(before.studentsRead, studentId, now)))
                && discussions == old(discussions)[discussionId := r.value]
    {
      if discussionId !in discussions {
        return Err(NotFound(DiscussionDoc));
      }
      var discussion := discussions[discussionId];
      var alreadyRead := FindRead(discussion.studentsRead, studentId);
      if alreadyRead.None? {
        discussion := discussion.(studentsRead := discussion.studentsRead + [ReadRecord(studentId, now)]);
        discussions := discussions[discussionId := discussion];
      }
      r := Ok(discussion);
    }

    /** `getDiscussionsBySubjectId`: the discussions of the subject, 404 when there are none. */
    function DiscussionsBySubject(subjectId: Id): (r: Result<map<Id, Discussion>>)
      reads this
      ensures r.Err? <==> forall id :: id in discussions ==> discussions[id].subjectId != subjectId
      ensures r.Err? ==> r.error == NotFound(DiscussionDoc)
      ensures r.Ok? ==> forall id :: id in r.value <==> id in discussions && discussions[id].subjectId == subjectId
      ensures r.Ok? ==> forall id :: id in r.value ==> r.value[id] == discussions[id]
    {
      var found := Where(discussions, (d: Discussion) => d.subjectId == subjectId);
      assert found == map[] <==> forall id :: id in discussions ==> discussions[id].subjectId != subjectId by {
        if found != map[] {
          var id := Pick(found.Keys);
        }
      }
      NonEmptyOr(found, DiscussionDoc)
    }

    /** `getStudentsReadByDiscussionId`: one entry per read record, in order. */
    function StudentsRead(discussionId: Id): (r: Result<seq<ReadEntry>>)
      reads this
      ensures discussionId !in discussions <==> r == Err(NotFound(DiscussionDoc))
      ensures r.Ok? ==> r.value == Readers(discussions[discussionId].studentsRead)
      ensures r.Ok? ==> |r.value| == |discussions[discussionId].studentsRead|
      ensures r.Ok? ==> forall i :: 0 <= i < |r.value| ==> r.value[i].student == discussions[discussionId].studentsRead[i].studentId
    {
      if discussionId !in discussions then Err(NotFound(DiscussionDoc)) else Ok(Readers(discussions[discussionId].studentsRead))
    }

    /** `deleteDiscussion`. */
    method DeleteDiscussion(discussionId: Id) returns (r: Result<()>)
      requires Valid()
      modifies this
      ensures Valid() && OnlyDiscussions()
      ensures discussionId !in old(discussions) ==> r == Err(NotFound(DiscussionDoc)) && discussions == old(discussions)
      ensures discussionId in old(discussions) ==> r.Ok? && discussions == old(discussions) - {discussionId}
    {
      if discussionId !in discussions {
        return Err(NotFound(DiscussionDoc));
      }
      discussions := discussions - {discussionId};
      r := Ok(());
    }

    // -------------------------------------------------------------------
    // Users

    /**
     * `assignLRN`: an LRN held by any user, the target included, is refused;
     * that check comes before the lookup of the target.
     */
    method AssignLrn(userId: Id, lrn: string) returns (r: Result<User>)
      requires Valid()
      modifies this
      ensures Valid() && OnlyUsers()
      ensures (exists id :: id in old(users) && old(users)[id].lrn == Some(lrn)) ==>
                r == Err(BadRequest(LrnInUse)) && users == old(users)
      ensures (forall id :: id in old(users) ==> old(users)[id].lrn != Some(lrn)) && userId !in old(users) ==>
                r == Err(NotFound(UserDoc)) && users == old(users)
      ensures (forall id :: id in old(users) ==> old(users)[id].lrn != Some(lrn)) && userId in old(users) ==>
                r == Ok(old(users)[userId].(lrn := Some(lrn))) && users == old(users)[userId := r.value]
      ensures DistinctLrns(old(users)) ==> DistinctLrns(users)
    {
      if exists id :: id in users && users[id].lrn == Some(lrn) {
        return Err(BadRequest(LrnInUse));
      }
      if userId !in users {
        return Err(NotFound(UserDoc));
      }
      var user := users[userId].(lrn := Some(lrn));
      users := users[userId := user];
      r := Ok(user);
    }

    /** `addSectionToUser`: the section must exist, then the user; a section already listed is refused. */
    method AddSectionToUser(userId: Id, sectionId: Id) returns (r: Result<User>)
      requires Valid()
      modifies this
      ensures Valid() && OnlyUsers()
      ensures sectionId !in old(sections) ==> r == Err(NotFound(SectionDoc)) && users == old(users)
      ensures sectionId in old(sections) && userId !in old(users) ==> r == Err(NotFound(UserDoc)) && users == old(users)
      ensures sectionId in old(sections) && userId in old(users) ==>
                var before := old(users)[userId];
                match AddUnique(before.sections, sectionId, SectionAlreadyAdded)
                case Err(e) => r == Err(e) && users == old(users)
                case Ok(list) => r == Ok(before.(sections := list)) && users == old(users)[userId := r.value]
    {
      if sectionId !in sections {
        return Err(NotFound(SectionDoc));
      }
      if userId !in users {
        return Err(NotFound(UserDoc));
      }
      var user := users[userId];
      if sectionId in user.sections {
        return Err(BadRequest(SectionAlreadyAdded));
      }
      user := user.(sections := user.sections + [sectionId]);
      users := users[userId := user];
      r := Ok(user);
    }

    // -------------------------------------------------------------------
    // Subjects

    /** `newSubject.save()`: the schema's check, then the new document under a fresh id. */
    method SaveSubject(doc: Subject) returns (r: Result<Id>)
      requires Valid()
      modifies this
      ensures Valid() && OnlySubjects()
      ensures SubjectSchemaAccepts(doc) ==> r.Ok? && r.value !in old(subjects) && subjects == old(subjects)[r.value := doc]
      ensures !SubjectSchemaAccepts(doc) ==> r == Err(ServerError) && subjects == old(subjects)
    {
      if !SubjectSchemaAccepts(doc) {
        return Err(ServerError);
      }
      var id := nextId;
      nextId := nextId + 1;
      subjects := subjects[id := doc];
      r := Ok(id);
    }

    /**
     * `addSubject` as written: the three request fields, then the teacher,
     * then the section. The document it builds has no start time, end time
     * or schedule, so the schema refuses every save.
     */
    method AddSubject(name: Option<string>, teacher: Option<Id>, section: Option<Id>) returns (r: Result<Id>)
      requires Valid()
      modifies this
      ensures Valid() && OnlySubjects() && subjects == old(subjects)
      ensures !Given(name) || teacher.None? || section.None? ==> r == Err(BadRequest(FieldsRequired))
      ensures Given(name) && teacher.Some? && section.Some? && teacher.value !in old(users) ==> r == Err(NotFound(TeacherDoc))
      ensures Given(name) && teacher.Some? && section.Some? && teacher.value in old(users) && section.value !in old(sections) ==>
                r == Err(NotFound(SectionDoc))
      ensures Given(name) && teacher.Some? && section.Some? && teacher.value in old(users) && section.value in old(sections) ==>
                r == Err(ServerError)
      ensures r.Err?
    {
      if !Given(name) || teacher.None? || section.None? {
        return Err(BadRequest(FieldsRequired));
      }
      if teacher.value !in users {
        return Err(NotFound(TeacherDoc));
      }
      if section.value !in sections {
        return Err(NotFound(SectionDoc));
      }
      var doc := Subject(name.value, teacher, section, "", "", "");
      UnscheduledSubjectRefused(name.value, teacher, section);
      r := SaveSubject(doc);
    }

    /** `addSubject` with the schedule strings passed on to the new document: the same checks, then a saved subject. */
    method AddSubjectWithSchedule(name: Option<string>, teacher: Option<Id>, section: Option<Id>,
                                  startTime: string, endTime: string, schedule: string) returns (r: Result<Id>)
      requires Valid()
      modifies this
      ensures Valid() && OnlySubjects()
      ensures !Given(name) || teacher.None? || section.None? ==> r == Err(BadRequest(FieldsRequired))
      ensures Given(name) && teacher.Some? && section.Some? && teacher.value !in old(users) ==> r == Err(NotFound(TeacherDoc))
      ensures Given(name) && teacher.Some? && section.Some? && teacher.value in old(users) && section.value !in old(sections) ==>
                r == Err(NotFound(SectionDoc))
      ensures r.Err? ==> subjects == old(subjects)
      ensures Given(name) && teacher.Some? && section.Some? && teacher.value in old(users) && section.value in old(sections) ==>
                var doc := Subject(name.value, teacher, section, startTime, endTime, schedule);
                && (SubjectSchemaAccepts(doc) ==> r.Ok? && r.value !in old(subjects) && subjects == old(subjects)[r.value := doc])
                && (!SubjectSchemaAccepts(doc) ==> r == Err(ServerError))
    {
      if !Given(name) || teacher.None? || section.None? {
        return Err(BadRequest(FieldsRequired));
      }
      if teacher.value !in users {
        return Err(NotFound(TeacherDoc));
      }
      if section.value !in sections {
        return Err(NotFound(SectionDoc));
      }
      var doc := Subject(name.value, teacher, section, startTime, endTime, schedule);
      r := SaveSubject(doc);
    }

    /** `getAllSubjectsByTeacherId`: the teacher's subjects, 404 when there are none. */
    function SubjectsByTeacher(teacherId: Id): (r: Result<map<Id, Subject>>)
      reads this
      ensures r.Err? <==> forall id :: id in subjects ==> subjects[id].teacher != Some(teacherId)
      ensures r.Err? ==> r.error == NotFound(SubjectDoc)
      ensures r.Ok? ==> forall id :: id in r.value <==> id in subjects && subjects[id].teacher == Some(teacherId)
      ensures r.Ok? ==> forall id :: id in r.value ==> r.value[id] == subjects[id]
    {
      var found := Where(subjects, (s: Subject) => s.teacher == Some(teacherId));
      assert found == map[] <==> forall id :: id in subjects ==> subjects[id].teacher != Some(teacherId) by {
        if found != map[] {
          var id := Pick(found.Keys);
        }
      }
      NonEmptyOr(found, SubjectDoc)
    }

    /** `getSubjectsBySectionId`: the section's subjects, 404 when there are none. */
    function SubjectsBySection(sectionId: Id): (r: Result<map<Id, Subject>>)
      reads this
      ensures r.Err? <==> forall id :: id in subjects ==> subjects[id].section != Some(sectionId)
      ensures r.Err? ==> r.error == NotFound(SubjectDoc)
      ensures r.Ok? ==> forall id :: id in r.value <==> id in subjects && subjects[id].section == Some(sectionId)
      ensures r.Ok? ==> forall id :: id in r.value ==> r.value[id] == subjects[id]
    {
      var found := Where(subjects, (s: Subject) => s.section == Some(sectionId));
      assert found == map[] <==> forall id :: id in subjects ==> subjects[id].section != Some(sectionId) by {
        if found != map[] {
          var id := Pick(found.Keys);
        }
      }
      NonEmptyOr(found, SubjectDoc)
    }

    /**
     * `getStudentSubjects`: some section that lists the student (which one
     * is up to the database) and that section's subjects, possibly none.
     */
    method StudentSubjectsOf(studentId: Id) returns (r: Result<StudentSubjects>)
      ensures r.Err? <==> forall id :: id in sections ==> studentId !in sections[id].students
      ensures r.Err? ==> r.error == NotFound(StudentSectionDoc)
      ensures r.Ok? ==> r.value.section in sections && studentId in sections[r.value.section].students
      ensures r.Ok? ==> r.value.subjects == Details(Where(subjects, (s: Subject) => s.section == Some(r.value.section)))
    {
      var holding := set id | id in sections && studentId in sections[id].students;
      if holding == {} {
        assert forall id :: id in sections && studentId in sections[id].students ==> id in holding;
        return Err(NotFound(StudentSectionDoc));
      }
      var sectionId := Choose(holding);
      var found := Where(subjects, (s: Subject) => s.section == Some(sectionId));
      r := Ok(StudentSubjects(sectionId, Details(found)));
    }
  }

  /** The document `addSubject` builds fails the schema's `required` check, whatever the request holds. */
  lemma UnscheduledSubjectRefused(name: string, teacher: Option<Id>, section: Option<Id>)
    ensures !SubjectSchemaAccepts(Subject(name, teacher, section, "", "", ""))
  {
  }
}
