/**
 * The stored shape of the three graded-activity documents (exam,
 * assignment, quiz). Their schemas share the question, option and score
 * sub-documents and differ only in two fields: exams and assignments have
 * `passMarks`, assignments and quizzes have `deadline`.
 */
module Activities {
  import opened Base

  datatype Kind = ExamKind | AssignmentKind | QuizKind

  /** The exam and assignment schemas declare a required `passMarks`; the quiz schema has none. */
  predicate HasPassMarks(k: Kind) {
    k != QuizKind
  }

  /** The assignment and quiz schemas declare a required `deadline`; the exam schema has none. */
  predicate HasDeadline(k: Kind) {
    k != ExamKind
  }

  /** An answer option: `optionText` and `isCorrect` are both required. */
  datatype Choice = Choice(optionText: string, isCorrect: bool)

  /** A question: `questionText`, its ordered options, and the marks a correct answer earns. */
  datatype Question = Question(questionText: string, options: seq<Choice>, marks: real)

  /**
   * One entry of an activity's `scores` list. `date` is `examDate` for exams
   * and quizzes and `assignmentDate` for assignments.
   */
  datatype ScoreRecord = ScoreRecord(studentId: Id, obtainedMarks: real, passed: bool, date: Time)

  /** A stored exam, assignment or quiz. */
  datatype Activity = Activity(
    kind: Kind,
    title: string,
    description: string,
    subject: Id,
    questions: seq<Question>,
    duration: real,
    totalMarks: real,
    passMarks: Option<real>,
    deadline: Option<Time>,
    createdAt: Time,
    updatedAt: Time,
    scores: seq<ScoreRecord>)

  /** The fields a document of kind `k` has: a pass mark exactly for exams and assignments, a deadline exactly for assignments and quizzes. */
  predicate Shape(k: Kind, a: Activity) {
    && a.kind == k
    && (a.passMarks.Some? <==> HasPassMarks(k))
    && (a.deadline.Some? <==> HasDeadline(k))
  }

  /**
   * What the create handlers check of every question before saving it:
   * non-empty text, at least one option, every option with non-empty text,
   * and positive marks. The schema itself requires none of the list
   * lengths.
   */
  predicate WellFormedQuestion(q: Question) {
    && q.questionText != ""
    && |q.options| > 0
    && (forall i :: 0 <= i < |q.options| ==> q.options[i].optionText != "")
    && q.marks > 0.0
  }

  /** The fields of a new activity that the create handlers take from the request. */
  datatype Draft = Draft(
    title: string,
    description: string,
    subject: Id,
    questions: seq<Question>,
    duration: real,
    totalMarks: real,
    passMarks: Option<real>,
    deadline: Option<Time>)

  /** Everything a successful create has checked of a draft of kind `k`. */
  predicate Conforms(k: Kind, d: Draft) {
    && |d.questions| > 0
    && (forall i :: 0 <= i < |d.questions| ==> WellFormedQuestion(d.questions[i]))
    && d.duration > 0.0
    && d.totalMarks > 0.0
    && (d.passMarks.Some? <==> HasPassMarks(k))
    && (d.passMarks.Some? ==> d.passMarks.value >= 0.0)
    && (d.deadline.Some? <==> HasDeadline(k))
  }

  /**
   * Mongoose's `required` check when the new document is saved: a required
   * String may not be missing or empty. Question and option texts are
   * already non-empty after the handler's own checks, so only the title and
   * description remain.
   */
  predicate SchemaAccepts(d: Draft) {
    d.title != "" && d.description != ""
  }

  /** The stored document for a draft: both timestamps default to the creation time and the score list starts empty. */
  function NewActivity(k: Kind, d: Draft, now: Time): (a: Activity)
    ensures Conforms(k, d) ==> Shape(k, a)
    ensures a.createdAt == now && a.updatedAt == now && a.scores == []
    ensures && a.kind == k && a.title == d.title && a.description == d.description && a.subject == d.subject
            && a.questions == d.questions && a.duration == d.duration && a.totalMarks == d.totalMarks
            && a.passMarks == d.passMarks && a.deadline == d.deadline
  {
    Activity(k, d.title, d.description, d.subject, d.questions, d.duration, d.totalMarks,
             d.passMarks, d.deadline, now, now, [])
  }

  /** The fields an edit request may supply; `None` means the field is absent from the request body. */
  datatype Patch = Patch(
    title: Option<string>,
    description: Option<string>,
    subject: Option<Id>,
    questions: Option<seq<Question>>,
    duration: Option<real>,
    totalMarks: Option<real>,
    passMarks: Option<real>,
    deadline: Option<Time>,
    createdAt: Option<Time>,
    scores: Option<seq<ScoreRecord>>)

  const NoChanges := Patch(None, None, None, None, None, None, None, None, None, None)

  /**
   * `findByIdAndUpdate(id, {...updatedData, updatedAt: Date.now()})`: every
   * supplied field replaces the stored one, `updatedAt` is always the
   * current time, and a field the kind's schema lacks is dropped (strict
   * mode), so a quiz never gains a pass mark nor an exam a deadline.
   */
  function ApplyPatch(a: Activity, p: Patch, now: Time): (r: Activity)
    ensures Shape(a.kind, a) ==> Shape(a.kind, r)
    ensures r.kind == a.kind && r.updatedAt == now
    ensures p.title.None? ==> r.title == a.title
    ensures p.description.None? ==> r.description == a.description
    ensures p.subject.None? ==> r.subject == a.subject
    ensures p.questions.None? ==> r.questions == a.questions
    ensures p.duration.None? ==> r.duration == a.duration
    ensures p.totalMarks.None? ==> r.totalMarks == a.totalMarks
    ensures p.passMarks.None? || !HasPassMarks(a.kind) ==> r.passMarks == a.passMarks
    ensures p.deadline.None? || !HasDeadline(a.kind) ==> r.deadline == a.deadline
    ensures p.createdAt.None? ==> r.createdAt == a.createdAt
    ensures p.scores.None? ==> r.scores == a.scores
    ensures p.title.Some? ==> r.title == p.title.value
    ensures p.description.Some? ==> r.description == p.description.value
    ensures p.subject.Some? ==> r.subject == p.subject.value
    ensures p.questions.Some? ==> r.questions == p.questions.value
    ensures p.duration.Some? ==> r.duration == p.duration.value
    ensures p.totalMarks.Some? ==> r.totalMarks == p.totalMarks.value
    ensures p.passMarks.Some? && HasPassMarks(a.kind) ==> r.passMarks == p.passMarks
    ensures p.deadline.Some? && HasDeadline(a.kind) ==> r.deadline == p.deadline
    ensures p.createdAt.Some? ==> r.createdAt == p.createdAt.value
    ensures p.scores.Some? ==> r.scores == p.scores.value
    ensures p == NoChanges ==> r == a.(updatedAt := now)
  {
    Activity(
      a.kind,
      p.title.GetOr(a.title),
      p.description.GetOr(a.description),
      p.subject.GetOr(a.subject),
      p.questions.GetOr(a.questions),
      p.duration.GetOr(a.duration),
      p.totalMarks.GetOr(a.totalMarks),
      if HasPassMarks(a.kind) && p.passMarks.Some? then p.passMarks else a.passMarks,
      if HasDeadline(a.kind) && p.deadline.Some? then p.deadline else a.deadline,
      p.createdAt.GetOr(a.createdAt),
      now,
      p.scores.GetOr(a.scores))
  }

  /** Re-sending the same edit changes nothing but `updatedAt`. */
  lemma ApplyPatchTwice(a: Activity, p: Patch, t1: Time, t2: Time)
    ensures ApplyPatch(ApplyPatch(a, p, t1), p, t2) == ApplyPatch(a, p, t2)
  {
  }

  /** The schema does not demand a non-empty question list: only the create handlers do. */
  lemma SchemaAllowsEmptyLists(k: Kind, d: Draft)
    ensures SchemaAccepts(d.(questions := [])) == SchemaAccepts(d)
    ensures !Conforms(k, d.(questions := []))
  {
  }
}
