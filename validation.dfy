/**
 * The request checks of `createExam`, `createAssignment` and `createQuiz`.
 * The three handlers run the same checks in the same order; the first
 * failing check decides the answer. They differ only in whether the pass
 * mark is checked (not for quizzes) and whether a deadline is checked last
 * (not for exams).
 */
module Validation {
  import opened Base
  import opened Json
  import opened Activities
  import opened Grading

  /**
   * `for (const x of xs) { ...; if (bad) return error; }`: check each
   * element in order and stop at the first failure. On success the checked
   * elements are returned in order.
   */
  function Traverse<A, B>(xs: seq<A>, check: A -> Result<B>): (r: Result<seq<B>>)
    ensures r.Ok? ==> |r.value| == |xs| && forall i :: 0 <= i < |xs| ==> check(xs[i]) == Ok(r.value[i])
    ensures r.Err? ==> exists i :: 0 <= i < |xs| && check(xs[i]) == Err(r.error) && FirstFailureAt(xs, check, i)
  {
    if xs == [] then Ok([])
    else
      var head :- check(xs[0]);
      var tail := Traverse(xs[1..], check);
      if tail.Err? then
        ghost var i :| 0 <= i < |xs[1..]| && check(xs[1..][i]) == Err(tail.error) && FirstFailureAt(xs[1..], check, i);
        assert FirstFailureAt(xs, check, i + 1);
        Err(tail.error)
      else
        Ok([head] + tail.value)
  }

  /** Every element before index `i` passes its check and the one at `i` fails. */
  ghost predicate FirstFailureAt<A, B>(xs: seq<A>, check: A -> Result<B>, i: int) {
    && 0 <= i < |xs|
    && check(xs[i]).Err?
    && forall j :: 0 <= j < i ==> check(xs[j]).Ok?
  }

  /** The first failing element decides the error, whatever follows it. */
  lemma FirstFailureDecides<A, B>(xs: seq<A>, check: A -> Result<B>, i: int)
    requires FirstFailureAt(xs, check, i)
    ensures Traverse(xs, check) == Err(check(xs[i]).error)
  {
  }

  /** One option of a question: the text is checked before the correctness flag. */
  function CheckChoice(v: Value): (r: Result<Choice>)
    ensures r == Err(ServerError) <==> v.Undefined? || v.Null?
    ensures r.Ok? ==> && r.value.optionText != ""
                      && v.Obj? && "optionText" in v.fields && "isCorrect" in v.fields
                      && v.fields["optionText"] == Str(r.value.optionText)
                      && v.fields["isCorrect"] == Bool(r.value.isCorrect)
    ensures !(v.Undefined? || v.Null?) && !IsNonEmptyString(Get(v, "optionText").value) ==>
              r == Err(BadRequest(OptionTextInvalid))
    ensures !(v.Undefined? || v.Null?) && IsNonEmptyString(Get(v, "optionText").value) ==>
              (r == Err(BadRequest(CorrectnessMissing)) <==> !Get(v, "isCorrect").value.Bool?)
    ensures !(v.Undefined? || v.Null?) && IsNonEmptyString(Get(v, "optionText").value) && Get(v, "isCorrect").value.Bool? ==>
              r == Ok(Choice(Get(v, "optionText").value.s, Get(v, "isCorrect").value.b))
  {
    var text :- Get(v, "optionText");
    if !IsNonEmptyString(text) then Err(BadRequest(OptionTextInvalid))
    else
      var flag := Get(v, "isCorrect").value;
      if !flag.Bool? then Err(BadRequest(CorrectnessMissing))
      else Ok(Choice(text.s, flag.b))
  }

  /** One question: its text, then that it has options, then each option, then its marks. */
  function CheckQuestion(v: Value): (r: Result<Question>)
    ensures r.Ok? ==> && WellFormedQuestion(r.value)
                      && v.Obj? && "questionText" in v.fields && "options" in v.fields && "marks" in v.fields
                      && v.fields["questionText"] == Str(r.value.questionText)
                      && v.fields["marks"] == Num(r.value.marks)
                      && v.fields["options"].Arr? && |v.fields["options"].items| == |r.value.options|
    ensures r.Ok? ==> forall i :: 0 <= i < |r.value.options| ==>
                        CheckChoice(v.fields["options"].items[i]) == Ok(r.value.options[i])
    ensures r == Err(ServerError) <==>
              || v.Undefined? || v.Null?
              || (&& IsNonEmptyString(Get(v, "questionText").value) && IsNonEmptyArray(Get(v, "options").value)
                  && Traverse(Get(v, "options").value.items, CheckChoice) == Err(ServerError))
    ensures !(v.Undefined? || v.Null?) && !IsNonEmptyString(Get(v, "questionText").value) ==>
              r == Err(BadRequest(QuestionTextInvalid))
    ensures !(v.Undefined? || v.Null?) && IsNonEmptyString(Get(v, "questionText").value) &&
            !IsNonEmptyArray(Get(v, "options").value) ==>
              r == Err(BadRequest(OptionsRequired))
    ensures !(v.Undefined? || v.Null?) && IsNonEmptyString(Get(v, "questionText").value) &&
            IsNonEmptyArray(Get(v, "options").value) && Traverse(Get(v, "options").value.items, CheckChoice).Err? ==>
              r == Err(Traverse(Get(v, "options").value.items, CheckChoice).error)
    ensures !(v.Undefined? || v.Null?) && IsNonEmptyString(Get(v, "questionText").value) &&
            IsNonEmptyArray(Get(v, "options").value) && Traverse(Get(v, "options").value.items, CheckChoice).Ok? ==>
              (r == Err(BadRequest(MarksInvalid)) <==> !IsPositiveNumber(Get(v, "marks").value))
    ensures !(v.Undefined? || v.Null?) && IsNonEmptyString(Get(v, "questionText").value) &&
            IsNonEmptyArray(Get(v, "options").value) && Traverse(Get(v, "options").value.items, CheckChoice).Ok? &&
            IsPositiveNumber(Get(v, "marks").value) ==>
              r == Ok(Question(Get(v, "questionText").value.s, Traverse(Get(v, "options").value.items, CheckChoice).value,
                               Get(v, "marks").value.n))
  {
    var text :- Get(v, "questionText");
    if !IsNonEmptyString(text) then Err(BadRequest(QuestionTextInvalid))
    else
      var options := Get(v, "options").value;
      if !IsNonEmptyArray(options) then Err(BadRequest(OptionsRequired))
      else
        var choices :- Traverse(options.items, CheckChoice);
        var marks := Get(v, "marks").value;
        if !IsPositiveNumber(marks) then Err(BadRequest(MarksInvalid))
        else Ok(Question(text.s, choices, marks.n))
  }

  /** The fields of a create request body, as the handlers destructure them. */
  datatype Body = Body(
    title: string,
    description: string,
    subject: Id,
    questions: Value,
    duration: Value,
    totalMarks: Value,
    passMarks: Value,
    deadline: Value)

  /** `!deadline || isNaN(new Date(deadline))` is false; `parsed` is what `new Date(deadline)` yields. */
  predicate DeadlineAccepted(deadline: Value, parsed: Option<Time>) {
    Truthy(deadline) && parsed.Some?
  }

  /** The subject exists and `questions` is a non-empty array: the question-by-question checks run. */
  predicate QuestionsReached(body: Body, subjectExists: bool) {
    subjectExists && IsNonEmptyArray(body.questions)
  }

  /** Every question passed as well: the checks of duration, total, pass mark and deadline run. */
  predicate ScalarsReached(body: Body, subjectExists: bool) {
    QuestionsReached(body, subjectExists) && Traverse(body.questions.items, CheckQuestion).Ok?
  }

  /**
   * The checks a create handler of kind `k` performs, in its order.
   * `subjectExists` is the outcome of `Subject.findById(subject)` and
   * `parsedDeadline` the outcome of `new Date(deadline)` (None for an
   * Invalid Date); both are calls outside this model.
   */
  function ValidateActivity(k: Kind, body: Body, subjectExists: bool, parsedDeadline: Option<Time>): (r: Result<Draft>)
    ensures !subjectExists ==> r == Err(NotFound(SubjectDoc))
    ensures subjectExists && !IsNonEmptyArray(body.questions) ==> r == Err(BadRequest(QuestionsRequired))
    ensures r.Ok? ==> && Conforms(k, r.value)
                      && r.value.title == body.title
                      && r.value.description == body.description
                      && r.value.subject == body.subject
                      && body.questions.Arr? && |r.value.questions| == |body.questions.items|
                      && body.duration == Num(r.value.duration)
                      && body.totalMarks == Num(r.value.totalMarks)
                      && (HasPassMarks(k) ==> body.passMarks == Num(r.value.passMarks.value))
                      && (HasDeadline(k) ==> r.value.deadline == parsedDeadline)
    ensures r.Ok? ==> forall i :: 0 <= i < |r.value.questions| ==>
                        CheckQuestion(body.questions.items[i]) == Ok(r.value.questions[i])
    ensures QuestionsReached(body, subjectExists) && Traverse(body.questions.items, CheckQuestion).Err? ==>
              r == Err(Traverse(body.questions.items, CheckQuestion).error)
    ensures ScalarsReached(body, subjectExists) ==>
              (r == Err(BadRequest(DurationInvalid)) <==> !IsPositiveNumber(body.duration))
    ensures ScalarsReached(body, subjectExists) && IsPositiveNumber(body.duration) ==>
              (r == Err(BadRequest(TotalMarksInvalid)) <==> !IsPositiveNumber(body.totalMarks))
    ensures ScalarsReached(body, subjectExists) && IsPositiveNumber(body.duration) && IsPositiveNumber(body.totalMarks) ==>
              (r == Err(BadRequest(PassMarksInvalid)) <==> HasPassMarks(k) && !IsNonNegativeNumber(body.passMarks))
    ensures ScalarsReached(body, subjectExists) && IsPositiveNumber(body.duration) && IsPositiveNumber(body.totalMarks)
            && (HasPassMarks(k) ==> IsNonNegativeNumber(body.passMarks)) ==>
              (r == Err(BadRequest(DeadlineInvalid)) <==> HasDeadline(k) && !DeadlineAccepted(body.deadline, parsedDeadline))
    ensures r.Ok? <==> && ScalarsReached(body, subjectExists)
                       && IsPositiveNumber(body.duration) && IsPositiveNumber(body.totalMarks)
                       && (HasPassMarks(k) ==> IsNonNegativeNumber(body.passMarks))
                       && (HasDeadline(k) ==> DeadlineAccepted(body.deadline, parsedDeadline))
  {
    if !subjectExists then Err(NotFound(SubjectDoc))
    else if !IsNonEmptyArray(body.questions) then Err(BadRequest(QuestionsRequired))
    else
      var questions :- Traverse(body.questions.items, CheckQuestion);
      if !IsPositiveNumber(body.duration) then Err(BadRequest(DurationInvalid))
      else if !IsPositiveNumber(body.totalMarks) then Err(BadRequest(TotalMarksInvalid))
      else if HasPassMarks(k) && !IsNonNegativeNumber(body.passMarks) then Err(BadRequest(PassMarksInvalid))
      else if HasDeadline(k) && !DeadlineAccepted(body.deadline, parsedDeadline) then Err(BadRequest(DeadlineInvalid))
      else
        Ok(Draft(body.title, body.description, body.subject, questions,
                 body.duration.n, body.totalMarks.n,
                 if HasPassMarks(k) then Some(body.passMarks.n) else None,
                 if HasDeadline(k) then parsedDeadline else None))
  }

  // ---------------------------------------------------------------------
  // Relations between the three kinds

  /**
   * `createAssignment` runs exactly the exam's checks, in the exam's order,
   * and then the deadline check as the last one.
   */
  lemma AssignmentIsExamThenDeadline(body: Body, subjectExists: bool, parsed: Option<Time>)
    ensures ValidateActivity(AssignmentKind, body, subjectExists, parsed) ==
      match ValidateActivity(ExamKind, body, subjectExists, parsed)
      case Err(e) => Err(e)
      case Ok(d) =>
        if DeadlineAccepted(body.deadline, parsed) then Ok(d.(deadline := parsed))
        else Err(BadRequest(DeadlineInvalid))
  {
  }

  /**
   * `createQuiz` runs the assignment's checks with the pass-mark check
   * removed: its outcome is the assignment's for a body whose pass mark is
   * acceptable, without a stored pass mark.
   */
  lemma QuizIsAssignmentWithoutPassMarks(body: Body, subjectExists: bool, parsed: Option<Time>)
    ensures ValidateActivity(QuizKind, body, subjectExists, parsed) ==
      match ValidateActivity(AssignmentKind, body.(passMarks := Num(0.0)), subjectExists, parsed)
      case Err(e) => Err(e)
      case Ok(d) => Ok(d.(passMarks := None))
  {
  }

  /** A quiz never reads the pass mark of its request, and an exam never reads the deadline. */
  lemma UnreadFieldsIgnored(body: Body, subjectExists: bool, parsed: Option<Time>, pm: Value, dl: Value, parsed': Option<Time>)
    ensures ValidateActivity(QuizKind, body.(passMarks := pm), subjectExists, parsed) ==
            ValidateActivity(QuizKind, body, subjectExists, parsed)
    ensures ValidateActivity(ExamKind, body.(deadline := dl), subjectExists, parsed') ==
            ValidateActivity(ExamKind, body, subjectExists, parsed)
  {
  }

  // ---------------------------------------------------------------------
  // Encoding a well-formed draft as a request body, and validating it back

  function EncodeChoice(c: Choice): Value {
    Obj(map["optionText" := Str(c.optionText), "isCorrect" := Bool(c.isCorrect)])
  }

  function EncodeQuestion(q: Question): Value {
    Obj(map["questionText" := Str(q.questionText),
            "options" := Arr(MapSeq(q.options, EncodeChoice)),
            "marks" := Num(q.marks)])
  }

  function MapSeq<A, B>(xs: seq<A>, f: A -> B): (ys: seq<B>)
    ensures |ys| == |xs| && forall i :: 0 <= i < |xs| ==> ys[i] == f(xs[i])
  {
    if xs == [] then [] else [f(xs[0])] + MapSeq(xs[1..], f)
  }

  /**
   * The request body for a draft of kind `k`. `deadline` is the request's
   * deadline value; the draft's deadline is what it parses to.
   */
  function EncodeBody(k: Kind, d: Draft, deadline: Value): Body {
    Body(d.title, d.description, d.subject,
         Arr(MapSeq(d.questions, EncodeQuestion)),
         Num(d.duration), Num(d.totalMarks),
         if d.passMarks.Some? then Num(d.passMarks.value) else Undefined,
         deadline)
  }

  /** Re-checking what a check accepted gives back the same elements. */
  lemma {:induction false} TraverseInverts<A, B>(xs: seq<B>, encode: B -> A, check: A -> Result<B>)
    requires forall i :: 0 <= i < |xs| ==> check(encode(xs[i])) == Ok(xs[i])
    ensures Traverse(MapSeq(xs, encode), check) == Ok(xs)
  {
    if xs != [] {
      var ys := MapSeq(xs, encode);
      assert ys[1..] == MapSeq(xs[1..], encode);
      TraverseInverts(xs[1..], encode, check);
      assert xs == [xs[0]] + xs[1..];
    }
  }

  lemma ChoiceRoundTrip(c: Choice)
    requires c.optionText != ""
    ensures CheckChoice(EncodeChoice(c)) == Ok(c)
  {
  }

  lemma QuestionRoundTrip(q: Question)
    requires WellFormedQuestion(q)
    ensures CheckQuestion(EncodeQuestion(q)) == Ok(q)
  {
    forall i | 0 <= i < |q.options|
      ensures CheckChoice(EncodeChoice(q.options[i])) == Ok(q.options[i])
    {
      ChoiceRoundTrip(q.options[i]);
    }
    TraverseInverts(q.options, EncodeChoice, CheckChoice);
  }

  /**
   * Round trip: every draft a create handler of kind `k` would store, sent as
   * a request body with an accepted deadline, passes every check and is
   * stored unchanged.
   */
  lemma ValidateEncodedDraft(k: Kind, d: Draft, deadline: Value)
    requires Conforms(k, d)
    requires HasDeadline(k) ==> Truthy(deadline)
    ensures ValidateActivity(k, EncodeBody(k, d, deadline), true, d.deadline) == Ok(d)
  {
    forall i | 0 <= i < |d.questions|
      ensures CheckQuestion(EncodeQuestion(d.questions[i])) == Ok(d.questions[i])
    {
      QuestionRoundTrip(d.questions[i]);
    }
    TraverseInverts(d.questions, EncodeQuestion, CheckQuestion);
  }

  // ---------------------------------------------------------------------
  // Checks the handlers do not make

  /**
   * No create handler compares the pass mark with the total, nor the total
   * with the sum of the question marks: an exam with a pass mark of 10 out
   * of a total of 5, whose one question is worth 2, is accepted.
   */
  lemma PassMarksNotComparedWithTotal()
    ensures ValidateActivity(ExamKind, Witness, true, None).Ok?
    ensures Witness.passMarks.n > Witness.totalMarks.n
    ensures MarksAvailable(ValidateActivity(ExamKind, Witness, true, None).value.questions) != Witness.totalMarks.n
  {
    var q := Question("q", [Choice("a", true)], 2.0);
    QuestionRoundTrip(q);
    assert [EncodeQuestion(q)] == MapSeq([q], EncodeQuestion);
    TraverseInverts([q], EncodeQuestion, CheckQuestion);
  }

  const Witness := Body("t", "d", 0,
    Arr([EncodeQuestion(Question("q", [Choice("a", true)], 2.0))]),
    Num(30.0), Num(5.0), Num(10.0), Undefined)
}
