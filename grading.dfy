/**
 * The grading loop of `takeExam`: answers are matched to questions by
 * position, and a question earns its marks exactly when its answer is the
 * index of one of its options and that option is marked correct.
 */
module Grading {
  import opened Json
  import opened Activities

  /**
   * `typeof a === "number" && a >= 0 && a < options.length` followed by
   * `options[a]` being defined: only an integral index in range selects an
   * option (a fractional number in range reads `undefined`).
   */
  predicate SelectsOption(answer: Value, optionCount: nat) {
    && answer.Num?
    && 0.0 <= answer.n < optionCount as real
    && answer.n == answer.n.Floor as real
  }

  /** The option an in-range answer selects. */
  function Selected(q: Question, answer: Value): (c: Choice)
    requires SelectsOption(answer, |q.options|)
    ensures c in q.options
  {
    q.options[answer.n.Floor]
  }

  /** The marks one question contributes for one answer. */
  function Award(q: Question, answer: Value): (a: real)
    ensures a == 0.0 || a == q.marks
    ensures a != 0.0 ==> SelectsOption(answer, |q.options|) && Selected(q, answer).isCorrect
    ensures SelectsOption(answer, |q.options|) && Selected(q, answer).isCorrect ==> a == q.marks
  {
    if SelectsOption(answer, |q.options|) && Selected(q, answer).isCorrect then q.marks else 0.0
  }

  /** The sum of the awards of the first `|qs|` question/answer pairs, accumulated front to back. */
  function SumAwards(qs: seq<Question>, answers: seq<Value>): real
    requires |qs| == |answers|
  {
    if qs == [] then 0.0
    else SumAwards(qs[..|qs| - 1], answers[..|qs| - 1]) + Award(qs[|qs| - 1], answers[|qs| - 1])
  }

  /** The sum of the question marks. */
  function MarksAvailable(qs: seq<Question>): real {
    if qs == [] then 0.0 else MarksAvailable(qs[..|qs| - 1]) + qs[|qs| - 1].marks
  }

  /**
   * `obtainedMarks`: answers that are not an array whose length equals the
   * number of questions earn 0; otherwise each question's award counts.
   */
  function ObtainedMarks(qs: seq<Question>, answers: Value): (m: real)
    ensures m != 0.0 ==> answers.Arr? && |answers.items| == |qs|
  {
    if answers.Arr? && |answers.items| == |qs| then SumAwards(qs, answers.items) else 0.0
  }

  /** `passed` is `obtainedMarks >= passMarks`: the pass mark itself passes. */
  predicate Passes(obtained: real, passMarks: real)
    ensures obtained == passMarks ==> Passes(obtained, passMarks)
    ensures obtained < passMarks ==> !Passes(obtained, passMarks)
  {
    obtained >= passMarks
  }

  /** The grading loop: `forEach((question, index) => ...)` accumulating `obtainedMarks`. */
  method Grade(qs: seq<Question>, answers: Value) returns (obtained: real)
    ensures obtained == ObtainedMarks(qs, answers)
  {
    obtained := 0.0;
    if answers.Arr? && |answers.items| == |qs| {
      var index := 0;
      while index < |qs|
        invariant 0 <= index <= |qs|
        invariant obtained == SumAwards(qs[..index], answers.items[..index])
      {
        var question := qs[index];
        var studentAnswer := answers.items[index];
        if studentAnswer.Num? && studentAnswer.n >= 0.0 && studentAnswer.n < |question.options| as real {
          if studentAnswer.n == studentAnswer.n.Floor as real {
            var selectedOption := question.options[studentAnswer.n.Floor];
            if selectedOption.isCorrect {
              obtained := obtained + question.marks;
            }
          }
        }
        assert qs[..index + 1][..index] == qs[..index];
        assert answers.items[..index + 1][..index] == answers.items[..index];
        index := index + 1;
      }
      assert qs[..index] == qs;
      assert answers.items[..index] == answers.items;
    }
  }

  // ---------------------------------------------------------------------
  // Properties of the score

  predicate NonNegativeMarks(qs: seq<Question>) {
    forall i :: 0 <= i < |qs| ==> qs[i].marks >= 0.0
  }

  lemma {:induction false} SumAwardsBounds(qs: seq<Question>, answers: seq<Value>)
    requires |qs| == |answers| && NonNegativeMarks(qs)
    ensures 0.0 <= SumAwards(qs, answers) <= MarksAvailable(qs)
  {
    if qs != [] {
      SumAwardsBounds(qs[..|qs| - 1], answers[..|qs| - 1]);
    }
  }

  /** When no question has negative marks, the score lies between 0 and the sum of the question marks. */
  lemma ObtainedMarksBounds(qs: seq<Question>, answers: Value)
    requires NonNegativeMarks(qs)
    ensures 0.0 <= ObtainedMarks(qs, answers) <= MarksAvailable(qs)
  {
    if answers.Arr? && |answers.items| == |qs| {
      SumAwardsBounds(qs, answers.items);
    } else {
      MarksAvailableNonNegative(qs);
    }
  }

  lemma {:induction false} MarksAvailableNonNegative(qs: seq<Question>)
    requires NonNegativeMarks(qs)
    ensures MarksAvailable(qs) >= 0.0
  {
    if qs != [] {
      MarksAvailableNonNegative(qs[..|qs| - 1]);
    }
  }

  /**
   * Positional independence: changing the answer to question `i` changes the
   * score by exactly the difference of that question's awards, whatever the
   * other answers are.
   */
  lemma {:induction false} ChangeOneAnswer(qs: seq<Question>, answers: seq<Value>, i: nat, a: Value)
    requires |qs| == |answers| && i < |qs|
    ensures SumAwards(qs, answers[i := a]) ==
            SumAwards(qs, answers) - Award(qs[i], answers[i]) + Award(qs[i], a)
  {
    var n := |qs| - 1;
    if i == n {
      assert answers[i := a][..n] == answers[..n];
    } else {
      assert answers[i := a][..n] == answers[..n][i := a];
      ChangeOneAnswer(qs[..n], answers[..n], i, a);
    }
  }

  /** Answering every question with one of its correct options earns every mark. */
  lemma {:induction false} AllCorrectEarnsAll(qs: seq<Question>, answers: seq<Value>)
    requires |qs| == |answers|
    requires forall i :: 0 <= i < |qs| ==> SelectsOption(answers[i], |qs[i].options|) && Selected(qs[i], answers[i]).isCorrect
    ensures SumAwards(qs, answers) == MarksAvailable(qs)
  {
    if qs != [] {
      AllCorrectEarnsAll(qs[..|qs| - 1], answers[..|qs| - 1]);
    }
  }

  /** An answer that does not select a correct option, including any out-of-range index, earns nothing. */
  lemma {:induction false} IncorrectAnswerEarnsNothing(qs: seq<Question>, answers: seq<Value>, i: nat)
    requires |qs| == |answers| && i < |qs|
    requires !(SelectsOption(answers[i], |qs[i].options|) && Selected(qs[i], answers[i]).isCorrect)
    ensures SumAwards(qs, answers) == SumAwards(qs, answers[i := Undefined])
  {
    ChangeOneAnswer(qs, answers, i, Undefined);
  }
}
