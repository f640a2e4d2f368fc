/**
 * Shared vocabulary of the school backend model: identifiers, timestamps,
 * the error kinds the controllers answer with, and a failure-compatible
 * Result type.
 */
module Base {

  /** Document identifiers (Mongo ObjectIds), treated as opaque values. */
  type Id = int

  /** A timestamp in milliseconds, as produced by `Date.now()`. */
  type Time = int

  /** Some element of a non-empty set, the same one every time. */
  ghost function Pick<T>(s: set<T>): (x: T)
    requires s != {}
    ensures x in s
  {
    var x :| x in s; x
  }

  /** `var x :| x in s` in compiled code, for a set of any element type. */
  method Choose<T>(s: set<T>) returns (x: T)
    requires s != {}
    ensures x in s
  {
    x :| x in s;
  }

  datatype Option<+T> = None | Some(value: T) {
    function GetOr(default: T): T {
      match this
      case Some(v) => v
      case None => default
    }
  }

  /** The kind of document a 404 answer names. */
  datatype Entity =
    | SubjectDoc | ExamDoc | AssignmentDoc | QuizDoc
    | SectionDoc | UserDoc | TeacherDoc | DiscussionDoc
    | StudentSectionDoc   // "Student does not belong to any section."

  /** The message a 400 answer carries. */
  datatype Reason =
    | QuestionsRequired        // "Questions array is required"
    | QuestionTextInvalid      // "Each question must have valid question text."
    | OptionsRequired          // "Each question must have at least one option."
    | OptionTextInvalid        // "Each option must have valid option text."
    | CorrectnessMissing       // "Each option must specify if it is correct."
    | MarksInvalid             // "Each question must have valid marks."
    | DurationInvalid          // "Duration must be a positive number."
    | TotalMarksInvalid        // "Total marks must be a positive number."
    | PassMarksInvalid         // "Pass marks must be a non-negative number."
    | DeadlineInvalid          // "Deadline must be a valid date."
    | UserIdRequired           // "User ID is required"
    | SectionNameTaken         // "Section name already exists"
    | TeacherAlreadyAdded      // "Teacher already added"
    | StudentAlreadyAdded      // "Student already added"
    | LrnInUse                 // "LRN already in use by another user"
    | SectionAlreadyAdded      // "Section already added to user"
    | FieldsRequired           // "All fields are required"

  /**
   * What a handler answers when it does not succeed: 404, 400, or 500 (an
   * exception caught by the handler's own try/catch).
   */
  datatype Error = NotFound(what: Entity) | BadRequest(why: Reason) | ServerError

  datatype Result<+T> = Ok(value: T) | Err(error: Error) {
    predicate IsFailure() {
      Err?
    }

    function PropagateFailure<U>(): Result<U>
      requires Err?
    {
      Err(error)
    }

    function Extract(): T
      requires Ok?
    {
      value
    }
  }
}
