# School LMS back end: graded activities, passing rates and list rules

This project models the part of a school learning-management back end that
decides things, rather than wiring requests to the database:

- **Graded activities.** Exams, assignments and quizzes are documents with
  questions, options, marks, a duration, a total and, depending on the kind,
  a pass mark and a deadline.
  - The three create handlers run one sequence of request checks. The first
    failing check decides the answer.
  - `takeExam` grades answers by position, decides pass or fail with an
    inclusive pass mark, and appends one score record.
  - The read handlers ask whether a student has taken an exam, project the
    score list, and list activities by subject.
  - Edit and delete are keyed updates of one collection.
- **Passing rates of a section.** Every score record of every assignment,
  exam and quiz counts as an attempt for its student when that student is in
  the section. It also counts as a pass when it is marked passed.
- **List and relationship rules.** These are the dedup-then-append updates:
  - a teacher or student into a section;
  - a section into a user;
  - a student into a discussion's read list.

  Section names and LRNs must be unused. Subject and discussion lookups answer
  404 when nothing matches.

Modules:

- `Base`: identifiers, `Option`, and the 404/400/500 outcomes as `Error` and `Result`.
- `Json`: request values with JavaScript truthiness and property access.
- `Activities`: the activity documents, the save-time schema check and the edit patch.
- `Validation`: the create checks. It also encodes a draft back into a request body and proves the round trip.
- `Grading`: the `takeExam` loop and its bounds.
- `Reporting`: the passing-rate loops, proved against an order-free count over each collection.
- `Records`: subjects, sections, users, discussions and the list rules over them.
- `School`: the database, a class `Store` with one map per collection. Its methods are the handlers, and its invariant `Valid` is kept by every method.

The clock (`Date.now()`, `new Date()`) and `new Date(deadline)` are parameters
(`now`, `parsedDeadline`). The existence of the request's subject is passed to
`ValidateActivity` as a flag that `School.Store.CreateActivity` computes from
the store. New documents get identifiers from a counter that stays above every
stored identifier.

## Model

| member | source | states |
|---|---|---|
| Json.Get | controllers/examController.js:31-57 | property access on null or undefined fails with 500; a missing property reads as undefined |
| Validation.Traverse | controllers/examController.js:30-62 | on success every element has passed its check, in order; on failure the error is that of an element before which all elements passed |
| Validation.FirstFailureDecides | controllers/examController.js:30-62 | the first failing question or option decides the answer, whatever follows it |
| Validation.CheckChoice | controllers/examController.js:43-54 | a null option is a 500; then a text that is not a non-empty string is `OptionTextInvalid`; then, with a good text, `CorrectnessMissing` exactly when `isCorrect` is not a boolean; an option with a good text and a boolean flag is accepted, whatever other fields it carries, as those two values |
| Validation.CheckQuestion | controllers/examController.js:30-62 | the checks fail in source order: a null question is a 500 (and a 500 otherwise comes only from a null option), then a bad text is `QuestionTextInvalid`, then missing or empty options `OptionsRequired`, then the first failing option's error, then non-positive marks `MarksInvalid` (exactly when the earlier checks passed); a question passing all four checks is accepted as its text, its checked options and its marks; an accepted question has non-empty text, at least one option, positive marks, and each stored option is what the option check made of the option sent at that position |
| Validation.ValidateActivity | controllers/examController.js:19-79 | the checks fail in source order, each exactly when the earlier ones passed: unknown subject (404), empty or non-array `questions`, the first failing question, duration, total marks, pass mark where the kind has one, deadline where it has one; the draft is accepted exactly when all pass, and then carries the submitted fields with each stored question the question check's result for the one sent at that position |
| Validation.DeadlineAccepted | controllers/assignmentController.js:81-89 | the deadline check passes exactly for a truthy deadline that parses to a date |
| Validation.AssignmentIsExamThenDeadline | controllers/assignmentController.js:19-89 | `createAssignment` gives the exam's answer, and then rejects a missing or unparseable deadline as its last check |
| Validation.QuizIsAssignmentWithoutPassMarks | controllers/quizController.js:17-93 | `createQuiz` gives the assignment's answer for a body whose pass mark is acceptable, and stores no pass mark |
| Validation.UnreadFieldsIgnored | controllers/quizController.js:17-82 | a quiz never looks at the request's pass mark, and an exam never looks at its deadline |
| Validation.TraverseInverts | controllers/examController.js:30-62 | the element checks accept again what they accepted, unchanged |
| Validation.ChoiceRoundTrip | controllers/examController.js:43-54 | an option with non-empty text, sent as a request value, is accepted unchanged |
| Validation.QuestionRoundTrip | controllers/examController.js:30-62 | a well-formed question, sent as a request value, is accepted unchanged |
| Validation.ValidateEncodedDraft | controllers/assignmentController.js:19-101 | every draft a create handler accepts, sent back as a request body, passes every check and gives that same draft |
| Validation.PassMarksNotComparedWithTotal | controllers/examController.js:65-79 | a pass mark above the total, and a total different from the sum of the question marks, are both accepted |
| Activities.NewActivity | controllers/examController.js:82-90 | a created document of kind `k` carries exactly the submitted title, description, subject, questions, duration, total, pass mark and deadline, has the fields of its kind, both timestamps at creation time, and no scores |
| Activities.ApplyPatch | controllers/assignmentController.js:185-196 | each supplied field takes the supplied value (pass mark and deadline only where the kind has them), `updatedAt` becomes now, the kind and its field shape are kept, and every field not supplied is as it was |
| Activities.ApplyPatchTwice | controllers/examController.js:168-179 | sending the same edit twice equals sending it once at the later time |
| Activities.SchemaAccepts | models/Exam.js:28-35 | the schema's `required` check on a created activity: non-empty title and description (the same fields are required in models/Assignment.js and models/Quiz.js) |
| Activities.SchemaAllowsEmptyLists | models/Exam.js:4-41 | the schema accepts an empty question list, which only the handlers refuse |
| Grading.Selected | controllers/examController.js:239 | the option an in-range integral answer selects is one of the question's options |
| Grading.Award | controllers/examController.js:234-245 | one question earns its full marks exactly when the answer is an in-range integral index selecting a correct option, and nothing otherwise |
| Grading.ObtainedMarks | controllers/examController.js:226-247 | any marks at all require the answers to be an array with one answer per question |
| Grading.Passes | controllers/examController.js:250 | `obtainedMarks >= passMarks`: reaching the pass mark exactly passes, anything below it fails |
| Grading.Grade | controllers/examController.js:226-247 | the grading loop computes the position-by-position sum of awards, or 0 when the answers are not an array of one per question |
| Grading.SumAwardsBounds | controllers/examController.js:230-246 | with non-negative question marks, the sum of awards lies between 0 and the sum of the question marks |
| Grading.ObtainedMarksBounds | controllers/examController.js:226-247 | 0 <= obtained marks <= sum of the question marks, including the length-mismatch fallback |
| Grading.MarksAvailableNonNegative | models/Exam.js:21-24 | the sum of non-negative marks is non-negative |
| Grading.ChangeOneAnswer | controllers/examController.js:230-246 | changing one answer changes the score by exactly that question's change in award, whatever the other answers are |
| Grading.AllCorrectEarnsAll | controllers/examController.js:234-242 | selecting a correct option for every question earns every mark |
| Grading.IncorrectAnswerEarnsNothing | controllers/examController.js:234-245 | an answer that is out of range, not a number, or selects an incorrect option contributes nothing |
| Reporting.CountScores | controllers/SectionController.js:86-101 | a student's passes never exceed their attempts, and their attempts never exceed the length of the list |
| Reporting.TallyIn | controllers/SectionController.js:104-111 | counts over any set of activities have passes between 0 and attempts |
| Reporting.TallyOf | controllers/SectionController.js:104-111 | counts over a whole collection have passes between 0 and attempts |
| Reporting.TallyInRemove | controllers/SectionController.js:104-111 | the order in which activities are visited does not change the counts |
| Reporting.TallyInAgree | controllers/SectionController.js:104 | only the score lists of the activities matter to the counts |
| Reporting.TallyAfterAppend | controllers/examController.js:253-261 | appending one score record adds exactly that record's attempt, and its pass, to the counts of its student, and nothing to anyone else's |
| Reporting.CountScoresAppend | controllers/examController.js:253-258 | appending one record to a score list adds exactly that record's contribution |
| Reporting.CountScoresSnoc | controllers/SectionController.js:87-100 | one more record adds exactly its contribution |
| Reporting.Bump | controllers/SectionController.js:91-98 | one record adds one attempt, and one pass when it is marked passed, to its student's counters |
| Reporting.Step | controllers/SectionController.js:90-99 | a record of a section student adds its contribution to that student's counters; a record of anyone else changes nothing |
| Reporting.StepLeavesOthers | controllers/SectionController.js:90-99 | a record never changes the counters of a student other than its own |
| Reporting.StepFrom | controllers/SectionController.js:90-99 | for one student, one record updates the counters as `processScores` does |
| Reporting.StepCounts | controllers/SectionController.js:87-100 | one more record keeps the loop's meaning: counters equal the initial ones plus the counts of the records seen, for section students only |
| Reporting.ProcessScores | controllers/SectionController.js:86-101 | `processScores` leaves every counter equal to what it was plus that score list's count for a section student, and nothing for anyone else; it creates counters only for section students |
| Reporting.CollectStepAt | controllers/SectionController.js:104-111 | for one student, processing one more activity's score list adds that activity's counts |
| Reporting.CollectStep | controllers/SectionController.js:104-111 | processing one more activity's score list adds that activity's counts, for every student |
| Reporting.ProcessCollection | controllers/SectionController.js:104-111 | the `forEach` over one collection adds each section student's counts over the whole collection, in any visiting order |
| Reporting.PassingPercentage | controllers/SectionController.js:119-122 | `passedCount / totalAttempts * 100` when there are attempts and 0 otherwise; hence 100 when every attempt passed, and always between 0 and 100 |
| Reporting.RatesFor | controllers/SectionController.js:114-128 | one entry per section student, in section order, each with that student's counters (0 when absent) |
| Reporting.SectionTally | controllers/SectionController.js:104-111 | a student's counts over the three collections have passes between 0 and attempts |
| Reporting.CollectedIsSectionTally | controllers/SectionController.js:83-111 | the three passes from empty counters give each section student their counts over the three collections |
| Reporting.SectionTallyAfterExam | controllers/examController.js:253-261 | taking an exam adds one attempt, and one pass if passed, to that student's section rate, and changes no one else's |
| Records.SubjectSchemaAccepts | models/Subject.js:5-18 | the subject schema's `required` check: non-empty name, start time, end time and schedule; teacher and section are optional |
| Records.SectionSchemaAccepts | models/Section.js:5-6 | the section schema's `required` check: non-empty name and grade level |
| Records.AddUnique | controllers/SectionController.js:209-217 | a member already listed is refused with the list unchanged; otherwise it is appended at the end and nothing before it moves |
| Records.AddUniqueKeepsDistinct | controllers/SectionController.js:236-244 | dedup-then-append keeps a duplicate-free list duplicate-free |
| Records.FindRead | controllers/discussionController.js:69-71 | finds a record of the student exactly when one exists |
| Records.MarkRead | controllers/discussionController.js:69-76 | a student already in the read list causes no change; otherwise one record dated now is appended; either way the student is found afterwards |
| Records.MarkReadIdempotent | controllers/discussionController.js:69-76 | marking twice is marking once |
| Records.MarkReadExtends | controllers/discussionController.js:74 | existing read records are never removed or altered, and at most one is added |
| Records.MarkReadKeepsOnePerStudent | controllers/discussionController.js:69-76 | no student appears twice in a read list built by marking |
| Records.Readers | controllers/discussionController.js:95-98 | one entry per read record, in order, with its student and date |
| Records.MarkedStudentIsListed | controllers/discussionController.js:69-98 | after marking, the student is among the reported readers |
| Records.HasTaken | controllers/examController.js:300-302 | true exactly when some score record names the student |
| Records.HasTakenAfterAppend | controllers/examController.js:253-261 | after taking an exam the student counts as having taken it, and every other student's answer is unchanged |
| Records.ScoreEntries | controllers/examController.js:202-207 | one entry per score, in order, with exactly its student, marks, pass flag and date |
| Records.ScoreEntriesShowTaken | controllers/examController.js:279-312 | the score projection and the "taken" check agree |
| Records.Where | controllers/SubjectController.js:43-45 | a query returns exactly the matching documents, unchanged |
| Records.NonEmptyOr | controllers/SubjectController.js:47-51 | an empty query result becomes a 404, any other is returned as is |
| Records.Details | controllers/SubjectController.js:127-134 | one entry per subject with its id, name, start and end time, schedule and teacher |
| School.Store.FreshId | controllers/examController.js:82-93 | the identifier a saved document gets is unused in every collection |
| School.Store.SetTable | controllers/examController.js:168-176 | replaces one activity collection and nothing else |
| School.Store.CreateActivity | controllers/examController.js:6-102 | the request checks in order; then a 500 when the schema refuses the title or description; otherwise the new document under an unused id, with only that collection changed |
| School.Store.EditActivity | controllers/quizController.js:170-195 | unknown id is a 404 with nothing changed; otherwise exactly that document is replaced by the patched one, which is returned |
| School.Store.DeleteActivity | controllers/assignmentController.js:160-176 | unknown id is a 404; otherwise the answer is a bare success (the handlers send only a message) and the document is absent afterwards, with nothing else changed |
| School.Store.TakeExam | controllers/examController.js:216-277 | unknown exam is a 404; otherwise the answer carries the graded marks, the total, the pass mark and `obtained >= passMarks`, and exactly one record is appended to that exam's scores; earlier records are kept and repeat attempts are not refused |
| School.Store.CheckIfTaken | controllers/examController.js:279-317 | no user id is a 400, then an unknown exam is a 404, then "taken" holds exactly when a score names the user |
| School.Store.ExamScores | controllers/examController.js:188-214 | 404 exactly for an unknown exam; otherwise the score projection of that exam: one entry per score, in order |
| School.Store.BySubject | controllers/assignmentController.js:117-137 | exactly the activities of the subject; assignments and quizzes answer 404 exactly when there are none, exams never do |
| School.Store.PassingRates | controllers/SectionController.js:69-140 | unknown section is a 404; otherwise one rate per section student, in order, computed from that student's attempts and passes over every assignment, exam and quiz |
| School.Store.AddSection | controllers/SectionController.js:5-37 | a name used by any section is refused with nothing changed; otherwise the new section is stored under an unused id; distinct names stay distinct |
| School.Store.UpdateSection | controllers/SectionController.js:153-173 | unknown section is a 404; a missing or empty name or adviser keeps the stored one; the new name is not checked against other sections; nothing else changes |
| School.Store.DeleteSection | controllers/SectionController.js:176-196 | unknown section is a 404; otherwise the section is removed |
| School.Store.AddTeacher | controllers/SectionController.js:198-222 | unknown section is a 404; then the dedup-then-append rule on the section's teachers |
| School.Store.AddStudent | controllers/SectionController.js:225-249 | unknown section is a 404; then the dedup-then-append rule on the section's students |
| School.Store.MarkAsRead | controllers/discussionController.js:58-82 | unknown discussion is a 404; otherwise its read list becomes `MarkRead` of the old one |
| School.Store.DiscussionsBySubject | controllers/discussionController.js:42-55 | exactly the discussions of the subject, 404 exactly when there are none |
| School.Store.StudentsRead | controllers/discussionController.js:83-105 | 404 exactly for an unknown discussion; otherwise the reader projection of that discussion: one entry per read record, in order |
| School.Store.DeleteDiscussion | controllers/discussionController.js:26-39 | unknown discussion is a 404; otherwise it is removed |
| School.Store.AssignLrn | controllers/usersController.js:63-91 | an LRN held by any user, the target included, is a 400 even for an unknown user; then an unknown user is a 404; otherwise only the target's LRN changes; distinct LRNs stay distinct |
| School.Store.AddSectionToUser | controllers/usersController.js:93-125 | unknown section is a 404 before an unknown user; then the dedup-then-append rule on the user's sections |
| School.Store.SaveSubject | models/Subject.js:3-21 | a subject missing its name, start time, end time or schedule is refused with a 500; otherwise it is stored under an unused id |
| School.Store.AddSubject | controllers/SubjectController.js:6-37 | a missing name, teacher or section is a 400, then an unknown teacher is a 404, then an unknown section; once all of these pass, the save fails with a 500, so the handler as written never stores a subject |
| School.Store.AddSubjectWithSchedule | controllers/SubjectController.js:6-37 | the same checks in the same order, after which a complete subject is stored |
| School.Store.SubjectsByTeacher | controllers/SubjectController.js:39-58 | exactly the teacher's subjects, 404 exactly when there are none |
| School.Store.SubjectsBySection | controllers/SubjectController.js:59-81 | exactly the section's subjects, 404 exactly when there are none |
| School.Store.StudentSubjectsOf | controllers/SubjectController.js:104-141 | a 404 exactly when no section lists the student; otherwise one section that lists them and the details of exactly that section's subjects, possibly none |
| School.UnscheduledSubjectRefused | models/Subject.js:16-18 | the document `addSubject` builds always fails the schema's check for start time, end time and schedule |

## Left out

- Floating point. Marks, durations and percentages are reals, so NaN and the infinities are not represented. The percentage is the exact quotient, not the `toFixed(2)` string.
- `populate`, ObjectId casting and the `.lean()`/`select` projections. Identifiers are opaque integers, and a populated reference is the identifier itself.
- Population dropping references. `populate("students")` drops students whose user is gone, which the model does not do.
- Casting of the create bodies' `title` and `description`. Both are typed strings in `Validation.Body`, so a number sent there (which Mongoose would store as its string) and an object (which fails the cast with a 500) are not represented.
- `School.Store.CreateActivity`: does not model Mongoose's Date cast of the stored `deadline`. The handlers' check (controllers/assignmentController.js:81-89, controllers/quizController.js:74-82) asks only that `new Date(deadline)` be a valid date, which `true` is, and then save the raw value. Mongoose refuses to cast a boolean to a Date, so for `deadline: true` the save rejects and the handler answers 500, where the model stores the document under the parsed date. The model keeps the handlers' check and the parsed date, because which other JSON values the cast refuses depends on Mongoose internals that are not part of this model.
- Mongoose `runValidators` on edits and type casting of edit bodies. An edit request is a typed `Patch`.
- Mongoose unique indexes, such as the one on `LRN`. Only the handlers' own checks are modelled.
- Query semantics on absent request fields, for example `findOne({ LRN: undefined })` or `findOne({ section_name: undefined })`. Every request field these handlers compare is a present value here.
- Natural (insertion) order of query results. Listings are maps keyed by identifier.
- `School.Store.StudentSubjectsOf`: does not say which of several sections that list the student is used, because `findOne` returns whichever one the database finds first.
- `School.Store.TakeExam`: takes a well-formed student identifier. Two other cases are not modelled. With no `studentId` in the body, `new mongoose.Types.ObjectId(undefined)` (controllers/examController.js:254) generates a fresh identifier, so the save succeeds and a score is recorded for a student who does not exist. A malformed identifier string makes that constructor throw before anything is saved, and the handler answers 500.
- The schema's `required` check on saves other than creation, such as a score record missing a field.
- `console.warn`, `console.error` and the response bodies' message text.
- Concurrency: the load-modify-save races of the handlers.
- The handlers outside the modelled core. This covers `getExamById`, `getAssignmentById`, `getQuizById`, `getSectionById`, `getMySections`, `getAllSections`, `getSubjectById`, `createDiscussion`, and the authentication, profile, announcement and calendar handlers.
- Express routing and middleware.
- Grading of quizzes and assignments. No handler for it exists.

## Findings

| source | as written | input that shows it | evidently intended | confidence | as-written member | corrected member |
|---|---|---|---|---|---|---|
| controllers/SubjectController.js:24-30 | `addSubject` builds the new subject from `subject_name`, `teacher` and `section` only, but the subject schema requires `start_time`, `end_time` and `schedule` (models/Subject.js:16-18), so every save fails and the handler answers 500 | any request with a name, an existing teacher and an existing section | the schedule fields of the request are stored, and the subject is saved | not executed | School.Store.AddSubject, School.UnscheduledSubjectRefused | School.Store.AddSubjectWithSchedule |
