/**
 * The crew manager: the question validator and the shaping of the pipeline
 * result. The three-stage CrewAI run (research, answer, quality check) is
 * foreign code; it enters the model only as its outcome, a `KickoffOutcome`.
 */
module CrewManager {
  import opened Wrappers
  import opened PyStrings

  /** The shortest stripped question that is accepted. */
  const MinLength: nat := 5
  /** The longest raw question that is accepted. */
  const MaxLength: nat := 500

  const TooShortMessage: string := "Question is too short. Please ask a more specific question."
  const TooLongMessage: string := "Question is too long. Please make a more concise question (maximum 500 characters)."
  const ValidMessage: string := "Question is valid"

  /** The `{"valid": ..., "message": ...}` dictionary of `validate_question`. */
  datatype ValidationResult = ValidationResult(valid: bool, message: string)

  /**
   * `validate_question`: too short is judged on the stripped length and checked
   * first; too long is judged on the raw length.
   */
  function ValidateQuestion(question: string): (r: ValidationResult)
    ensures r.valid <==> MinLength <= |Strip(question)| && |question| <= MaxLength
    ensures |Strip(question)| < MinLength ==> r == ValidationResult(false, TooShortMessage)
    ensures MinLength <= |Strip(question)| && MaxLength < |question| ==>
              r == ValidationResult(false, TooLongMessage)
    ensures r.valid ==> r.message == ValidMessage
  {
    if question == [] || |Strip(question)| < MinLength then
      ValidationResult(false, TooShortMessage)
    else if |question| > MaxLength then
      ValidationResult(false, TooLongMessage)
    else
      ValidationResult(true, ValidMessage)
  }

  /** The three messages tell the three outcomes apart. */
  lemma MessagesDistinct()
    ensures TooShortMessage != TooLongMessage
    ensures TooShortMessage != ValidMessage && TooLongMessage != ValidMessage
  {
    assert |TooShortMessage| == 59 && |TooLongMessage| == 83;
    assert |TooShortMessage| != |ValidMessage| && |TooLongMessage| != |ValidMessage|;
  }

  /**
   * Whitespace only, of any length (also more than 500 characters), is too
   * short and never too long, because the short check runs first.
   */
  lemma BlankIsTooShort(question: string)
    requires forall k :: 0 <= k < |question| ==> IsSpace(question[k])
    ensures ValidateQuestion(question) == ValidationResult(false, TooShortMessage)
  {
    StripEmptyIff(question);
  }

  /**
   * The verdict read off the visible text `question[i..j]`, the slice between
   * the first and the last non-space character.
   */
  lemma {:induction false} VerdictFromVisibleText(question: string, i: nat, j: nat)
    requires i < j <= |question|
    requires !IsSpace(question[i]) && !IsSpace(question[j - 1])
    requires forall k :: 0 <= k < i ==> IsSpace(question[k])
    requires forall k :: j <= k < |question| ==> IsSpace(question[k])
    ensures ValidateQuestion(question) ==
      if j - i < MinLength then ValidationResult(false, TooShortMessage)
      else if |question| > MaxLength then ValidationResult(false, TooLongMessage)
      else ValidationResult(true, ValidMessage)
  {
    StripUnique(question, i, j);
  }

  /**
   * A question whose visible text has 5 characters but which is padded to 505
   * characters is too long: the upper bound applies to the raw length.
   */
  lemma PaddedQuestionIsTooLong()
    ensures ValidateQuestion("hello" + seq(500, _ => ' ')) == ValidationResult(false, TooLongMessage)
  {
    var q := "hello" + seq(500, _ => ' ');
    assert forall k :: 5 <= k < |q| ==> q[k] == ' ';
    VerdictFromVisibleText(q, 0, 5);
  }

  /**
   * What `crew.kickoff()` did: either it finished, leaving the answer task's
   * raw output (when the task has an output) and the crew's final result as
   * text, or some step raised an exception whose `str` is `errorText`.
   */
  datatype KickoffOutcome =
    | Finished(answerTaskOutput: Option<string>, crewResult: string)
    | Raised(errorText: string)

  const StatusCompleted: string := "completed"
  const StatusError: string := "error"

  /**
   * The dictionary `process_question` returns; an absent key is `None`.
   */
  datatype PipelineResult = PipelineResult(
    success: bool,
    answer: Option<string>,
    error: Option<string>,
    question: string,
    status: string)

  /** The two shapes a pipeline result can take. */
  predicate WellShaped(r: PipelineResult) {
    if r.success then r.status == StatusCompleted && r.answer.Some? && r.error.None?
    else r.status == StatusError && r.answer.None? && r.error.Some?
  }

  /**
   * `process_question`: a finished run yields the answer task's output, or the
   * crew's final (quality-check) result when the answer task has none; any
   * exception collapses into an error record.
   */
  function ProcessQuestion(question: string, outcome: KickoffOutcome): (r: PipelineResult)
    ensures WellShaped(r) && r.question == question
    ensures r.success <==> outcome.Finished?
    ensures outcome.Finished? && outcome.answerTaskOutput.Some? ==> r.answer == outcome.answerTaskOutput
    ensures outcome.Finished? && outcome.answerTaskOutput.None? ==> r.answer == Some(outcome.crewResult)
    ensures outcome.Raised? ==> r.error == Some(outcome.errorText)
  {
    match outcome
    case Finished(answerOutput, crewResult) =>
      var answer := if answerOutput.Some? then answerOutput.value else crewResult;
      PipelineResult(true, Some(answer), None, question, StatusCompleted)
    case Raised(errorText) =>
      PipelineResult(false, None, Some(errorText), question, StatusError)
  }

  /**
   * When the answer task has an output, the quality-check stage's result has no
   * influence on the pipeline result, whatever verdict it holds.
   */
  lemma QualityCheckIgnored(question: string, answer: string, verdict1: string, verdict2: string)
    ensures ProcessQuestion(question, Finished(Some(answer), verdict1))
         == ProcessQuestion(question, Finished(Some(answer), verdict2))
  {
  }

  /**
   * The text a caller gets to see from a run: the chosen answer of a finished
   * run, or the exception's text.
   */
  function Shown(outcome: KickoffOutcome): (t: string) {
    match outcome
    case Finished(answerOutput, crewResult) => if answerOutput.Some? then answerOutput.value else crewResult
    case Raised(errorText) => errorText
  }

  /**
   * What the result record keeps, and only that: two runs give the same record
   * exactly when they are about the same question, both finished or both
   * raised, and show the same text. The quality verdict behind an answer-task
   * output, and anything about a fault besides its text, is dropped.
   */
  lemma ResultKeepsShownText(question1: string, outcome1: KickoffOutcome,
                             question2: string, outcome2: KickoffOutcome)
    ensures ProcessQuestion(question1, outcome1) == ProcessQuestion(question2, outcome2)
        <==> question1 == question2 && outcome1.Finished? == outcome2.Finished? && Shown(outcome1) == Shown(outcome2)
  {
    var r1, r2 := ProcessQuestion(question1, outcome1), ProcessQuestion(question2, outcome2);
    if r1 == r2 {
      if outcome1.Finished? {
        assert r1.answer.value == Shown(outcome1);
      } else {
        assert r1.error.value == Shown(outcome1);
      }
    }
  }
}
