/**
 * The chat shell: the session's message log, the clear action, session-state
 * initialisation and the hand-off of an example question. Streamlit's
 * `session_state` is a dictionary whose keys may be missing; each key the shell
 * uses is an `Option` field. The crew manager is consulted as the functions of
 * module `CrewManager`; what `crew.kickoff()` does is a parameter.
 */
module App {
  import opened Wrappers
  import opened PyStrings
  import opened CrewManager

  datatype Role = User | Assistant

  /** A chat message; its wall-clock timestamp is not modelled. */
  datatype ChatMessage = ChatMessage(role: Role, content: string)

  /** The "❌" mark that opens every reported failure. */
  const CrossMark: string := "\U{274C}"

  /** The error template of `process_user_input`, up to the error details. */
  const ErrorHead: string :=
    "\n        " + CrossMark + " **An error occurred while processing your question.**\n        \n        **Error Details:** "
  /** The error template after the error details. */
  const ErrorTail: string :=
    "\n        \n        Please try again or contact the administrator if the problem persists.\n        "
  const UnknownError: string := "Unknown error"

  /** `result.get('error', 'Unknown error')`. */
  function ErrorDetail(result: PipelineResult): (detail: string) {
    if result.error.Some? then result.error.value else UnknownError
  }

  /** The assistant message for a failed pipeline run, with `detail` embedded verbatim. */
  function ErrorReply(detail: string): (r: string)
    ensures |r| == |ErrorHead| + |detail| + |ErrorTail|
    ensures r[..|ErrorHead|] == ErrorHead
    ensures r[|ErrorHead|..|ErrorHead| + |detail|] == detail
    ensures r[|ErrorHead| + |detail|..] == ErrorTail
  {
    var r := ErrorHead + detail + ErrorTail;
    assert r == ErrorHead + (detail + ErrorTail);
    assert r[|ErrorHead|..|ErrorHead| + |detail|] == (detail + ErrorTail)[..|detail|];
    r
  }

  /**
   * The assistant message `process_user_input` appends after the user's
   * `question`: the validation message when the question is rejected,
   * otherwise the pipeline's answer or the error template.
   */
  function AssistantReply(question: string, outcome: KickoffOutcome): (r: string)
    ensures !ValidateQuestion(question).valid ==> r == CrossMark + " " + ValidateQuestion(question).message
    ensures ValidateQuestion(question).valid && outcome.Finished? ==>
              r == if outcome.answerTaskOutput.Some? then outcome.answerTaskOutput.value else outcome.crewResult
    ensures ValidateQuestion(question).valid && outcome.Raised? ==> r == ErrorReply(outcome.errorText)
  {
    var validation := ValidateQuestion(question);
    if !validation.valid then
      CrossMark + " " + validation.message
    else
      var result := ProcessQuestion(question, outcome);
      if result.success then result.answer.value else ErrorReply(ErrorDetail(result))
  }

  /**
   * A rejected question gets the same reply whatever the pipeline would have
   * done: the pipeline is not consulted.
   */
  lemma RejectionIgnoresPipeline(question: string, outcome1: KickoffOutcome, outcome2: KickoffOutcome)
    requires !ValidateQuestion(question).valid
    ensures AssistantReply(question, outcome1) == AssistantReply(question, outcome2)
  {
  }

  /**
   * The "Unknown error" fallback is never shown: every failed result of the
   * pipeline carries its error text.
   */
  lemma UnknownErrorUnreachable(question: string, outcome: KickoffOutcome)
    ensures !ProcessQuestion(question, outcome).success ==>
              ErrorDetail(ProcessQuestion(question, outcome)) == outcome.errorText
  {
  }

  /** The two messages one question adds: the user's, then the assistant's. */
  function Exchange(question: string, outcome: KickoffOutcome): (e: seq<ChatMessage>) {
    [ChatMessage(User, question), ChatMessage(Assistant, AssistantReply(question, outcome))]
  }

  /** The session-state keys the shell uses; `None` is a key not yet set. */
  datatype SessionState = SessionState(
    messages: Option<seq<ChatMessage>>,
    firstVisit: Option<bool>,
    exampleQuestion: Option<string>)

  /** `initialize_session_state`: sets the keys that are missing and only those. */
  function Initialized(s: SessionState): (t: SessionState)
    ensures t.messages.Some? && t.firstVisit.Some? && t.exampleQuestion == s.exampleQuestion
    ensures t.messages == if s.messages.Some? then s.messages else Some([])
    ensures t.firstVisit == if s.firstVisit.Some? then s.firstVisit else Some(true)
  {
    SessionState(
      if s.messages.None? then Some([]) else s.messages,
      if s.firstVisit.None? then Some(true) else s.firstVisit,
      s.exampleQuestion)
  }

  /** Initialising twice is initialising once. */
  lemma InitializeIdempotent(s: SessionState)
    ensures Initialized(Initialized(s)) == Initialized(s)
  {
  }

  /** `process_user_input`: the log gains the question's exchange, nothing else changes. */
  function AfterInput(s: SessionState, question: string, outcome: KickoffOutcome): (t: SessionState)
    requires s.messages.Some?
    ensures t.messages.Some? && |t.messages.value| == |s.messages.value| + 2
    ensures t.messages.value[..|s.messages.value|] == s.messages.value
    ensures t.messages.value[|s.messages.value|] == ChatMessage(User, question)
    ensures t.messages.value[|s.messages.value| + 1] == ChatMessage(Assistant, AssistantReply(question, outcome))
    ensures t.firstVisit == s.firstVisit && t.exampleQuestion == s.exampleQuestion
  {
    var log := s.messages.value + Exchange(question, outcome);
    assert log[..|s.messages.value|] == s.messages.value;
    s.(messages := Some(log))
  }

  /** The clear button: an empty log and `first_visit` set again. */
  function Cleared(s: SessionState): (t: SessionState)
    ensures t.messages == Some([]) && t.firstVisit == Some(true)
    ensures t.exampleQuestion == s.exampleQuestion
  {
    s.(messages := Some([]), firstVisit := Some(true))
  }

  /**
   * One run of `main` past the API-key check. A click on an example button
   * (`clicked`) stores the question; a stored example question is removed and
   * processed, and `st.rerun()` ends the run; otherwise a non-empty chat input
   * (`typed`) is processed and the run ends; otherwise the clear button is
   * honoured when pressed.
   */
  function AfterMainPass(s: SessionState, clicked: Option<string>, typed: Option<string>,
                         clearPressed: bool, outcome: KickoffOutcome): (t: SessionState)
    ensures t.messages.Some? && t.firstVisit.Some? && t.exampleQuestion.None?
  {
    var s1 := Initialized(s);
    var s2 := if clicked.Some? then s1.(exampleQuestion := clicked) else s1;
    if s2.exampleQuestion.Some? then
      AfterInput(s2.(exampleQuestion := None), s2.exampleQuestion.value, outcome)
    else if typed.Some? && typed.value != "" then
      AfterInput(s2, typed.value, outcome)
    else if clearPressed then
      Cleared(s2)
    else
      s2
  }

  /**
   * What one run of `main` does to the log: a pending example question wins
   * over the chat input, which wins over the clear button; at most one question
   * is processed, and `first_visit` changes only when the log is cleared.
   */
  lemma MainPassEffect(s: SessionState, clicked: Option<string>, typed: Option<string>,
                       clearPressed: bool, outcome: KickoffOutcome)
    ensures var log := Initialized(s).messages.value;
      var firstVisit := Initialized(s).firstVisit;
      var pending := if clicked.Some? then clicked else s.exampleQuestion;
      var t := AfterMainPass(s, clicked, typed, clearPressed, outcome);
      t.messages.Some? &&
      if pending.Some? then t.messages.value == log + Exchange(pending.value, outcome) && t.firstVisit == firstVisit
      else if typed.Some? && typed.value != "" then t.messages.value == log + Exchange(typed.value, outcome) && t.firstVisit == firstVisit
      else if clearPressed then t.messages.value == [] && t.firstVisit == Some(true)
      else t.messages.value == log && t.firstVisit == firstVisit
  {
  }

  /** A stored example question is handled once: the next run no longer sees it. */
  lemma ExampleHandledOnce(s: SessionState, question: string, typed: Option<string>,
                           clearPressed: bool, outcome1: KickoffOutcome, outcome2: KickoffOutcome)
    requires s.exampleQuestion == Some(question)
    ensures var t := AfterMainPass(s, None, None, false, outcome1);
      t.messages.value == Initialized(s).messages.value + Exchange(question, outcome1) &&
      AfterMainPass(t, None, typed, clearPressed, outcome2).messages.value ==
        if typed.Some? && typed.value != "" then t.messages.value + Exchange(typed.value, outcome2)
        else if clearPressed then []
        else t.messages.value
  {
  }

  /** The log as a conversation: user and assistant messages take turns, the user first. */
  predicate Alternating(log: seq<ChatMessage>) {
    |log| % 2 == 0 && forall i :: 0 <= i < |log| ==> log[i].role == if i % 2 == 0 then User else Assistant
  }

  /** The log a run of `main` leaves is a conversation when the one it found was. */
  lemma {:induction false} MainPassKeepsAlternation(s: SessionState, clicked: Option<string>, typed: Option<string>,
                                                    clearPressed: bool, outcome: KickoffOutcome)
    requires s.messages.Some? ==> Alternating(s.messages.value)
    ensures Alternating(AfterMainPass(s, clicked, typed, clearPressed, outcome).messages.value)
  {
    var log := Initialized(s).messages.value;
    assert Alternating(log);
    MainPassEffect(s, clicked, typed, clearPressed, outcome);
    forall question | true
      ensures Alternating(log + Exchange(question, outcome))
    {
      AppendTurnKeepsAlternation(log, Exchange(question, outcome));
    }
  }

  /** Appending a user message and then an assistant message keeps the turns. */
  lemma AppendTurnKeepsAlternation(log: seq<ChatMessage>, e: seq<ChatMessage>)
    requires Alternating(log)
    requires |e| == 2 && e[0].role == User && e[1].role == Assistant
    ensures Alternating(log + e)
  {
    var t := log + e;
    forall i | 0 <= i < |t| ensures t[i].role == if i % 2 == 0 then User else Assistant {
      if i < |log| {
        assert t[i] == log[i];
      } else if i == |log| {
        assert t[i] == e[0];
      } else {
        assert t[i] == e[1];
      }
    }
  }

  /**
   * The session after questions `inputs`, each with its pipeline outcome, go
   * through `process_user_input` one after another.
   */
  function Replay(s: SessionState, inputs: seq<(string, KickoffOutcome)>): (t: SessionState)
    requires s.messages.Some?
    ensures t.messages.Some?
    decreases |inputs|
  {
    if inputs == [] then s
    else Replay(AfterInput(s, inputs[0].0, inputs[0].1), inputs[1..])
  }

  /** The messages that questions `inputs` add, two per question. */
  function Transcript(inputs: seq<(string, KickoffOutcome)>): (t: seq<ChatMessage>)
    ensures |t| == 2 * |inputs|
    decreases |inputs|
  {
    if inputs == [] then [] else Exchange(inputs[0].0, inputs[0].1) + Transcript(inputs[1..])
  }

  /**
   * The log is append-only: processing questions only adds their messages
   * after the old log, and no other key changes.
   */
  lemma {:induction false} ReplayAppends(s: SessionState, inputs: seq<(string, KickoffOutcome)>)
    requires s.messages.Some?
    ensures Replay(s, inputs).messages.value == s.messages.value + Transcript(inputs)
    ensures |Replay(s, inputs).messages.value| == |s.messages.value| + 2 * |inputs|
    ensures Replay(s, inputs).messages.value[..|s.messages.value|] == s.messages.value
    ensures Replay(s, inputs).firstVisit == s.firstVisit && Replay(s, inputs).exampleQuestion == s.exampleQuestion
    decreases |inputs|
  {
    var log := s.messages.value;
    if inputs != [] {
      var e := Exchange(inputs[0].0, inputs[0].1);
      var s1 := AfterInput(s, inputs[0].0, inputs[0].1);
      assert s1.messages.value == log + e;
      ReplayAppends(s1, inputs[1..]);
      assert (log + e) + Transcript(inputs[1..]) == log + (e + Transcript(inputs[1..]));
    }
    assert (log + Transcript(inputs))[..|log|] == log;
  }

  /** A conversation stays one however many questions are processed. */
  lemma {:induction false} ReplayKeepsAlternation(s: SessionState, inputs: seq<(string, KickoffOutcome)>)
    requires s.messages.Some? && Alternating(s.messages.value)
    ensures Alternating(Replay(s, inputs).messages.value)
    decreases |inputs|
  {
    if inputs != [] {
      var e := Exchange(inputs[0].0, inputs[0].1);
      var s1 := AfterInput(s, inputs[0].0, inputs[0].1);
      assert s1.messages.value == s.messages.value + e;
      AppendTurnKeepsAlternation(s.messages.value, e);
      ReplayKeepsAlternation(s1, inputs[1..]);
    }
  }

  /** Question `k` of a run takes messages `2 * k` and `2 * k + 1` of what the run adds. */
  lemma {:induction false} TranscriptAt(inputs: seq<(string, KickoffOutcome)>, k: nat)
    requires k < |inputs|
    ensures Transcript(inputs)[2 * k..2 * k + 2] == Exchange(inputs[k].0, inputs[k].1)
    decreases k
  {
    var e := Exchange(inputs[0].0, inputs[0].1);
    var rest := Transcript(inputs[1..]);
    assert Transcript(inputs) == e + rest;
    if k == 0 {
      assert (e + rest)[0..2] == e;
    } else {
      TranscriptAt(inputs[1..], k - 1);
      assert inputs[1..][k - 1] == inputs[k];
      SliceOfAppend(e, rest, 2 * (k - 1), 2 * (k - 1) + 2);
    }
  }

  /** The example questions offered in the sidebar. */
  const ExampleQuestions: seq<string> := [
    "What is SEAMEO SPAFA?",
    "What programs are available?",
    "How to join research activities?",
    "When is the next archaeology workshop?",
    "Where is SEAMEO SPAFA office located?",
    "What are the latest publications?"
  ]

  /** Every example question passes validation, so selecting one runs the pipeline. */
  lemma ExampleQuestionsAreValid()
    ensures forall k :: 0 <= k < |ExampleQuestions| ==> ValidateQuestion(ExampleQuestions[k]).valid
  {
    forall k | 0 <= k < |ExampleQuestions| ensures ValidateQuestion(ExampleQuestions[k]).valid {
      var q := ExampleQuestions[k];
      assert 5 <= |q| <= 500 && q[0] != ' ' && q[|q| - 1] == '?';
      VerdictFromVisibleText(q, 0, |q|);
    }
  }

  /** The session state of one browser session, updated in place as the source does. */
  class Session {
    var messages: Option<seq<ChatMessage>>
    var firstVisit: Option<bool>
    var exampleQuestion: Option<string>

    function State(): SessionState
      reads this
    {
      SessionState(messages, firstVisit, exampleQuestion)
    }

    /** A new session: no key is set. */
    constructor ()
      ensures State() == SessionState(None, None, None)
    {
      messages, firstVisit, exampleQuestion := None, None, None;
    }

    /** `initialize_session_state`. */
    method InitializeSessionState()
      modifies this
      ensures State() == Initialized(old(State()))
    {
      if messages.None? {
        messages := Some([]);
      }
      if firstVisit.None? {
        firstVisit := Some(true);
      }
    }

    /**
     * `process_user_input`. The result is the pipeline result when
     * `process_question` was called, and `None` when validation stopped it.
     */
    method ProcessUserInput(question: string, outcome: KickoffOutcome) returns (pipelineResult: Option<PipelineResult>)
      requires messages.Some?
      modifies this
      ensures State() == AfterInput(old(State()), question, outcome)
      ensures messages == Some(old(messages).value + Exchange(question, outcome))
      ensures pipelineResult.Some? <==> ValidateQuestion(question).valid
      ensures pipelineResult.Some? ==> pipelineResult.value == ProcessQuestion(question, outcome)
    {
      ghost var before := messages.value;
      messages := Some(messages.value + [ChatMessage(User, question)]);
      var validation := ValidateQuestion(question);
      if !validation.valid {
        messages := Some(messages.value + [ChatMessage(Assistant, CrossMark + " " + validation.message)]);
        assert messages.value == before + Exchange(question, outcome);
        return None;
      }
      var result := ProcessQuestion(question, outcome);
      pipelineResult := Some(result);
      if result.success {
        messages := Some(messages.value + [ChatMessage(Assistant, result.answer.value)]);
      } else {
        var errorMessage := ErrorReply(ErrorDetail(result));
        messages := Some(messages.value + [ChatMessage(Assistant, errorMessage)]);
      }
      assert messages.value == before + Exchange(question, outcome);
    }

    /** The clear-chat button. */
    method ClearChat()
      modifies this
      ensures State() == Cleared(old(State()))
    {
      messages := Some([]);
      firstVisit := Some(true);
    }

    /** An example-question button in the sidebar. */
    method SelectExample(question: string)
      modifies this
      ensures State() == old(State()).(exampleQuestion := Some(question))
    {
      exampleQuestion := Some(question);
    }

    /**
     * The example hand-off of `main`: a stored example question is removed
     * from the session state, then processed.
     */
    method ConsumeExample(outcome: KickoffOutcome) returns (handled: Option<string>)
      requires messages.Some?
      modifies this
      ensures handled == old(exampleQuestion) && exampleQuestion.None?
      ensures handled.Some? ==> State() == AfterInput(old(State()).(exampleQuestion := None), handled.value, outcome)
      ensures handled.None? ==> State() == old(State())
    {
      handled := exampleQuestion;
      if handled.Some? {
        exampleQuestion := None;
        var _ := ProcessUserInput(handled.value, outcome);
      }
    }

    /** One run of `main` past the API-key check (see `AfterMainPass`). */
    method MainPass(clicked: Option<string>, typed: Option<string>, clearPressed: bool, outcome: KickoffOutcome)
      modifies this
      ensures State() == AfterMainPass(old(State()), clicked, typed, clearPressed, outcome)
    {
      InitializeSessionState();
      if clicked.Some? {
        SelectExample(clicked.value);
      }
      var handled := ConsumeExample(outcome);
      if handled.Some? {
        return;
      }
      if typed.Some? && typed.value != "" {
        var _ := ProcessUserInput(typed.value, outcome);
        return;
      }
      if clearPressed {
        ClearChat();
      }
    }
  }
}
