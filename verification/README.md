# SEAMEO SPAFA Help Center assistant: a Dafny model of its core

The SEAMEO SPAFA Help Center is a chat assistant that answers questions about
the organisation from its own website. A question goes through a validator,
then a fixed three-stage CrewAI pipeline (research with a domain-restricted web
search, then answer composition, then a quality check), and the answer is
appended to the session's chat log. Almost all of that is prompt text and calls
to hosted services. This project models the deterministic logic around those
calls and proves properties of it:

- `crew_manager.dfy` (module `CrewManager`) holds `validate_question`, a
  three-way check on the stripped and raw lengths, and `process_question`. The
  result record is built from an abstract outcome of `crew.kickoff()`: either
  the run finished, giving the answer task's optional output and the crew's
  final result, or an exception was raised, giving its text.
- `agents.dfy` (module `Agents`) holds `get_seameo_search_query`. Each
  configured domain becomes `site:<domain>`, the filters are joined with
  ` OR ` inside parentheses, and the question follows verbatim. The
  `search_domains` list of the JSON configuration is a parameter.
- `app.dfy` (module `App`) is the chat shell over Streamlit's session state. A
  `Session` class has `messages`, `first_visit` and `example_question` as
  `Option` fields, because a session-state key may be missing. Its methods
  model `initialize_session_state`, `process_user_input`, the clear button,
  the example-question button and one run of `main`. Each method is tied to a
  pure transition function on a `SessionState` value, and the log properties
  are proved about those functions.
- `pystrings.dfy` (module `PyStrings`) covers the parts of Python's `str` the
  code relies on. `IsSpace` is Python's `str.isspace` with its exact
  code-point set. `Strip` is `str.strip()`. `Count` counts the positions where
  one string occurs inside another, and is used only to state properties of
  the query.
- `wrappers.dfy` (module `Wrappers`) holds `Option`.

Two consequences of the code are worth stating outright:

- The 500-character bound is checked on the raw question, not on the stripped
  one, so "hello" padded with whitespace past 500 characters is too long
  (`CrewManager.PaddedQuestionIsTooLong`).
- The error text of a failed run is `str(e)`, which is empty for an exception
  raised without a message, so `Raised` carries any string, including the
  empty one.

## Model

| member | source | states |
|---|---|---|
| `PyStrings.TrimStartShape` | crew_manager.py:65 | the left strip drops a run of whitespace only, keeps the rest as a suffix, and that rest starts with a non-space |
| `PyStrings.TrimEndShape` | crew_manager.py:65 | the right strip drops a run of whitespace only, keeps the rest as a prefix, and that rest ends with a non-space |
| `PyStrings.StripEnds` | crew_manager.py:65 | a stripped question is empty or starts and ends with a non-space |
| `PyStrings.StripUnique` | crew_manager.py:65 | `strip()` returns exactly the slice between the first and the last non-space character |
| `PyStrings.StripEmptyIff` | crew_manager.py:65 | `strip()` gives the empty string exactly when the question is all whitespace |
| `PyStrings.StripIdempotent` | crew_manager.py:65 | stripping a stripped question changes nothing |
| `CrewManager.ValidateQuestion` | crew_manager.py:61-80 | valid exactly when stripped length >= 5 and raw length <= 500, with "Question is valid"; stripped length < 5 gives the too-short result; otherwise raw length > 500 gives the too-long result |
| `CrewManager.MessagesDistinct` | crew_manager.py:66-79 | the too-short, too-long and valid messages are pairwise different, so the message identifies the outcome |
| `CrewManager.BlankIsTooShort` | crew_manager.py:65-75 | a whitespace-only question of any length, including more than 500 characters, is too short and never too long |
| `CrewManager.VerdictFromVisibleText` | crew_manager.py:65-80 | the verdict follows from the length of the visible text (first to last non-space) and the raw length, short check first |
| `CrewManager.PaddedQuestionIsTooLong` | crew_manager.py:71-75 | "hello" followed by 500 spaces has stripped length 5 but is too long, because the bound applies to the raw length |
| `CrewManager.ProcessQuestion` | crew_manager.py:16-59 | the question is returned unchanged; success holds exactly when the run finished; a finished run gives status "completed", no error, and the answer task's output when it has one, otherwise the crew's final result; an exception gives status "error", error = str(e) and no answer |
| `CrewManager.QualityCheckIgnored` | crew_manager.py:43-51 | when the answer task has an output, the quality-check stage's result, whatever verdict it holds, does not change the pipeline result |
| `CrewManager.ResultKeepsShownText` | crew_manager.py:44-58 | two runs give the same record exactly when they concern the same question, both finished or both raised, and show the same text (chosen answer or `str(e)`); the quality verdict behind an answer-task output and everything about a fault except its text are dropped |
| `Agents.SearchQuery` | agents.py:91-94 | the query is "(" + the domain filter + ") " + the question, with the question as its verbatim suffix |
| `Agents.NoDomains` | agents.py:93-94 | no configured domain gives `"() " + question` |
| `Agents.OneDomain` | agents.py:93-94 | one domain gives `"(site:d) " + question`, with no separator |
| `Agents.JoinHoldsItem` | agents.py:93 | `sep.join(xs)` holds every item, each one at its offset |
| `Agents.JoinHoldsSeparator` | agents.py:93 | in `sep.join(xs)`, each item except the last is directly followed by the separator |
| `Agents.DomainFilterAt` | agents.py:93-94 | the k-th configured domain stands in the query as `site:<domain>` at the place its clause takes in the filter |
| `Agents.SeparatorFollows` | agents.py:93-94 | the filters come in configuration order: the filter of domain k is followed directly by " OR " and then by the filter of domain k+1 |
| `Agents.JoinEndsWithLast` | agents.py:93 | `sep.join(xs)` of a non-empty list ends right after its last item |
| `Agents.DomainClauseEnds` | agents.py:93 | the filter ends with the clause of the last configured domain, so the clauses and separators placed above are all it holds |
| `Agents.EveryDomainAppears` | agents.py:93-94 | every configured domain appears in the query as the substring `site:<domain>` |
| `Agents.SiteFilterCount` | agents.py:93 | with k domains, none holding "site:" itself, the filter holds exactly k occurrences of "site:" |
| `Agents.SeparatorCount` | agents.py:93 | with k >= 1 domains, none holding a space, the filter holds exactly k-1 occurrences of " OR " |
| `App.ErrorReply` | app.py:184-190 | the error template embeds the error details verbatim between its fixed head and tail |
| `App.AssistantReply` | app.py:162-195 | a rejected question gets "❌ " + the validation message; an accepted one gets the answer task's output (or the crew's final result when there is none), or the error template with str(e) after an exception |
| `App.RejectionIgnoresPipeline` | app.py:163-171 | the reply to a rejected question does not depend on the pipeline at all |
| `App.UnknownErrorUnreachable` | app.py:187 | a failed result from the pipeline always carries its error, so the "Unknown error" fallback is never shown |
| `App.Initialized` | app.py:78-83 | initialisation sets `messages` to [] and `first_visit` to true only where the key is missing, and leaves an existing log untouched |
| `App.InitializeIdempotent` | app.py:78-83 | running `initialize_session_state` twice has the effect of running it once |
| `App.AfterInput` | app.py:152-195 | processing a question adds exactly two messages, the user's question and then the assistant's reply, keeps the old log as a prefix, and changes no other key |
| `App.Cleared` | app.py:248-250 | clear sets the log to [] and `first_visit` to true and leaves the example question as it was |
| `App.AfterMainPass` | app.py:197-251 | after a run of `main` the log and `first_visit` are set and no example question is left pending |
| `App.MainPassEffect` | app.py:231-251 | in one run of `main` a pending or just-clicked example question comes before the chat input, which comes before the clear button; at most one question is processed, an empty chat input is ignored, and `first_visit` changes only when the log is cleared |
| `App.ExampleHandledOnce` | app.py:232-235 | a stored example question is processed once, and the next run sees only its own input |
| `App.MainPassKeepsAlternation` | app.py:156-195 | if the log was a conversation (user and assistant messages taking turns, user first), it still is after any run of `main` |
| `App.Transcript` | app.py:156-195 | a run of n questions adds 2n messages |
| `App.ReplayAppends` | app.py:152-195 | the log is append-only: after questions go through `process_user_input` one after another, the log is the old log followed by their messages, and no other key changes |
| `App.ReplayKeepsAlternation` | app.py:152-195 | a conversation stays one (user and assistant messages taking turns) however many questions go through `process_user_input` |
| `App.TranscriptAt` | app.py:156-195 | question k of a run takes messages 2k and 2k+1 of what the run adds: its user message and its reply |
| `App.ExampleQuestionsAreValid` | app.py:121-128 | every example question in the sidebar passes validation, so selecting one runs the pipeline |
| `App.Session.constructor` | app.py:78-83 | a new browser session has none of the keys `initialize_session_state` tests for |
| `App.Session.InitializeSessionState` | app.py:78-83 | the session's new state is `Initialized` of the old one |
| `App.Session.ProcessUserInput` | app.py:152-195 | the log gains the user message and then the assistant reply; `process_question` is called (and its result returned) exactly when validation passes |
| `App.Session.ClearChat` | app.py:248-250 | the log becomes [] and `first_visit` becomes true; the example question is untouched |
| `App.Session.SelectExample` | app.py:130-132 | an example button stores its question in the session and changes nothing else |
| `App.Session.ConsumeExample` | app.py:232-235 | a pending example question is deleted from the session and then processed; without one nothing changes |
| `App.Session.MainPass` | app.py:197-251 | the session's new state is `AfterMainPass` of the old one |

## Left out

- Everything Streamlit renders is left out: page configuration, CSS and HTML, the header, the sidebar text, the chat-history rendering (`\n` to `<br>`, `.title()`), spinners. It is display only.
- `st.rerun()` is modelled only as ending the current run of `main`. The page re-execution it triggers is not modelled.
- CrewAI's `Agent`, `Task`, `Crew` and `kickoff`, `ChatOpenAI` and `SerperDevTool` are foreign calls to hosted services. A kickoff is only its outcome: finished, or raised with a message. That outcome also stands for exceptions raised while the tasks are built.
- tasks.py and the agent factories (`create_research_agent`, `create_answer_agent`, `create_quality_agent`) are left out. They only assemble prompt text for a third-party library.
- Environment variables, `load_dotenv` and the reading of `seameo_urls.json` are configuration and I/O; the domain list is a parameter.
- `MainPass` models a run of `main` in which both API keys are set. A run with a key missing is not modelled: it initialises the session state and records a clicked example question (app.py:130-132, reached from app.py:207) before returning at app.py:226, so that example stays pending for a later run.
- `process_user_input` is modelled as running to completion. The user message is appended (app.py:156) before the slow `process_question` call (app.py:174-175); a run cut short in between, for example when the user stops the app, leaves a user message with no reply. `App.AfterInput`'s two new messages, `App.MainPassKeepsAlternation` and `App.ReplayKeepsAlternation` hold only for runs that finish.
- Message timestamps (`time.time()`) are wall-clock values and are not modelled.
- The module-level singleton `crew_manager` is not modelled, because the crew manager holds no state the model needs.
- One example-button click per run is modelled (`clicked` is an `Option`). Several buttons reporting a click in the same run is not.
- Python strings may hold lone surrogate code points. Dafny characters cannot, so such strings are not modelled.
- Agents.SeparatorCount: it requires that no domain holds a space, which is more than "no domain holds ` OR `". A domain ending in " OR" would create an extra occurrence of " OR " across the seam with the next separator. Every host name satisfies the stronger condition.
- Agents.SiteFilterCount: it requires that no domain holds "site:" itself. Otherwise the domain's own occurrences would be counted too.
- `answer_task.output` is modelled as an optional string holding its `.raw` text. The truthiness test on the output object is modelled as "present", so a present output with empty text is still the answer.
- `question` is typed `str`. The `not question` test is modelled as the empty-string case, and a `None` question is not modelled.
