# Conversation engine, verified

A Dafny model of the chatbot platform's conversation engine and of the pure algorithms around it, with proofs.

**What is modelled.** One turn of a conversation starts with a state envelope that the client sends back. The engine
re-checks the envelope, runs a prioritised pipeline (survey, form, pending question, homonym, node, question, intent,
fallback), executes the outputs of the chosen node with a work queue that may move on to other nodes, and may stop at an
external call, to be resumed with the result of the call. Around it stand the design checks (move cycles, flow tree),
the printing and judging of survey answers, matching and ranking, path patterns of proactive rules, personal-data
masking, the degradation of outputs for channels, wall-clock times, response paths, speech chunks and an edit distance.

**How it is modelled.** `Date` is an integer number of milliseconds and strings are sequences of characters. Code made
of expressions is a function; code that works by assignment is a method with its loops and updated fields (or a class
where it is an object), proved equal to a function or proved against its specification directly. The executor's loop
variables are the fields of one `Machine` record that the method `ExecuteOutputs` reassigns. Each masking expression is
a value of `Regex.Re`, with the ordered, backtracking meaning of JavaScript expressions (`Regex.Ends`); nothing about an
expression is assumed. What a function computes is also said without it, as a relation read off the bundle, the text or
the answer itself (`Readings.Read`, `ApiCalls.Leads`, `StageFacts.Responds`, `JudgeMeaning.Means`, `SurveyFacts.Does`,
`DegradeMeaning.Becomes`, `PiiMask.MasksAll` and others), and proved to hold of it. Library code that the engine calls and the model does not open is a record of functions
(`Dialogue.Lib`): Unicode normalisation, word search, the output schema, `{api.*}` rendering, slot formats, the JSON
reader. All results hold for every choice of these functions unless a premise is stated.

| file | content |
|---|---|
| Prelude, Texts, Dialogue | shared definitions, the entities of a bundle and of a conversation |
| SurveyAnswers, SurveySessions, ContextForms | survey questions and answers, the survey and form state machines |
| TypedAnswers, JudgeMeaning, SurveyFacts, FormFacts | what a typed answer means, what a question shows, what one text does to a survey or a form |
| OutputExecutor, ExecutorFacts, RenderFacts, BindingFacts, ApiCalls, ResumeFacts, EmissionFacts | the output queue machine, external calls, suspension and resumption |
| Readings, ExecutorRuns | what running a node comes to, read off the bundle; the executor as it runs |
| Matching, Resolver, Turns, Envelopes, PipelineRuns | matching, the pipeline, one turn, the envelope; the pipeline and the turn as they run |
| TurnFacts, SurveyRuns, PipelineFacts, AnswerFacts, StageFacts, MatchingFacts, EnvelopeFacts, IndexFacts | invariants of every turn and every conversation, what each stage of the pipeline answers, what scores and what comes first, what is kept of an envelope, the index |
| MoveCycles, MoveChains, FlowTrees | cycle detection, what it says about the executor, reachability |
| Regex, Languages, EmailScan, MaskRules, MaskShapes, MaskMeaning, MarkFacts, ChunkFacts, PiiMask | expressions, what they take, what a replacement leaves, masking of all kinds |
| Stash, Filling, HeldPasses, SelectiveMask | masking of chosen kinds, the rest set aside and restored |
| Degrade, DegradeMeaning, DegradeFacts, DegradeValidity | channel degradation |
| ProactivePaths, PathFacts, ResponsePaths, SpeechChunks, WallClock, EditDistance | the remaining algorithms |

**Where the code does less than its documentation or intent says.** These are modelled as the code has them, with a
lemma for each:

- A move whose target is missing or disabled still spends a hop, so a bundle without move cycles can hit a hop limit of
  its number of nodes (`MoveChains.BrokenMovesHitLimit`; `MoveChains.HitsLimitIff` says exactly when it happens, in moves
  counted in the bundle).
- A rendered label or title of nothing but white space passes the filter for empty ones, and then not the output schema
  (`RenderFacts.BlankLabelSlipsThrough`; `RenderFacts.RenderedAcceptedIff` gives the exact condition).
- A resumed turn reports workflow emissions only if a workflow record was carried over the call, and none is carried when
  nothing was emitted before and no form was completed (`EmissionFacts.LostEmission`; `EmissionFacts.EmissionsKeptIff`
  gives the exact condition in the bundle).
- Path normalisation is not idempotent: percent signs and slashes that were encoded twice or in a row are decoded and
  collapsed further on the next pass (`ProactivePaths.EncodedPercentDecodesTwice`,
  `ProactivePaths.EncodedSlashesCollapse`), and a path of 2048 characters without a leading slash loses its last one
  (`ProactivePaths.LongPathShrinks`). `ProactivePaths.NormalizeTwiceIff` gives the exact condition,
  `ProactivePaths.PlainTwiceIff` the one for paths without percent signs.
- The bound on handled outputs needs the hops left not to be counted below 0: a node that follows a survey starts at hop
  1 even under a limit of 0 (`ExecutorFacts.NegativeHopsStillRun`; `ExecutorFacts.SignedBoundIff` gives the exact
  condition, `ExecutorFacts.RunIsShort` the bound that always holds).
- A survey choice that is called like a skip or cancel word has a button that does not choose it
  (`SurveySessions.SkipWordIsNotRecorded`; `SurveySessions.ShownButtonRecordedIff` gives the exact condition).
- A candidate question is offered as a button that sends at most 200 characters, while questions may be longer. By exact
  match, which is the only match in a turn with semantic scores, the button of a longer one is not recognised unless
  what is left reads like some question (`AnswerFacts.LongQuestionIsCutOff`, `AnswerFacts.OfferedQuestionIff`); the
  scores of the cut text may still confirm a question (`AnswerFacts.OfferedQuestionRepliedIff`).
- A wall time is answered in full if and only if no third offset plays a part (`WallClock.ExactIff`). The zone of
  `WallClock.SecondTransitionIsMissed` is made up; whether a zone in use changes twice within two days is not part of
  this model.

## Model

| member | source | states |
|---|---|---|
| ExecutorRuns.ExecuteOutputs | packages/dialogue-engine/src/outputs.ts:164-371 | the loop of the executor, with its reassigned queue, hops, session, suspension and skips, replies with exactly what is read off the bundle: valid outputs as they are, or rendered once variables are set, the others passed over; the targets of moves within the hops; and at the first form, survey, call or spent limit what that says or opens; besides the unsupported types, the skipped surveys and the workflow events in order |
| Readings.ExecuteReads | packages/dialogue-engine/src/outputs.ts:164-371 | the same of every list of outputs, every bundle and every number of hops |
| Readings.RunIsReading | packages/dialogue-engine/src/outputs.ts:184-345 | from any point of a run, what is added until its end is what is read off the outputs still to come |
| OutputExecutor.HandledOutput | packages/dialogue-engine/src/outputs.ts:194-343 | whatever the output, nothing collected is taken back, and either the run goes on (nothing opened or awaited, the queue as it was or, for one hop within the limit, that of an enabled node) or it ends for exactly one reason: a form, a survey, a call, the hop limit, or a call that cannot be made |
| OutputExecutor.CollectFields | packages/dialogue-engine/src/api-call.ts:122-142 | the binding loop returns all bound fields in order, or nothing as soon as one slot binding is not met |
| OutputExecutor.StepDescends | packages/dialogue-engine/src/outputs.ts:184-345 | every round lowers (hops left, queue length) lexicographically, on every bundle, cyclic ones included |
| BindingFacts.RequestBound | packages/dialogue-engine/src/api-call.ts:110-142 | a request is made if and only if every path value, query field and body field can be met, and then holds each in its place: constants as they are, slot values from the form completed in this turn, if it is the one meant and they are not blank |
| BindingFacts.EmissionBound | packages/dialogue-engine/src/workflow-output.ts:22-38 | a workflow event names the node and output it comes from and holds all its fields, or none and the mark that one could not be met |
| ExecutorFacts.RunAfter | packages/dialogue-engine/src/outputs.ts:164-371 | a run appends to what was collected before and never looks at it, so a run can be cut at any point |
| ExecutorFacts.RunIgnoresForm | packages/dialogue-engine/src/outputs.ts:292-336 | once no call is left, the completed form affects workflow emissions and nothing else, over whole runs |
| ExecutorFacts.ExecutionBehaves | packages/dialogue-engine/src/outputs.ts:164-371 | every execution of a node replies with displayable outputs only, never with none unless it waits for a call, yields at most one of a form, a survey and a call, and suspends only when a call was left |
| ExecutorFacts.RunBehaves | packages/dialogue-engine/src/outputs.ts:184-345 | the invariant behind it holds after every run from every state that satisfies it |
| ExecutorFacts.HandledBound | packages/dialogue-engine/src/outputs.ts:184-345 | from any state the number of handled outputs is at most the queue plus hops left times the longest output list |
| ExecutorFacts.RunIsShort | packages/dialogue-engine/src/outputs.ts:164-371 | running a node handles at most (hops left, not counted below 0, + 1) times the longest output list of the bundle |
| ExecutorFacts.SignedBoundIff | packages/dialogue-engine/src/outputs.ts:164-371 | with hops left counted below 0 as well, the bound holds if and only if the node starts within the limit, or has no outputs and the bound is not negative |
| ExecutorFacts.NegativeHopsStillRun | packages/dialogue-engine/src/resolver.ts:288-298 | under a hop limit of 0 the node after a survey, which starts at hop 1, is still handled, against that bound |
| RenderFacts.RenderingPutsIn | packages/dialogue-engine/src/outputs.ts:33-114 | rendering an output is putting the values into each of its texts, and then cutting and dropping as the schema asks |
| RenderFacts.FittingIsShown | packages/dialogue-engine/src/outputs.ts:33-114 | an output that still fits the schema with the values in is shown as it is, all of it |
| RenderFacts.NothingLeft | packages/dialogue-engine/src/outputs.ts:33-114 | a text, a title, or labels and titles that all come to nothing take their output with them |
| RenderFacts.OneCardLeft | packages/dialogue-engine/src/outputs.ts:92-107 | a carousel of which one card is left is shown as its heading, if it says something, and that card |
| RenderFacts.RenderedAcceptedIff | packages/dialogue-engine/src/outputs.ts:33-114 | rendering a valid displayable output leaves only outputs that the output schema accepts if and only if no kept title or label is left blank; a carousel reduced to one card included |
| RenderFacts.BlankLabelSlipsThrough | packages/dialogue-engine/src/outputs.ts:56-68 | a label of two empty variables and a space is kept although the schema refuses it |
| RenderFacts.RenderedButtons | packages/dialogue-engine/src/outputs.ts:52-62 | the rendered and filtered labels are all acceptable exactly when none is rendered to white space only, and no link button appears |
| ApiCalls.RunNodeRuns | packages/dialogue-engine/src/resolver.ts:39-170 | running a node inside a turn, in whatever circumstances: what is read off its outputs either ends the turn, after what was said before, with the form and survey begun or else the ones at stake, and all survey and workflow events in order; or waits for a call, and then all of this is carried over the call and nothing said yet |
| ApiCalls.ResumeAfterApiCall | packages/dialogue-engine/src/api-call.ts:152-306 | the resumption, with its reassigned branch, target, variables and results, runs the first enabled node with the id that the result leads to: the failure node, without variables, when no answer came or a required value is missing; else that of the first condition that holds; else the default one; and gives the notice of the branch when there is no such node |
| ApiCalls.SelectLeads | packages/dialogue-engine/src/api-call.ts:160-200 | the branch, the node id and the variables (the last value given for each name) of every payload and every result are these |
| ApiCalls.EvaluateConditions | packages/shared-types/src/api-mapping.ts:152-159 | the loop returns the first condition that holds, and nothing only when none does |
| ApiCalls.BuildVariables | packages/shared-types/src/api-mapping.ts:193-213 | the loop collects the later value of a repeated name, skips missing values, blanks non-scalar ones, and reports exactly whether a required value is missing |
| ResumeFacts.ResumingIsContinuing | packages/dialogue-engine/src/api-call.ts:152-306 | resuming with a result that selects an enabled node gives the same unsupported list, form session, envelope and survey events as continuing the suspended loop with one hop more, the queue replaced, variables on and no call left; the same outputs unless the branch says nothing, and the same emissions when a record was carried; hop limit included |
| ResumeFacts.SuspendedTurnContinues | packages/dialogue-engine/src/turn.ts:55-145 | the same for every suspended turn of every conversation: some node was being run, and each result that selects an enabled node continues that run |
| ResumeFacts.ContinuedIsBranchAfter | packages/dialogue-engine/src/outputs.ts:292-323 | the continued loop is what was said before the call followed by the run of the branch |
| EmissionFacts.EmissionsKeptIff | packages/dialogue-engine/src/api-call.ts:219-306 | the resumed turn reports the workflow emissions of the continued run if and only if the call carried a workflow record or the branch, read off the bundle within the hops left, comes to no workflow output |
| EmissionFacts.SuspendedTurnKeepsIff | packages/dialogue-engine/src/turn.ts:55-145 | the same condition for every suspended turn of every conversation |
| EmissionFacts.RunEmits | packages/dialogue-engine/src/outputs.ts:164-371 | a run with no call left emits exactly when its list, read off the bundle (unparsable outputs passed over, a form or survey that opens ending it, moves and failed calls costing hops), comes to a workflow output |
| EmissionFacts.LostEmission | packages/dialogue-engine/src/resolver.ts:39-46 | a node with one call whose one condition holds of the answer, no record carried, and a branch with one workflow output, under well-formed ids and valid outputs: the continued loop emits and the resumed turn reports nothing |
| ResumeFacts.SuspendedIsPlain | packages/dialogue-engine/src/outputs.ts:292-306 | a suspended run holds no form, no survey and no queue, so nothing is lost by dropping them |
| Envelopes.SanitizeState | packages/dialogue-engine/src/conversation-state.ts:48-198 | the successive checks and reassignments compute the kept envelope and the list of discard reasons in order |
| Envelopes.AcceptedIffUnchanged | packages/dialogue-engine/src/conversation-state.ts:48-198 | re-checking an envelope changes and discards nothing if and only if the survey, the form, the question and the list each pass every check as they stand |
| Envelopes.SanitizedIsSafe | packages/dialogue-engine/src/conversation-state.ts:48-198 | whatever the client sent, what is kept never holds both a survey and a running form, holds at most 20 completed surveys, and refers to existing, live assets within their time limits |
| EnvelopeFacts.SanitizeChecks | packages/dialogue-engine/src/conversation-state.ts:48-198 | of any client state: a malformed form or question discards all; otherwise each part is checked on its own, is dropped for the first reason that applies or kept with no time ahead of now, and what is wrong with one part never touches another |
| TurnFacts.TurnFits | packages/dialogue-engine/src/turn.ts:55-145 | for every client state, input and well-formed bundle the turn replies with a non-empty list of displayable outputs and an acceptable envelope, moves the survey by one legal step, and every way of resuming its call does too, without a second call |
| TurnFacts.TurnIsExclusive | packages/dialogue-engine/src/turn.ts:97-118 | no turn returns an envelope with both a survey session and a running form, or with more than 20 completed surveys |
| TurnFacts.TurnAcceptsItself | packages/dialogue-engine/src/conversation-state.ts:48-198 | sanitising the returned envelope with the same bundle, clock and options discards nothing, if its form is within the size cap |
| TurnFacts.ResumedTurnFits | packages/dialogue-engine/src/api-call.ts:219-306 | a resumed turn never asks for another call, replies with displayable outputs and returns an acceptable envelope |
| TurnFacts.ResumedLaterMoves | packages/dialogue-engine/src/api-call.ts:219-306 | a turn resumed at any later time still moves the survey of the suspended turn by one legal step |
| TurnFacts.RespondFits | packages/dialogue-engine/src/resolver.ts:334-739 | every text, on every sane turn, leads to a resolution that fits: shown outputs, acceptable envelope, legal survey move, or a call that was made from a node of the bundle |
| TurnFacts.ButtonFits | packages/dialogue-engine/src/resolver.ts:783-868 | the same for every pressed node button, with or without the prebuilt index |
| TurnFacts.FallbackFits | packages/dialogue-engine/src/resolver.ts:179-255 | the same for the fallback node, the oldest error response and the default text |
| TurnFacts.SurveyReplyFits | packages/dialogue-engine/src/resolver.ts:258-327 | the same for a text that the running survey consumed, including the node that follows a completed survey |
| TurnFacts.FormStageFits | packages/dialogue-engine/src/resolver.ts:409-462 | the same for a text that meets a form session, running, broken, finished or absent |
| PipelineRuns.TakeTurn | packages/dialogue-engine/src/turn.ts:55-145 | the turn as it runs, from the re-checked envelope over the reassigning pipeline and a call assumed to fail to the next envelope, is the turn of all results here: the text or button is taken as the stages say and handed back with what no survey touched left as it was; for well-formed bundles and sane options it replies with shown outputs, never with both sessions or more than 20 completed surveys, and with an acceptable envelope after one legal survey move |
| PipelineRuns.ResolveResponse | packages/dialogue-engine/src/resolver.ts:334-739 | the stages one after another, over the reassigned carry, events, pending question and completed form: a text is cut to the longest allowed; an empty one is asked for again; a running survey looks at it first and takes it or lets it go; then a running form, which is given up when its definition changed, asks on, or is completed; and only then is it answered, with what was said before in front, the completed form at hand and no pending question when a survey or form stood before |
| StageFacts.RespondResponds | packages/dialogue-engine/src/resolver.ts:334-739 | the same of the pipeline function, on every text and every turn without an index |
| StageFacts.IndexedResponds | packages/dialogue-engine/src/resolver.ts:334-739 | the same with the prebuilt index |
| StageFacts.FinishedFormIsAtHand | packages/dialogue-engine/src/resolver.ts:409-462 | when a text settles the last slot of a running form, the completion message comes first, all values of the form, the last one included, are at hand for bindings, nodes see the form as completed, and the foremost node that suits this answers |
| StageFacts.ReplyResponds | packages/dialogue-engine/src/resolver.ts:258-327 | a text that a survey took: unless it was the last answer, what the survey says is the reply and nothing else changes; after the last one the survey is remembered as the latest of at most 20 and the node named where it was opened follows |
| AnswerFacts.QuestionBeforeIntent | packages/dialogue-engine/src/resolver.ts:625-738 | when no node is eligible, the best scoring question answers, intent or not; else the enabled question that the semantic scores confirm, or a choice of candidates; else the bare intent; and the fallback only when nothing of all this is there |
| AnswerFacts.OfferedQuestionIsAnswered | packages/dialogue-engine/src/resolver.ts:753-765 | the button of an offered candidate question of up to 200 characters sends a text that a question of exactly that normal form matches |
| AnswerFacts.OfferedQuestionIff | packages/dialogue-engine/src/resolver.ts:753-765 | by exact match, the button of an offered question finds a question if and only if the offered one is no longer than the 200 characters a button sends or what is left of it reads like some enabled question |
| AnswerFacts.OfferedQuestionRepliedIff | packages/dialogue-engine/src/resolver.ts:625-697 | in a turn with semantic scores the question stage replies to the button of an offered question if and only if that match is found or the scores of the text sent confirm an enabled question or leave a choice |
| AnswerFacts.LongQuestionIsCutOff | packages/dialogue-engine/src/resolver.ts:625-765 | a question of 201 letters is offered, and its button finds nothing by exact match, nor in a turn whose scores fail |
| AnswerFacts.AskedBackIff | packages/dialogue-engine/src/resolver.ts:506-536 | a text is answered with a question back if and only if it settles no pending question and the first homonym named in it asks and has not exactly one hinted meaning; the question names that homonym, offers its first five meanings and runs no node |
| AnswerFacts.ClarifiedIff | packages/dialogue-engine/src/resolver.ts:464-505 | a pending question is settled if and only if it is in time, its homonym still exists, and the text is, contains or hints at one of its meanings |
| AnswerFacts.OfferedMeaningIsUnderstood | packages/dialogue-engine/src/homonym.ts:98-107 | the text of each offered button, sent back in time, settles the question with a meaning of that label, and with the very meaning offered when labels differ |
| AnswerFacts.FinishedSurvey | packages/dialogue-engine/src/resolver.ts:258-327 | a survey joins the completed ones, and as the last of them, exactly when its last question was settled, in the turn or in what a pending call carries; the node that then runs is the one named where the survey was opened, speaks after the survey, and never opens the same survey again |
| AnswerFacts.ButtonRunsIff | packages/dialogue-engine/src/resolver.ts:783-868 | a button runs the node it names if and only if that node exists and is enabled, with the prebuilt index or without, and falls back otherwise; either way a running form is cancelled, in the turn or when the call returns, unless another one has begun |
| AnswerFacts.FallbackOrder | packages/dialogue-engine/src/resolver.ts:179-255 | the first listed enabled fallback node is run; without one the oldest enabled error response is given, the first listed among equally old ones; the default text only when there is neither |
| MatchingFacts.SuitsIff | packages/dialogue-engine/src/node-matcher.ts:29-81 | a text suits a node if and only if, of the conditions that refer to something that exists, all hold or, unless the node asks for all, one holds, and there is one |
| MatchingFacts.PrecedesIff | packages/dialogue-engine/src/node-matcher.ts:88-106 | the comparison is: higher priority, more conditions, all before any, later update, smaller id |
| MatchingFacts.ChosenWins | packages/dialogue-engine/src/matcher.ts:35-74 | among the examples of all intents one with the highest score wins, and none if and only if none scores; the very text scores a thousand over its length, a part the length of the shorter, a favoured intent a hundred thousand more |
| MatchingFacts.FoundQuestionWins | packages/dialogue-engine/src/faq.ts:19-51 | the same of the wordings of all enabled questions |
| PipelineFacts.ForemostNodeAnswers | packages/dialogue-engine/src/resolver.ts:563-623 | a text runs the one eligible node that comes before all other eligible nodes in the five-key order, whatever questions and intents match as well, and no node other than a fallback answers when none is eligible |
| PipelineFacts.ButtonAbandonsSurvey | packages/dialogue-engine/src/resolver.ts:803-815 | pressing a node button abandons the running survey with reason SWITCHED, in the turn itself or in what the pending call carries |
| SurveyRuns.EveryTraceIsProper | packages/dialogue-engine/src/survey-session.ts:43-244 | over every conversation with returned envelopes, increasing clock and questions fixed per structure version, the events of each attempt are EXPOSED, then questions 0, 1, 2, … settled without gaps, then at most one COMPLETED (after all questions) or ABANDONED (before that); required questions are answered by values that pass the server's check |
| SurveyRuns.PlayHolds | packages/dialogue-engine/src/survey-session.ts:81-244 | the invariant on every prefix of a conversation: the running attempt's trace ends at the session's question and attempts of the future have no events |
| SurveySessions.StepShape | packages/dialogue-engine/src/survey-session.ts:81-200 | one text releases or ends the attempt with one closing event, asks again without an event and with one retry more, or records the current question and moves to the next or completes |
| SurveyFacts.StepDoes | packages/dialogue-engine/src/survey-session.ts:81-200 | for every text, session, survey and moment: to stop comes first, then a changed survey, a closed one, one out of time; only then is the text a skip or an answer; what it means is recorded and the next question asked, or it is corrected and the question asked again, twice at most |
| SurveyFacts.QuestionAsks | packages/shared-types/src/survey-logic.ts:173-219 | every question shows its place and number, its wording, its guide, and its buttons by fives: every choice or score with its caption and value, a way to skip if it may be skipped, a way to stop |
| SurveyFacts.StartAsks | packages/dialogue-engine/src/survey-session.ts:43-70 | a survey begins with its introduction and first question, and with the event that says where it was opened |
| SurveyFacts.RefusedIff | packages/shared-types/src/survey-logic.ts:222-237 | a survey is refused for exactly the first reason that applies: missing, empty, answered before, not open, out of its period |
| JudgeMeaning.JudgeMeans | packages/shared-types/src/survey-logic.ts:30-118 | whatever is typed is judged as what it means: the choice whose label or number it is; the set of choices that its tokens name, in the order of the choices and within the bounds; the score it begins with; the words left without control characters and outer white space; and is refused otherwise, with the reason |
| JudgeMeaning.TypedNumberJudged | packages/shared-types/src/survey-logic.ts:30-44 | the number n of a choice, alone, with `번`, with a full stop or both, where no label reads like it, is judged as exactly choice n |
| JudgeMeaning.NumberOutOfRange | packages/shared-types/src/survey-logic.ts:30-44 | a number that no choice has is refused |
| JudgeMeaning.TypedListJudged | packages/shared-types/src/survey-logic.ts:58-84 | numbers with commas between them, or two or more with spaces, are judged as exactly the choices they number, once each, in the order of the choices |
| JudgeMeaning.PlainWordsJudged | packages/shared-types/src/survey-logic.ts:100-105 | words without control characters and outer white space are recorded whole, unless they are too long |
| JudgeMeaning.PrintedNumberIsChoice | packages/shared-types/src/survey-logic.ts:46-53 | the number printed before a choice, typed with its full stop, names that choice |
| TypedAnswers.OrdinalIff | packages/shared-types/src/survey-logic.ts:34 | the number expression reads exactly one or two digits, spaces, `번` or nothing, a full stop or nothing |
| TypedAnswers.TokensAre | packages/shared-types/src/survey-logic.ts:58-69 | the tokens of a text are the text itself where it is a label, else the numbers it consists of, else its trimmed pieces between separators |
| SurveyAnswers.JudgedIsValid | packages/shared-types/src/survey-logic.ts:30-144 | for every question and every input a value the judge accepts passes the server's own check |
| SurveyAnswers.ShownButtonJudgedBack | packages/shared-types/src/survey-logic.ts:173-219 | every choice or score button among the printed outputs is judged back to exactly that choice or score |
| SurveySessions.ShownButtonRecordedIff | packages/dialogue-engine/src/survey-session.ts:81-200 | pressing it records that answer if and only if the session still lives and is in time and the text is neither a cancel word nor a skip word |
| SurveySessions.SkipWordIsNotRecorded | packages/dialogue-engine/src/survey-session.ts:136-165 | a choice called "skip" has a button that never records an answer |
| SurveyAnswers.NoButtonLost | packages/shared-types/src/survey-logic.ts:173-219 | the printed blocks together hold all buttons of the question in order: none is lost to the cap of three blocks of five |
| SurveyAnswers.AppendBlocks | packages/shared-types/src/survey-logic.ts:173-219 | the chunking loop appends blocks of five, at most three of them |
| JudgeMeaning.CollectKeys | packages/shared-types/src/survey-logic.ts:70-75 | the token loop collects, token by token, the key of the choice that the token names by its label or its number, and refuses exactly when some token names none |
| SurveyAnswers.UniqueByRankIsSorted | packages/shared-types/src/survey-logic.ts:76-80 | the accepted keys of a multiple choice are the named ones, once each, in the order of the choices |
| SurveyAnswers.ScoreReadBack | packages/shared-types/src/survey-logic.ts:91-98 | every printed score, with its unit, is read back as that number |
| SurveyAnswers.Unavailable | packages/shared-types/src/survey-logic.ts:222-237 | nothing is reported if and only if the survey exists, has questions, was not completed before, and is either previewed or open within its period; a preview does not lift the check for completed ones |
| FormFacts.StepIs | packages/dialogue-engine/src/context-session.ts:165-223 | a cancel word ends the form; so does silence that lasted too long; an optional slot may be skipped; otherwise the text is the value of the current slot and the next slot is asked or the form completed, or it is one try less and the same slot is asked again |
| FormFacts.CheckedIff | packages/dialogue-engine/src/context-session.ts:47-107 | a slot takes exactly these values: the first choice of that name, the name of its keyword for the name or a synonym, or the trimmed text that its format allows |
| FormFacts.ShownChoiceIsTaken | packages/dialogue-engine/src/context-session.ts:110-121 | each choice shown as a button is accepted as itself, when names differ |
| ContextForms.FormStatesAreSound | packages/dialogue-engine/src/context-session.ts:123-223 | in every form state reached from the start no slot at or past the index is filled and every earlier required slot holds a value that revalidates |
| ContextForms.FormEnds | packages/dialogue-engine/src/context-session.ts:165-223 | a form is over after at most the sum of (maxRetry + 1) texts |
| ContextForms.StepKeepsSound | packages/dialogue-engine/src/context-session.ts:165-223 | one text keeps the form sound, and one that leaves it in progress either spends a retry or settles one slot |
| ContextForms.RunKeepsSound | packages/dialogue-engine/src/context-session.ts:165-223 | over runs, each text in progress uses up one of the tries left |
| ContextForms.StoredValueRevalidates | packages/dialogue-engine/src/context-session.ts:47-107 | a value that slot validation stored is accepted again, unchanged, for every slot type |
| MoveCycles.FindMoveCycles | packages/dialogue-engine/src/design-validator.ts:57-99 | the three-colour search reports something if and only if the moves between existing nodes have a cycle, and every report is the names along a real closed walk |
| MoveCycles.CycleFinder.Dfs | packages/dialogue-engine/src/design-validator.ts:73-93 | the recursive search leaves the stack as it was, paints the node black, keeps every earlier report, and ends because white nodes run out |
| MoveCycles.CycleFinder.Report | packages/dialogue-engine/src/design-validator.ts:79-86 | a report is added for the walk from the gray target along the stack, unless its node set is known, and then one is already there |
| MoveCycles.OrderedIsAcyclic | packages/dialogue-engine/src/design-validator.ts:57-99 | a graph whose nodes can be listed with all moves pointing back has no closed walk |
| MoveCycles.AcyclicWalkIsShort | packages/dialogue-engine/src/design-validator.ts:57-99 | without cycles a walk visits no node twice, so it is no longer than the graph |
| MoveChains.HitsLimitIff | packages/dialogue-engine/src/outputs.ts:244-258 | in a bundle without move cycles, executing a node hits the hop limit if and only if the moves read off the bundle along its chain (up to the first form, available survey or call; a broken move counts and the list goes on) outnumber the limit |
| MoveChains.HitsLimitWithin | packages/dialogue-engine/src/outputs.ts:244-258 | the same in any bundle, cyclic or not, with the chain followed through as many targets as the limit |
| MoveChains.CheckedBundleNeverHits | packages/dialogue-engine/src/outputs.ts:244-258 | without cycles and without broken moves, a limit of the number of nodes is never hit, with one call allowed |
| MoveChains.BrokenMovesHitLimit | packages/dialogue-engine/src/outputs.ts:244-258 | one node with two moves to a node that is gone, under well-formed ids, has no cycle and still hits a limit of the number of nodes |
| MoveChains.HopsAreMoves | packages/dialogue-engine/src/outputs.ts:244-258 | a run within the limit spends exactly as many hops as there are moves in the bundle along its chain |
| MoveChains.LimitCuts | packages/dialogue-engine/src/outputs.ts:244-258 | of two limits the smaller one is hit exactly when the run under the larger one spends more hops than it |
| FlowTrees.BuildFlowTree | packages/dialogue-engine/src/flow-tree.ts:9-51 | the orphans are, in the order of the bundle, exactly the nodes that no path of move, button, API and survey references reaches from the root, which is the first start node or else the node that precedes all others; cyclic graphs included |
| FlowTrees.OutgoingIff | packages/dialogue-engine/src/design-validator.ts:10-42 | the references of a node are those its outputs mention: the target of a move, the node of a button beside a text, on a card or in a carousel, the node of any condition, default or failure of a call, the node after a survey |
| FlowTrees.OutgoingOrdered | packages/dialogue-engine/src/flow-tree.ts:25-41 | moves come first, then buttons, branches and surveys |
| FlowTrees.FlowTreeBuilder.BuildNode | packages/dialogue-engine/src/flow-tree.ts:17-45 | the recursion unfolds the references below a node, cuts at ancestors, adds exactly its nodes to the visited set, and ends because the ancestry grows |
| FlowTrees.TreeNodesAreExact | packages/dialogue-engine/src/flow-tree.ts:17-45 | a node is in the unfolded tree if and only if a reference path reaches it |
| FlowTrees.BranchesDoNotRepeat | packages/dialogue-engine/src/flow-tree.ts:17-45 | down any branch no node repeats, except a last one that is then marked as repeated |
| Matching.MatchIntent | packages/dialogue-engine/src/matcher.ts:35-74 | the loop returns the first example of the highest positive score, boosted intents first, and nothing when no example scores |
| Matching.Best | packages/dialogue-engine/src/matcher.ts:41-59 | the chosen position holds the greatest score, a positive one, and every earlier score is smaller |
| Matching.BuildIndex | packages/dialogue-engine/src/dialogue-index.ts:41-94 | the loops build the normalised non-empty examples in bundle order, the ranking, and the last node for each id |
| IndexFacts.IndexChangesNothing | packages/dialogue-engine/src/turn.ts:55-145 | with unique node ids, a turn resolved with the prebuilt index equals the turn resolved without one, for every input and client state |
| IndexFacts.SameExample | packages/dialogue-engine/src/matcher.ts:61-71 | choosing among the indexed examples gives the same intent and example as choosing among all |
| IndexFacts.SameLookup | packages/dialogue-engine/src/resolver.ts:817 | with unique ids the index finds a node exactly where the linear search does |
| IndexFacts.RankingIgnoresStorage | packages/dialogue-engine/src/node-matcher.ts:88-106 | with unique ids the ranking is one list for every permutation of the nodes |
| IndexFacts.ChoiceIgnoresStorage | packages/dialogue-engine/src/resolver.ts:563-566 | the node chosen for a text does not depend on the order in which nodes are stored |
| IndexFacts.RankedIsOrdered | packages/dialogue-engine/src/node-matcher.ts:88-106 | the ranking is a permutation of the nodes in which every node comes before all later ones in the five-key order |
| IndexFacts.BeforeTransitive | packages/dialogue-engine/src/node-matcher.ts:89-105 | the five-key comparison is transitive |
| IndexFacts.BeforeTotal | packages/dialogue-engine/src/node-matcher.ts:89-105 | of two nodes with different ids one comes before the other |
| ProactivePaths.MatchSegments | packages/shared-types/src/proactive-eval.ts:70-104 | the loop that only goes back to the last `**` answers true if and only if the pattern means the path (`**` any number of segments, `*` one, a literal itself), in at most (P+1)(S+1) rounds |
| ProactivePaths.MatchesPathCondition | packages/shared-types/src/proactive-eval.ts:107-111 | true if and only if some included pattern matches and no excluded one does |
| ProactivePaths.CollapseSlashes | packages/shared-types/src/proactive-eval.ts:28-42 | the loop drops exactly the slashes that follow a slash |
| PathFacts.NormalizeNormalises | packages/shared-types/src/proactive-eval.ts:53-62 | a normalised path is a slash and, with slashes between them, at most 256 of the texts that stand between the slashes of the first 2048 characters, each decoded |
| ProactivePaths.NormalizeTwiceIff | packages/shared-types/src/proactive-eval.ts:53-62 | for every path and every decoder that leaves percent-free text alone, normalising twice is normalising once if and only if the segments of the path, once decoded, fit the limits on length and number, and their pieces (cut at decoded slashes) are neither empty nor decode further |
| ProactivePaths.PlainTwiceIff | packages/shared-types/src/proactive-eval.ts:53-62 | on paths without a percent sign it is so if and only if the path is not one without a leading slash that fills the 2048 characters and that neither collapsing, nor a trailing slash, nor the limit on segments shortens |
| ProactivePaths.LongPathShrinks | packages/shared-types/src/proactive-eval.ts:53-62 | 2048 letters without a leading slash lose their last letter on the second pass |
| ProactivePaths.EncodedSlashesCollapse | packages/shared-types/src/proactive-eval.ts:53-62 | encoded slashes in a row are decoded on the first pass and do not stay on the second |
| ProactivePaths.NormalizeTwice | packages/shared-types/src/proactive-eval.ts:53-62 | on paths that start with a slash and hold no percent sign normalising is idempotent, long paths included |
| ProactivePaths.EncodedPercentDecodesTwice | packages/shared-types/src/proactive-eval.ts:53-62 | a doubly encoded percent sign normalises to something else each time |
| ResponsePaths.ParseResponsePath | packages/shared-types/src/api-mapping.ts:23-63 | the token and bracket loops compute the segments, or a refusal at the first fault |
| ResponsePaths.PrintedPathIsRead | packages/shared-types/src/api-mapping.ts:23-63 | reading the printed form of valid segments gives exactly those segments |
| ResponsePaths.ReadingTwice | packages/shared-types/src/api-mapping.ts:23-63 | whatever path is accepted, its printed form is accepted too and has the same segments |
| ResponsePaths.ParsedIsValid | packages/shared-types/src/api-mapping.ts:17-63 | every accepted path has segments, only well-formed and not forbidden keys, and indices up to 9999 |
| EmailScan.ReplaceEmails | packages/pii-mask/src/email-scan.ts:22-41 | for every input the linear scan makes the same matches in the same order and returns the same text as leftmost global replacement with the old expression |
| EmailScan.RunStartsSuffice | packages/pii-mask/src/email-scan.ts:18-20 | where the old expression does not match at the position itself, searching run starts only finds the same match |
| EmailScan.SameRunSameEnds | packages/pii-mask/src/email-scan.ts:5-13 | a start inside a run of local characters has exactly the ends of the start before it |
| EmailScan.LocalPartIsWholeRun | packages/pii-mask/src/email-scan.ts:15-20 | backtracking inside the local part never helps: the ends are those after the whole run |
| PiiMask.MaskPii | packages/pii-mask/src/index.ts:168-208 | every match of the five kinds, each kind in the text that the one before has left, none left out, is replaced: resident numbers, cards and accounts by their labels, dates that stand alone kept; phone numbers by three digits, stars and four digits; e-mail addresses by their first character, stars and their domain; in full mode both by a label that shares no character with them; then, without reserved characters, digits beside marks, long runs and the spaced card form are hidden too and the marks spelled out; the phone, account and e-mail counts are the numbers of matches replaced, the other two those of the marks; no digit touches a mark and the result has no 14 digits in a row |
| PiiMask.PassesHide | packages/pii-mask/src/index.ts:182-204 | the five passes do this in both modes, with marks or labels, and the counts of all five kinds are the numbers of matches that changed |
| MaskMeaning.PhoneGone | packages/pii-mask/src/index.ts:148-154 | of every match of the phone expression the first three and the last four digits are left around four stars, never the match itself; in full mode no character of it |
| MaskMeaning.EmailGone | packages/pii-mask/src/index.ts:156-162 | of every match of the e-mail expression the first character and the domain are left around three stars, never the match itself; in full mode no character of it |
| MaskMeaning.DateIff | packages/pii-mask/src/index.ts:228-229 | the date expression takes exactly the written dates of the years 1900 to 2099, months to 12 and days to 31 |
| MaskMeaning.MatchesFound | packages/pii-mask/src/index.ts:182-204 | the matches a replacement goes through stand in order and apart, and wherever the expression matches one of them covers the place |
| Languages.EndsAreAccepted | packages/pii-mask/src/index.ts:85-113 | backtracking through any of these expressions reaches exactly the ends of the texts in its language |
| MaskShapes.RrnTaken | packages/pii-mask/src/index.ts:85 | the expression takes exactly six digits, a dash or none, a digit from 1 to 8 and six digits |
| MaskShapes.CardTaken | packages/pii-mask/src/index.ts:88 | exactly three groups of four digits and one of two to four, apart by a dash, a space or nothing, before neither a digit nor a dash |
| MaskShapes.PhoneTaken | packages/pii-mask/src/index.ts:92 | exactly mobile numbers, with dashes or without, and numbers of an area with dashes |
| MaskShapes.AccountTaken | packages/pii-mask/src/index.ts:96 | exactly three groups of two to six digits with dashes between them, and one more of up to six or none |
| MaskShapes.LongTaken | packages/pii-mask/src/index.ts:112 | exactly 14 digits or more that no digit stands beside |
| MaskShapes.AmexTaken | packages/pii-mask/src/index.ts:113 | exactly groups of four, six and five digits with single spaces between them, no digit beside them |
| MaskShapes.EmailTaken | packages/pii-mask/src/email-scan.ts:1-16 | exactly local characters, `@`, domain characters, a dot and two letters or more |
| PiiMask.MaskFive | packages/pii-mask/src/index.ts:182-204 | the five passes in their order, with the number of replacements of each kind added to its count |
| PiiMask.ReinforceCard | packages/pii-mask/src/index.ts:119-141 | the counts of marks move exactly as the marks in the text do |
| PiiMask.ReplaceChunk | packages/pii-mask/src/index.ts:120-131 | one chunk with a digit becomes one card mark, and the counts of the marks it swallows are taken back |
| PiiMask.FivePassesCount | packages/pii-mask/src/index.ts:182-204 | after the five passes the text holds one mark per counted resident number and card, and later passes neither make nor swallow marks |
| PiiMask.ReinforcedIsClean | packages/pii-mask/src/index.ts:119-141 | whatever text comes in, after the reinforcement no digit touches a mark and no 14 digits stand in a row |
| PiiMask.ChunksKeepApart | packages/pii-mask/src/index.ts:110-131 | from any position where a search may begin, replacing chunks leaves no digit next to a mark |
| PiiMask.LongPassCleans | packages/pii-mask/src/index.ts:132-135 | replacing runs of 14 digits and more leaves none and brings no digit to a mark |
| PiiMask.SpelledIsClean | packages/pii-mask/src/index.ts:144-146 | spelling marks out creates no long run of digits |
| ChunkFacts.ChunkSettles | packages/pii-mask/src/index.ts:110 | a chunk begins after no digit and is maximal: neither a digit nor another mark follows it |
| ChunkFacts.MarkIsCovered | packages/pii-mask/src/index.ts:110 | no mark is passed over: a chunk starts at it or at the digits right before it |
| ChunkFacts.LongIsWholeRun | packages/pii-mask/src/index.ts:112 | the long-run expression matches exactly at the starts of runs of 14 digits or more, and takes whole runs |
| Regex.SpansOnly | packages/pii-mask/src/index.ts:85-113 | a replacement only goes through characters that the classes of its expression allow |
| Stash.DecodedEncoded | packages/pii-mask/src/index.ts:324-338 | decoding inverts encoding for every natural number |
| Stash.EncodeIndex | packages/pii-mask/src/index.ts:324-332 | the loop writes the base-256 digits, most significant first |
| Stash.DecodeIndex | packages/pii-mask/src/index.ts:334-338 | the loop reads every encoded number back |
| Stash.SealedSplit | packages/pii-mask/src/index.ts:352-356 | a text of placeholders and characters that no placeholder is made of can be cut before any such character without breaking a placeholder |
| Stash.HoleComesBack | packages/pii-mask/src/index.ts:383 | what a placeholder names stands, whole, in the restored text |
| SelectiveMask.NoKindsIsIdentity | packages/pii-mask/src/index.ts:341-385 | with no kinds chosen, text without private characters comes back unchanged: placeholders are never matched by later passes and never nest |
| SelectiveMask.AllKindsIsDefault | packages/pii-mask/src/index.ts:341-385 | with all kinds chosen the selective path gives the text of the default path |
| SelectiveMask.SelectionDoes | packages/pii-mask/src/index.ts:341-385 | every match of a chosen kind, none left out, is replaced as in the default path and every match of another kind set aside, each kind in the text that the one before has left; then come the reinforcement, if cards are chosen, the spelling of marks and the filling in |
| SelectiveMask.MaskSelective | packages/pii-mask/src/index.ts:341-385 | the chosen kinds are hidden so, and the phone, account and e-mail counts are the numbers of matches replaced; no result exactly on non-empty text with private characters; for every set of kinds the result holds every match set aside, whole, the card and resident-number counts are the numbers of marks in the text before spelling, and the count of a kind not chosen is 0; with no kinds the text itself, with all kinds the default text |
| SelectiveMask.NothingHeldIsLost | packages/pii-mask/src/index.ts:341-385 | for every set of kinds the result is the masked text with its placeholders filled in, that text is made of placeholders and other characters only, and each match of a kind not chosen stands in the result, whole |
| SelectiveMask.UnchosenStepHolds | packages/pii-mask/src/index.ts:352-378 | the step of a kind not chosen leaves the text, read with placeholders filled in, as it was |
| SelectiveMask.ChosenStepPuts | packages/pii-mask/src/index.ts:352-378 | the step of a chosen kind is the pass of the default path and sets nothing aside |
| SelectiveMask.FiveStepsCount | packages/pii-mask/src/index.ts:341-380 | for every set of kinds the text holds one mark per counted resident number and card after the five steps |
| SelectiveMask.LastPassesAccount | packages/pii-mask/src/index.ts:380-383 | the card reinforcement and the spelling of marks break and lose no placeholder |
| Filling.FilledIsRestored | packages/pii-mask/src/index.ts:383 | on every text the final replacement reads placeholders from left to right and fills each from the stash |
| HeldPasses.PassReads | packages/pii-mask/src/index.ts:352-378 | one pass, whatever it decides for each match: it sets the held matches aside in order, each behind one new placeholder, and its text, placeholders filled in, is the text before with the replaced matches replaced and everything else verbatim |
| HeldPasses.Vault.ReplaceMatches | packages/pii-mask/src/index.ts:352-378 | a replacement whose callback pushes to the stash: new text, stash and number of replacements |
| DegradeMeaning.DegradeForProfile | packages/shared-types/src/rich-degrade.ts:413-424 | the loop over outputs with its report returns what the outputs become, one after another, and reports exactly the changes that happen, each once |
| DegradeMeaning.OneMeans | packages/shared-types/src/rich-degrade.ts:85-406 | what an output becomes: a carousel keeps its heading and its first cards, or comes to its heading and all its cards, or to a text of both with numbers, previews and usable buttons; buttons keep, in order, the first ones whose action the channel knows; a card keeps its texts, an image it cannot show told in words; texts over a limit lose their end; and the other forms say what they were |
| DegradeMeaning.ReportedHappens | packages/shared-types/src/rich-degrade.ts:67-424 | a change is reported if and only if it happens to the output it names: what was cut, dropped, turned into another form or into words, and why |
| Degrade.Report.Push | packages/shared-types/src/rich-degrade.ts:67-72 | a change is reported once, and the set of seen keys stays that of the reported changes |
| DegradeFacts.ResultConforms | packages/shared-types/src/rich-degrade.ts:80-424 | for every well-formed profile and any outputs the result has supported types only, within all card, button, label and text limits |
| DegradeFacts.ConformingIsKept | packages/shared-types/src/rich-degrade.ts:376-424 | conforming outputs come back untouched with nothing reported, for every profile |
| DegradeFacts.DegradingTwice | packages/shared-types/src/rich-degrade.ts:413-424 | degrading is idempotent, and the second time reports nothing |
| DegradeFacts.ReportedIffChanged | packages/shared-types/src/rich-degrade.ts:413-424 | no change is reported if and only if the outputs are unchanged |
| DegradeFacts.WebIsIdentity | packages/shared-types/src/channel.ts:110-120 | the web profile leaves every list of valid displayable outputs as it is, with nothing reported |
| DegradeFacts.ProfilesAreWellFormed | packages/shared-types/src/channel.ts:110-171 | the profiles of the repository satisfy the premises |
| DegradeFacts.OneSilent | packages/shared-types/src/rich-degrade.ts:376-406 | an output for which nothing is reported is returned as it was |
| DegradeValidity.ResultIsValid | packages/shared-types/src/rich-degrade.ts:408-424 | valid outputs stay within the limits of the output schema on every channel whose description limit does not exceed the schema's |
| DegradeValidity.QuickReplyTextValid | packages/shared-types/src/rich-degrade.ts:257-291 | quick replies turned into text fit the text limit of the schema |
| WallClock.ZonedLocalToInstant | packages/shared-types/src/deploy-schedule.ts:526-546 | the answer names, in order, instants that show the wall time, taken from the two offsets at the ends of the window; it names all of them if and only if no such instant has a third offset |
| WallClock.OneTransitionIsCalm | packages/shared-types/src/deploy-schedule.ts:526-546 | at most one transition within a day on either side is enough for that |
| WallClock.ExactIff | packages/shared-types/src/deploy-schedule.ts:526-546 | for every zone and wall time the answer is exact if and only if every instant that shows the wall time has one of the two offsets |
| WallClock.SecondTransitionIsMissed | packages/shared-types/src/deploy-schedule.ts:531-541 | in a made-up zone with two changes in six hours the answer is a single instant although two show the wall time |
| SpeechChunks.SplitForSpeech | packages/shared-types/src/speech-voice.ts:115-139 | the loops compute the chunks of the sentences of the text, for every limit argument |
| SpeechChunks.SplitLong | packages/shared-types/src/speech-voice.ts:92-109 | the cutting loop ends and cuts at the last soft break within the limit, or at the limit |
| SpeechChunks.CutIsAtBreak | packages/shared-types/src/speech-voice.ts:92-109 | a long piece is cut after its last soft break within the limit, and at the limit only where there is none |
| SpeechChunks.NothingIsLost | packages/shared-types/src/speech-voice.ts:92-139 | white space aside, the chunks hold every character of the text once and in order |
| SpeechChunks.EveryChunkIsReadable | packages/shared-types/src/speech-voice.ts:92-139 | every chunk is non-empty, trimmed, within the limit, without a line break, and has no sentence end before its last character |
| EditDistance.Levenshtein | apps/ml-worker/eval/stt_candidates.py:39-46 | the two-row programme computes the recursive distance |
| EditDistance.ScriptExists | apps/ml-worker/eval/stt_candidates.py:39-46 | some script of that many insertions, deletions and substitutions turns one text into the other |
| EditDistance.NoShorterScript | apps/ml-worker/eval/stt_candidates.py:39-46 | no shorter script does |
| EditDistance.Triangle | apps/ml-worker/eval/stt_candidates.py:39-46 | the triangle inequality |
| EditDistance.Symmetric | apps/ml-worker/eval/stt_candidates.py:39-46 | the distance is symmetric |
| EditDistance.ZeroIffEqual | apps/ml-worker/eval/stt_candidates.py:39-46 | the distance is 0 if and only if the texts are equal |

## Left out

- Trace messages, except the code for the hop limit: each is settled by reading one branch.
- Unicode: a string is a sequence of characters, so code points and UTF-16 units are not told apart; NFKC and letter
  classes are inside `Lib.normalize` and the birth-date context of account numbers, which is a parameter.
- Echoed fields of a resolution that nothing reads again (the input, its normal form, the homonym's details, the step
  report of a resumed call).
- JSON reading, `normalizeApiValue`, `{api.*}` rendering, user-supplied slot expressions, calendar and phone formats of
  slots: functions of `Lib`.
- `seenCycleKeys` holds node sets where the source holds sorted, joined ids; the sorted-id text itself is not modelled.
- `decodeURIComponent`, `Intl` offsets, the clock: parameters.
- `String.prototype.replace` itself: a definition over matches (`Regex.ReplaceAll`), except where the source runs its
  own loop or its callback updates state.
- The running time of the e-mail scan, which is what it was written for; the model shows that it finds the same.
- DegradeFacts.ResultConforms: says nothing about profiles outside the premises (text limits of 0, button actions
  missing where buttons are shown); no profile of the repository is one.
- SpeechChunks.SplitForSpeech: does not model limits that are not whole numbers, which the source floors.
- WallClock.ZonedLocalToInstant: starts from the wall time already read as UTC; reading the date and time texts is not
  modelled.
- The checks of `design-validator.ts` other than move cycles and references: each reads one field.
- `mergeOverlay`, `judgeBand`, `evaluateProactiveGate`, `accumulateDwell`, `suggestSimilarFaqs`, `npsOf`, `averageOf`,
  voice selection: correct but easy.
- The console, the widget, the HTTP services, the database, seeds and tests.
