/** The entities of a chatbot bundle and of the conversation state the client carries between turns. */
module Dialogue {
  import opened Prelude

  type Id = string
  /** Milliseconds since the epoch. */
  type Time = int

  // ---------------------------------------------------------------- outputs

  datatype Action = MESSAGE | LINK | NODE

  datatype Button = Button(caption: string, action: Action, value: string)

  datatype Card = Card(title: string, description: Option<string>, imageUrl: Option<string>, altText: Option<string>,
                       buttons: Option<seq<Button>>)

  datatype Binding = ConstValue(value: string) | SlotValue(contextVariableId: Id, slotName: string)

  datatype BoundValue = BoundValue(value: string, fromSlot: bool)

  datatype NamedBinding = NamedBinding(name: string, value: Binding)

  datatype ApiCase = ApiCase(path: string, operator: string, value: string, nextNodeId: Id)

  datatype Mapping = Mapping(name: string, path: string, required: bool, maxLength: nat)

  datatype ApiPayload = ApiPayload(connectionId: Id, verb: string, path: string, pathParams: seq<Binding>,
                                   query: seq<NamedBinding>, body: seq<NamedBinding>, mappings: seq<Mapping>,
                                   conditions: seq<ApiCase>, defaultNodeId: Option<Id>, failureNodeId: Option<Id>)

  datatype WorkflowPayload = WorkflowPayload(targetId: Id, actionKey: string, fields: seq<NamedBinding>)

  /** `SurveyV1` and `ApiV1` are the legacy payload shapes, which are read but never run. */
  datatype Output =
    | Text(text: string)
    | CardOut(card: Card)
    | Image(imageUrl: string, altText: string)
    | Buttons(prompt: Option<string>, buttons: seq<Button>, quickReply: bool)
    | Link(caption: string, url: string, newTab: bool)
    | Pause(durationMs: int)
    | PhoneCall(caption: string, phoneNumber: string)
    | Carousel(heading: Option<string>, cards: seq<Card>)
    | ContextForm(contextVariableId: Id)
    | DialogMove(targetNodeId: Id)
    | Scenario(scenarioKey: string)
    | SurveyV1(surveyKey: string)
    | SurveyV2(surveyId: Id, onCompleteNodeId: Option<Id>)
    | ApiV1(legacy: seq<ApiCase>)
    | ApiV2(api: ApiPayload)
    | Workflow(workflow: WorkflowPayload)
  {
    /** Types that a channel can show. */
    predicate Displayable() {
      Text? || CardOut? || Image? || Buttons? || Link? || Pause? || PhoneCall? || Carousel?
    }
  }

  predicate AllDisplayable(outputs: seq<Output>) {
    forall i :: 0 <= i < |outputs| ==> outputs[i].Displayable()
  }

  datatype OutputType = SCENARIO | SURVEY | API_CONDITION

  // ---------------------------------------------------------------- design assets

  datatype NodeKind = START | NORMAL | FALLBACK

  datatype Node = Node(id: Id, name: string, kind: NodeKind, enabled: bool, priority: int, intentIds: seq<Id>,
                       keywordIds: seq<Id>, contextVariableId: Option<Id>, matchAll: bool, updatedAt: Time,
                       outputs: seq<Output>)

  datatype SlotType = TEXT | NUMBER | DATE | PHONE | EMAIL | CHOICE | KEYWORD

  datatype FormSlot = FormSlot(name: string, prompt: string, kind: SlotType, required: bool, choices: seq<string>,
                               keywordId: Option<Id>, errorPrompt: Option<string>, maxRetry: nat,
                               exampleValue: Option<string>)

  datatype Form = Form(id: Id, slots: seq<FormSlot>, completionMessage: Option<string>, cancelKeywords: seq<string>,
                       sessionTimeoutMinutes: int)

  datatype Keyword = Keyword(id: Id, name: string, synonyms: seq<string>)

  datatype Intent = Intent(id: Id, examples: seq<string>)

  datatype HomonymPolicy = ASK | DEFAULT_MEANING | IGNORE

  datatype Meaning = Meaning(caption: string, hints: seq<string>, intentId: Option<Id>)

  datatype Homonym = Homonym(id: Id, word: string, meanings: seq<Meaning>, policy: HomonymPolicy,
                             clarifyPrompt: Option<string>, defaultMeaning: Option<nat>)

  datatype Faq = Faq(id: Id, errorResponse: bool, enabled: bool, question: string, altQuestions: seq<string>,
                     answer: string, createdAt: Time)

  datatype SurveyStatus = DRAFT | OPEN | CLOSED

  datatype ScaleKind = STAR_5 | NPS_11

  datatype Choice = Choice(key: Id, caption: string)

  datatype Question =
    | SingleChoice(key: Id, prompt: string, required: bool, choices: seq<Choice>)
    | MultiChoice(key: Id, prompt: string, required: bool, choices: seq<Choice>, minSelect: nat, maxSelect: nat)
    | Scale(key: Id, prompt: string, required: bool, scale: ScaleKind, lowLabel: Option<string>, highLabel: Option<string>)
    | FreeText(key: Id, prompt: string, required: bool, maxLength: nat)

  datatype Survey = Survey(id: Id, status: SurveyStatus, activeFrom: Option<Time>, activeTo: Option<Time>,
                           introMessage: Option<string>, completionMessage: string, cancelKeywords: seq<string>,
                           sessionTimeoutMinutes: int, questions: seq<Question>, structureVersion: nat)

  datatype Bundle = Bundle(intents: seq<Intent>, keywords: seq<Keyword>, homonyms: seq<Homonym>, nodes: seq<Node>,
                           contexts: seq<Form>, faqs: seq<Faq>, surveys: seq<Survey>)

  // ---------------------------------------------------------------- conversation state

  datatype FormStatus = IN_PROGRESS | COMPLETED | CANCELLED | EXPIRED

  datatype FormSession = FormSession(contextVariableId: Id, currentSlotIndex: nat, filledValues: map<string, string>,
                                     retryCount: nat, startedAt: Time, lastInteractedAt: Time, status: FormStatus)

  datatype SurveySession = SurveySession(surveyId: Id, structureVersion: nat, nodeId: Option<Id>, outputIndex: int,
                                         questionIndex: nat, retryCount: nat, startedAt: Time, lastInteractedAt: Time)

  datatype PendingClarify = PendingClarify(homonymId: Id, word: string, askedAt: Time)

  /** One run of one survey by one user. */
  datatype Attempt = Attempt(surveyId: Id, structureVersion: nat, startedAt: Time)

  datatype AnswerValue = ChoiceAnswer(choiceKeys: seq<Id>) | ScaleAnswer(score: int) | TextAnswer(text: string)

  datatype EndReason = UserCancelled | RetryExceeded | Switched | TimedOut | DefinitionChanged | SurveyClosed

  datatype SurveyEvent =
    | Exposed(attempt: Attempt, nodeId: Option<Id>)
    | Answered(attempt: Attempt, questionKey: Id, questionIndex: nat, value: AnswerValue)
    | Skipped(attempt: Attempt, questionKey: Id, questionIndex: nat)
    | Completed(attempt: Attempt)
    | Abandoned(attempt: Attempt, reason: EndReason)

  datatype CompletedForm = CompletedForm(contextVariableId: Id, values: map<string, string>)

  // ---------------------------------------------------------------- code outside the model

  datatype Extracted = Missing | NonScalar | Scalar(text: string)

  datatype Json = Json(source: string)

  /** The library code the engine calls and this model does not open: Unicode normalisation, word search, the output
      schema, `{api.*}` rendering, the built-in slot formats, and the JSON reader. */
  datatype Lib = Lib(
    normalize: string -> string,
    containsWord: (string, string) -> bool,
    isUuid: string -> bool,
    valid: Output -> bool,
    render: (string, map<string, string>) -> string,
    completionText: (string, map<string, string>) -> string,
    slotFormat: (FormSlot, string) -> Option<string>,
    serializedSize: FormSession -> nat,
    extract: (Json, Mapping) -> Extracted,
    holds: (Json, ApiCase) -> bool)

  // ---------------------------------------------------------------- lookups

  ghost predicate UniqueIds(nodes: seq<Node>)
  {
    forall i, j :: 0 <= i < j < |nodes| ==> nodes[i].id != nodes[j].id
  }

  function FindNode(nodes: seq<Node>, id: Id): (r: Option<Node>)
    ensures r.Some? ==> r.value in nodes && r.value.id == id
    ensures r.None? ==> forall n :: n in nodes ==> n.id != id
  {
    if nodes == [] then None else if nodes[0].id == id then Some(nodes[0]) else FindNode(nodes[1..], id)
  }

  /** The node a move may land on: the first one with this id that is enabled. */
  function FindEnabled(nodes: seq<Node>, id: Id): (r: Option<Node>)
    ensures r.Some? ==> r.value in nodes && r.value.id == id && r.value.enabled
    ensures r.None? ==> forall n :: n in nodes && n.enabled ==> n.id != id
  {
    if nodes == [] then None
    else if nodes[0].id == id && nodes[0].enabled then Some(nodes[0])
    else FindEnabled(nodes[1..], id)
  }

  function FindForm(forms: seq<Form>, id: Id): (r: Option<Form>)
    ensures r.Some? ==> r.value in forms && r.value.id == id
    ensures r.None? ==> forall f :: f in forms ==> f.id != id
  {
    if forms == [] then None else if forms[0].id == id then Some(forms[0]) else FindForm(forms[1..], id)
  }

  function FindSurvey(surveys: seq<Survey>, id: Id): (r: Option<Survey>)
    ensures r.Some? ==> r.value in surveys && r.value.id == id
    ensures r.None? ==> forall s :: s in surveys ==> s.id != id
  {
    if surveys == [] then None else if surveys[0].id == id then Some(surveys[0]) else FindSurvey(surveys[1..], id)
  }

  function FindKeyword(keywords: seq<Keyword>, id: Id): (r: Option<Keyword>)
    ensures r.Some? ==> r.value in keywords && r.value.id == id
  {
    if keywords == [] then None else if keywords[0].id == id then Some(keywords[0]) else FindKeyword(keywords[1..], id)
  }

  function FindHomonym(homonyms: seq<Homonym>, id: Id): (r: Option<Homonym>)
    ensures r.Some? ==> r.value in homonyms && r.value.id == id
    ensures r.None? ==> forall h :: h in homonyms ==> h.id != id
  {
    if homonyms == [] then None else if homonyms[0].id == id then Some(homonyms[0]) else FindHomonym(homonyms[1..], id)
  }
}
