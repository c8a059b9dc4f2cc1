/** The survey editor (`src/Pages/CreateSurvey.js`): ten questions of four options
    each, edited one at a time behind a Next/Previous cursor, then trimmed,
    checked in order and submitted on behalf of the logged-in vendor. */
module CreateSurvey {
  import opened Wrappers
  import opened Text

  const QuestionCount: nat := 10
  const OptionCount: nat := 4

  datatype Question = Question(id: int, question: string, options: seq<string>)

  /** The question the form starts with in slot `i`. */
  function BlankQuestion(i: nat): Question {
    Question(i + 1, "", ["", "", "", ""])
  }

  /** The editor's questions: `QuestionCount` slots, numbered from 1, each with
      `OptionCount` options. */
  predicate WellShaped(qs: seq<Question>) {
    && |qs| == QuestionCount
    && forall i :: 0 <= i < |qs| ==> qs[i].id == i + 1 && |qs[i].options| == OptionCount
  }

  /** The initial (and reset) question set: ten blank questions with ids 1..10 and
      four empty options each. */
  function InitialQuestions(): (r: seq<Question>)
    ensures WellShaped(r)
    ensures forall i :: 0 <= i < |r| ==> r[i].question == "" && forall k :: 0 <= k < |r[i].options| ==> r[i].options[k] == ""
  {
    seq(QuestionCount, i requires 0 <= i => BlankQuestion(i))
  }

  datatype Editor = Editor(questions: seq<Question>, index: nat)

  function InitialEditor(): Editor {
    Editor(InitialQuestions(), 0)
  }

  /** The cursor points at an existing question. */
  predicate InRange(e: Editor) {
    e.index < |e.questions|
  }

  // ------------------------------------------------------------------ editing

  /** `handleQuestionChange(i, v)`: question `i`'s text becomes `v`; nothing else changes. */
  function QuestionChange(qs: seq<Question>, i: nat, v: string): (r: seq<Question>)
    requires i < |qs|
    ensures |r| == |qs|
    ensures r[i].question == v && r[i].id == qs[i].id && r[i].options == qs[i].options
    ensures forall k :: 0 <= k < |qs| && k != i ==> r[k] == qs[k]
    ensures WellShaped(qs) ==> WellShaped(r)
  {
    qs[i := qs[i].(question := v)]
  }

  /** `handleOptionChange(i, j, v)`: option `j` of question `i` becomes `v`; every
      other option and every other question is unchanged. */
  function OptionChange(qs: seq<Question>, i: nat, j: nat, v: string): (r: seq<Question>)
    requires i < |qs| && j < |qs[i].options|
    ensures |r| == |qs|
    ensures r[i].id == qs[i].id && r[i].question == qs[i].question
    ensures |r[i].options| == |qs[i].options| && r[i].options[j] == v
    ensures forall m :: 0 <= m < |qs[i].options| && m != j ==> r[i].options[m] == qs[i].options[m]
    ensures forall k :: 0 <= k < |qs| && k != i ==> r[k] == qs[k]
    ensures WellShaped(qs) ==> WellShaped(r)
  {
    qs[i := qs[i].(options := qs[i].options[j := v])]
  }

  /** Typing into the visible question: the cursor stays where it is. */
  function EditQuestion(e: Editor, v: string): (r: Editor)
    requires InRange(e)
    ensures InRange(r) && r.index == e.index
    ensures r.questions == QuestionChange(e.questions, e.index, v)
  {
    e.(questions := QuestionChange(e.questions, e.index, v))
  }

  /** Typing into option `j` of the visible question. */
  function EditOption(e: Editor, j: nat, v: string): (r: Editor)
    requires InRange(e) && j < |e.questions[e.index].options|
    ensures InRange(r) && r.index == e.index
    ensures r.questions == OptionChange(e.questions, e.index, j, v)
  {
    e.(questions := OptionChange(e.questions, e.index, j, v))
  }

  // --------------------------------------------------------------- navigation

  /** The Next button is rendered (instead of Submit) before the last question. */
  predicate NextOffered(e: Editor) {
    e.index < |e.questions| - 1
  }

  /** The Previous button is rendered only past the first question. */
  predicate PrevOffered(e: Editor) {
    e.index > 0
  }

  /** `handleNext`: advance unless already at the last question. */
  function Next(e: Editor): (r: Editor)
    ensures r.questions == e.questions
    ensures NextOffered(e) ==> r.index == e.index + 1
    ensures !NextOffered(e) ==> r == e
    ensures InRange(e) ==> InRange(r)
  {
    if e.index < |e.questions| - 1 then e.(index := e.index + 1) else e
  }

  /** The Previous button's handler; it can only be clicked where it is rendered. */
  function Previous(e: Editor): (r: Editor)
    requires PrevOffered(e)
    ensures r.questions == e.questions && r.index + 1 == e.index
    ensures InRange(e) ==> InRange(r)
  {
    e.(index := e.index - 1)
  }

  /** Any sequence of edits and button presses from the initial state keeps the
      cursor on one of the ten questions and the question set well shaped. */
  datatype Action = TypeQuestion(text: string) | TypeOption(slot: nat, text: string) | PressNext | PressPrevious

  function Perform(e: Editor, a: Action): (r: Editor)
    requires InRange(e)
    ensures InRange(r)
    ensures WellShaped(e.questions) ==> WellShaped(r.questions)
  {
    match a
    case TypeQuestion(v) => EditQuestion(e, v)
    case TypeOption(j, v) => if j < |e.questions[e.index].options| then EditOption(e, j, v) else e
    case PressNext => Next(e)
    case PressPrevious => if PrevOffered(e) then Previous(e) else e
  }

  function Run(e: Editor, actions: seq<Action>): Editor
    requires InRange(e)
    decreases |actions|
  {
    if |actions| == 0 then e else Run(Perform(e, actions[0]), actions[1..])
  }

  lemma {:induction false} RunStaysInRange(e: Editor, actions: seq<Action>)
    requires InRange(e) && WellShaped(e.questions)
    ensures WellShaped(Run(e, actions).questions)
    ensures Run(e, actions).index < QuestionCount
    decreases |actions|
  {
    if |actions| > 0 {
      RunStaysInRange(Perform(e, actions[0]), actions[1..]);
    }
  }

  // --------------------------------------------------------------- formatting

  /** The shape the request expects: `questionText` and `options`, both trimmed. */
  datatype Formatted = Formatted(questionText: string, options: seq<string>)

  function FormatQuestion(q: Question): (r: Formatted)
    ensures r.questionText == Trim(q.question)
    ensures |r.options| == |q.options| && forall k :: 0 <= k < |q.options| ==> r.options[k] == Trim(q.options[k])
  {
    Formatted(Trim(q.question), seq(|q.options|, k requires 0 <= k < |q.options| => Trim(q.options[k])))
  }

  /** `questions.map(...)`: one formatted entry per question, in order. */
  function Format(qs: seq<Question>): (r: seq<Formatted>)
    ensures |r| == |qs|
    ensures forall i :: 0 <= i < |qs| ==> r[i] == FormatQuestion(qs[i])
  {
    seq(|qs|, i requires 0 <= i < |qs| => FormatQuestion(qs[i]))
  }

  /** A formatted question with a text and every option filled. */
  predicate Complete(f: Formatted) {
    f.questionText != "" && forall k :: 0 <= k < |f.options| ==> f.options[k] != ""
  }

  /** A formatted question is complete exactly when its text and each option in the
      editor hold something other than white space. */
  lemma CompleteMeansNotBlank(q: Question)
    ensures Complete(FormatQuestion(q)) <==>
      !AllSpace(q.question) && forall k :: 0 <= k < |q.options| ==> !AllSpace(q.options[k])
  {
    TrimSpec(q.question);
    forall k | 0 <= k < |q.options| {
      TrimSpec(q.options[k]);
    }
  }

  // --------------------------------------------------------------- validation

  const VendorMissingMessage: string := "Vendor ID not found. Please login again."
  const QuestionTextMessage: string := "Please fill out all question texts."
  const OptionsMessage: string := "Please fill out all options for each question."

  /** The position of the first incomplete question, scanning in order. */
  function FirstIncomplete(fs: seq<Formatted>): (r: Option<nat>)
    ensures r.None? <==> forall i :: 0 <= i < |fs| ==> Complete(fs[i])
    ensures r.Some? ==> r.value < |fs| && !Complete(fs[r.value])
    ensures r.Some? ==> forall i :: 0 <= i < r.value ==> Complete(fs[i])
  {
    if |fs| == 0 then None
    else if !Complete(fs[0]) then Some(0)
    else
      match FirstIncomplete(fs[1..])
      case None => None
      case Some(i) => Some(i + 1)
  }

  /** The validation loop: the first incomplete question stops it, reporting a
      missing text before a missing option. */
  function Validate(fs: seq<Formatted>): (r: Option<string>)
    ensures r.None? <==> forall i :: 0 <= i < |fs| ==> Complete(fs[i])
    ensures r.Some? ==> exists i :: (0 <= i < |fs| && !Complete(fs[i])
      && (forall j :: 0 <= j < i ==> Complete(fs[j]))
      && r.value == (if fs[i].questionText == "" then QuestionTextMessage else OptionsMessage))
  {
    match FirstIncomplete(fs)
    case None => None
    case Some(i) => Some(if fs[i].questionText == "" then QuestionTextMessage else OptionsMessage)
  }

  datatype SubmitStep =
    | SubmitRefused(message: string)                              // shown as the error
    | PostSurvey(vendorId: string, questions: seq<Formatted>)    // the create-survey request

  /** `handleSubmit`: `vendorId` is what local storage holds (`None` for `null`). */
  function HandleSubmit(e: Editor, vendorId: Option<string>): (r: SubmitStep)
    ensures r.PostSurvey? <==>
      vendorId.Some? && vendorId.value != "" && forall i :: 0 <= i < |e.questions| ==> Complete(FormatQuestion(e.questions[i]))
    ensures (vendorId.None? || vendorId.value == "") ==> r == SubmitRefused(VendorMissingMessage)
    ensures r.PostSurvey? ==> r.vendorId == vendorId.value && r.questions == Format(e.questions)
    ensures r.SubmitRefused? && vendorId.Some? && vendorId.value != "" ==>
      r.message in {QuestionTextMessage, OptionsMessage}
    ensures r.SubmitRefused? && vendorId.Some? && vendorId.value != "" ==>
      Validate(Format(e.questions)) == Some(r.message)
  {
    if vendorId.None? || vendorId.value == "" then SubmitRefused(VendorMissingMessage)
    else
      var fs := Format(e.questions);
      match Validate(fs)
      case Some(message) => SubmitRefused(message)
      case None => PostSurvey(vendorId.value, fs)
  }

  /** The server's reply: on success the form is reset to the initial questions with
      the cursor on the first; on failure everything is kept. */
  function AfterReply(e: Editor, success: bool): (r: Editor)
    ensures success ==> r.index == 0 && r.questions == InitialQuestions()
    ensures !success ==> r == e
  {
    if success then InitialEditor() else e
  }

  /** Submitting straight after a successful reset is refused for the first
      question's missing text. */
  lemma ResetFormIsRefused(e: Editor, vendorId: string)
    requires vendorId != ""
    ensures HandleSubmit(AfterReply(e, true), Some(vendorId)) == SubmitRefused(QuestionTextMessage)
  {
    var qs := InitialQuestions();
    var fs := Format(qs);
    assert Trim("") == "";
    assert fs[0].questionText == "";
    assert FirstIncomplete(fs) == Some(0);
  }
}
