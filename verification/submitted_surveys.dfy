/** The submitted-surveys table (`src/Pages/SubmittedSurveys.js`): the first survey's
    responses, one row per response, with a user label, a short question id, and one
    answer cell per question. */
module SubmittedSurveys {
  import opened Wrappers
  import opened Seqs
  import opened Text

  /** One answer; `_id` may be absent and `selectedOptionIndex` may be `undefined`. */
  datatype Answer = Answer(answerId: Option<string>, questionIndex: int, selectedOptionIndex: Option<int>)

  datatype Response = Response(userId: string, answers: seq<Answer>)

  /** A question as the server sends it; `options` may be absent. */
  datatype SurveyQuestion = SurveyQuestion(options: Option<seq<string>>)

  /** A survey; `questions` and `responses` may be absent (`|| []`). */
  datatype Survey = Survey(questions: Option<seq<SurveyQuestion>>, responses: Option<seq<Response>>)

  // ------------------------------------------------------------------ users

  /** The response authors: `[...new Set(responses.map(r => r.userId))]`. */
  function UserIds(responses: seq<Response>): (r: seq<string>)
    ensures NoDuplicates(r)
    ensures forall k :: 0 <= k < |responses| ==> responses[k].userId in r
    ensures forall k :: 0 <= k < |r| ==> exists j :: 0 <= j < |responses| && responses[j].userId == r[k]
  {
    var ids := seq(|responses|, k requires 0 <= k < |responses| => responses[k].userId);
    assert forall k :: 0 <= k < |responses| ==> ids[k] == responses[k].userId;
    Distinct(ids)
  }

  /** `fetchUsers`: every id is labelled "User " followed by its last four characters. */
  function FetchUsers(ids: seq<string>): (r: map<string, string>)
    ensures forall id :: id in r <==> id in ids
  {
    map id | id in ids :: "User " + TakeLast(id, 4)
  }

  /** The user cell: the label when there is a non-empty one, else the raw id. */
  function UserLabel(users: map<string, string>, userId: string): string {
    if userId in users && users[userId] != "" then users[userId] else userId
  }

  /** Every response's user cell shows "User " and the last four characters of its id. */
  lemma EveryUserLabelled(responses: seq<Response>, k: nat)
    requires k < |responses|
    ensures var id := responses[k].userId;
      UserLabel(FetchUsers(UserIds(responses)), id) == "User " + TakeLast(id, 4)
  {
    var users := FetchUsers(UserIds(responses));
    assert responses[k].userId in users;
    assert users[responses[k].userId] == "User " + TakeLast(responses[k].userId, 4);
  }

  // ---------------------------------------------------------------- answers

  /** The position of the last answer to question `q`, if any. */
  function LastAnswer(answers: seq<Answer>, q: int): (r: Option<nat>)
    ensures r.None? <==> forall k :: 0 <= k < |answers| ==> answers[k].questionIndex != q
    ensures r.Some? ==> r.value < |answers| && answers[r.value].questionIndex == q
    ensures r.Some? ==> forall m :: r.value < m < |answers| ==> answers[m].questionIndex != q
    decreases |answers|
  {
    if |answers| == 0 then None
    else if answers[|answers| - 1].questionIndex == q then Some(|answers| - 1)
    else LastAnswer(answers[..|answers| - 1], q)
  }

  /** `answersMap`, built by a left-to-right `forEach`, so a later answer to the same
      question overwrites an earlier one. */
  function AnswersMap(answers: seq<Answer>): (r: map<int, Option<int>>)
    decreases |answers|
  {
    if |answers| == 0 then map[]
    else
      var last := answers[|answers| - 1];
      AnswersMap(answers[..|answers| - 1])[last.questionIndex := last.selectedOptionIndex]
  }

  /** The map holds exactly the answered questions, each with its last answer. */
  lemma {:induction false} AnswersMapLastWins(answers: seq<Answer>, q: int)
    ensures q in AnswersMap(answers) <==> LastAnswer(answers, q).Some?
    ensures q in AnswersMap(answers) ==>
      AnswersMap(answers)[q] == answers[LastAnswer(answers, q).value].selectedOptionIndex
    decreases |answers|
  {
    if |answers| > 0 {
      AnswersMapLastWins(answers[..|answers| - 1], q);
    }
  }

  /** `answersMap[qIdx]`: a missing key reads as `undefined`. */
  function Selected(answersMap: map<int, Option<int>>, q: int): Option<int> {
    if q in answersMap then answersMap[q] else None
  }

  datatype Cell = Shown(text: string) | NotAnswered

  /** An answer cell: the chosen option's text when an index was chosen and the
      question has a non-empty option there; "Not Answered" otherwise. */
  function AnswerCell(question: SurveyQuestion, selected: Option<int>): (r: Cell)
    ensures r.Shown? <==> (selected.Some? && question.options.Some?
      && 0 <= selected.value < |question.options.value| && question.options.value[selected.value] != "")
    ensures r.Shown? ==> r.text == question.options.value[selected.value]
  {
    if selected.Some? && question.options.Some? && 0 <= selected.value < |question.options.value|
      && question.options.value[selected.value] != ""
    then Shown(question.options.value[selected.value])
    else NotAnswered
  }

  /** The "Question ID" cell: the last four characters of the first answer's `_id`,
      or "N/A" when there is no answer or that id is missing or empty. */
  function QuestionIdDisplay(answers: seq<Answer>): (r: string)
    ensures |answers| == 0 ==> r == "N/A"
    ensures |answers| > 0 && (answers[0].answerId.None? || answers[0].answerId.value == "") ==> r == "N/A"
    ensures |answers| > 0 && answers[0].answerId.Some? && answers[0].answerId.value != "" ==>
      var id := answers[0].answerId.value;
      |r| == (if |id| < 4 then |id| else 4) && r == id[|id| - |r|..]
  {
    if |answers| > 0 && answers[0].answerId.Some? && answers[0].answerId.value != ""
    then TakeLast(answers[0].answerId.value, 4)
    else "N/A"
  }

  /** The question-id cell is read from the first answer alone. */
  lemma QuestionIdFromFirstAnswer(first: Answer, rest: seq<Answer>, rest2: seq<Answer>)
    ensures QuestionIdDisplay([first] + rest) == QuestionIdDisplay([first] + rest2)
    ensures first.answerId.Some? && |first.answerId.value| >= 4 ==>
      QuestionIdDisplay([first] + rest) == first.answerId.value[|first.answerId.value| - 4..]
  {
  }

  // ------------------------------------------------------------------- rows

  datatype Row = Row(user: string, questionId: string, cells: seq<Cell>)

  /** One table row per response. */
  function ResponseRow(users: map<string, string>, questions: seq<SurveyQuestion>, resp: Response): (r: Row)
    ensures |r.cells| == |questions|
    ensures r.user == UserLabel(users, resp.userId) && r.questionId == QuestionIdDisplay(resp.answers)
  {
    var m := AnswersMap(resp.answers);
    Row(UserLabel(users, resp.userId), QuestionIdDisplay(resp.answers),
        seq(|questions|, i requires 0 <= i < |questions| => AnswerCell(questions[i], Selected(m, i))))
  }

  /** Cell `i` of a response's row shows option text exactly when the response's last
      answer to question `i` chose a non-empty option of that question. */
  lemma CellShowsLastAnswer(users: map<string, string>, questions: seq<SurveyQuestion>, resp: Response, i: nat)
    requires i < |questions|
    ensures var cell := ResponseRow(users, questions, resp).cells[i];
      var last := LastAnswer(resp.answers, i);
      var opts := questions[i].options;
      cell.Shown? <==>
        (last.Some? && resp.answers[last.value].selectedOptionIndex.Some?
         && opts.Some? && 0 <= resp.answers[last.value].selectedOptionIndex.value < |opts.value|
         && opts.value[resp.answers[last.value].selectedOptionIndex.value] != "")
    ensures var cell := ResponseRow(users, questions, resp).cells[i];
      var last := LastAnswer(resp.answers, i);
      cell.Shown? ==> cell.text == questions[i].options.value[resp.answers[last.value].selectedOptionIndex.value]
  {
    AnswersMapLastWins(resp.answers, i);
  }

  // ------------------------------------------------------------------- page

  const VendorMissingMessage: string := "Vendor ID not found in localStorage."
  const NoDataMessage: string := "No survey data found."

  datatype Page =
    | Failed(message: string)                                               // "Error: ..."
    | NoSubmissions                                                         // no responses
    | Table(questionCount: nat, rows: seq<Row>)

  /** The page for a stored `vendorId` and the server's reply `(success, data)`. */
  function Render(vendorId: Option<string>, success: bool, data: seq<Survey>): (r: Page)
    ensures (vendorId.None? || vendorId.value == "") ==> r == Failed(VendorMissingMessage)
    ensures vendorId.Some? && vendorId.value != "" && (!success || |data| == 0) ==> r == Failed(NoDataMessage)
    ensures r.Table? ==> (success && |data| > 0 && data[0].responses.Some?
      && |r.rows| == |data[0].responses.value| > 0
      && r.questionCount == |data[0].questions.GetOr([])|)
    ensures r.Table? ==> forall k :: 0 <= k < |r.rows| ==> |r.rows[k].cells| == r.questionCount
    ensures vendorId.Some? && vendorId.value != "" && success && |data| > 0 ==>
      (r.NoSubmissions? <==> |data[0].responses.GetOr([])| == 0)
      && (r.Table? <==> |data[0].responses.GetOr([])| > 0)
    ensures r.Table? ==>
      var responses := data[0].responses.value;
      forall k :: 0 <= k < |r.rows| ==>
        r.rows[k] == ResponseRow(FetchUsers(UserIds(responses)), data[0].questions.GetOr([]), responses[k])
  {
    if vendorId.None? || vendorId.value == "" then Failed(VendorMissingMessage)
    else if !success || |data| == 0 then Failed(NoDataMessage)
    else
      var survey := data[0];
      var questions := survey.questions.GetOr([]);
      var responses := survey.responses.GetOr([]);
      var users := FetchUsers(UserIds(responses));
      if |responses| == 0 then NoSubmissions
      else Table(|questions|, seq(|responses|, k requires 0 <= k < |responses| => ResponseRow(users, questions, responses[k])))
  }

  /** Only the first survey is shown: surveys after it never affect the page. */
  lemma OnlyFirstSurvey(vendorId: Option<string>, success: bool, first: Survey, rest: seq<Survey>, rest2: seq<Survey>)
    ensures Render(vendorId, success, [first] + rest) == Render(vendorId, success, [first] + rest2)
  {
  }
}
