/** The survey list (`src/Pages/SurveyList.js`): the first survey's questions, each
    with a button that shows or hides its options. */
module SurveyList {
  import opened Wrappers

  datatype Question = Question(questionText: string, options: seq<string>)

  /** A survey as the server sends it; `questions` may be absent. */
  datatype Survey = Survey(questions: Option<seq<Question>>)

  /** `Array(n).fill(false)`: every question starts collapsed. */
  function AllCollapsed(n: nat): (r: seq<bool>)
    ensures |r| == n && forall i :: 0 <= i < n ==> !r[i]
  {
    seq(n, i => false)
  }

  /** `toggleOptions(i)`: entry `i` is negated and every other entry kept. */
  function Toggle(show: seq<bool>, i: nat): (r: seq<bool>)
    requires i < |show|
    ensures |r| == |show| && r[i] == !show[i]
    ensures forall k :: 0 <= k < |show| && k != i ==> r[k] == show[k]
  {
    show[i := !show[i]]
  }

  /** Toggling the same question twice restores the original visibility. */
  lemma ToggleTwice(show: seq<bool>, i: nat)
    requires i < |show|
    ensures Toggle(Toggle(show, i), i) == show
  {
    var t := Toggle(Toggle(show, i), i);
    assert forall k :: 0 <= k < |show| ==> t[k] == show[k];
  }

  /** Toggles of different questions do not interfere. */
  lemma TogglesCommute(show: seq<bool>, i: nat, j: nat)
    requires i < |show| && j < |show|
    ensures Toggle(Toggle(show, i), j) == Toggle(Toggle(show, j), i)
  {
    var a := Toggle(Toggle(show, i), j);
    var b := Toggle(Toggle(show, j), i);
    assert forall k :: 0 <= k < |show| ==> a[k] == b[k];
  }

  /** A run of clicks on the toggle buttons, in order. */
  function ToggleAll(show: seq<bool>, clicks: seq<nat>): (r: seq<bool>)
    requires forall c :: 0 <= c < |clicks| ==> clicks[c] < |show|
    ensures |r| == |show|
    decreases |clicks|
  {
    if |clicks| == 0 then show else ToggleAll(Toggle(show, clicks[0]), clicks[1..])
  }

  /** The number of clicks on question `i`. */
  function Clicks(clicks: seq<nat>, i: nat): nat {
    if |clicks| == 0 then 0 else (if clicks[0] == i then 1 else 0) + Clicks(clicks[1..], i)
  }

  /** A question's visibility flips once per click on it and is untouched by clicks
      on other questions; from the collapsed start, its options are listed exactly
      when it has been clicked an odd number of times. */
  lemma {:induction false} OddClicksShowOptions(show: seq<bool>, clicks: seq<nat>, i: nat)
    requires forall c :: 0 <= c < |clicks| ==> clicks[c] < |show|
    requires i < |show|
    ensures ToggleAll(show, clicks)[i] == (if Clicks(clicks, i) % 2 == 0 then show[i] else !show[i])
    decreases |clicks|
  {
    if |clicks| > 0 {
      OddClicksShowOptions(Toggle(show, clicks[0]), clicks[1..], i);
    }
  }

  const VendorMissingMessage: string := "Vendor ID not found. Please login again."
  const LoadFailedMessage: string := "Failed to load surveys."

  datatype Page =
    | Failed(message: string)
    | NoSurveys                                              // "No surveys available."
    | Questions(questions: seq<Question>, show: seq<bool>)  // the first survey, collapsed

  /** The page after loading, given the stored `vendorId` and the reply `(success, data)`.
      Reading `.length` of a first survey's missing `questions` throws, and the
      `catch` shows the load-failure message. */
  function Load(vendorId: Option<string>, success: bool, data: seq<Survey>): (r: Page)
    ensures (vendorId.None? || vendorId.value == "") <==> r == Failed(VendorMissingMessage)
    ensures r.Failed? <==> (vendorId.None? || vendorId.value == ""
      || (success && |data| > 0 && data[0].questions.None?))
    ensures r.NoSurveys? <==> vendorId.Some? && vendorId.value != "" && (!success || |data| == 0)
    ensures vendorId.Some? && vendorId.value != "" && success && |data| > 0 ==>
      (if data[0].questions.None? then r == Failed(LoadFailedMessage)
       else r == Questions(data[0].questions.value, AllCollapsed(|data[0].questions.value|)))
  {
    if vendorId.None? || vendorId.value == "" then Failed(VendorMissingMessage)
    else if success && |data| > 0 then
      match data[0].questions
      case None => Failed(LoadFailedMessage)
      case Some(questions) => Questions(questions, AllCollapsed(|questions|))
    else NoSurveys
  }

  /** Only the first survey is displayed: whatever follows it never changes the page. */
  lemma OnlyFirstSurvey(vendorId: Option<string>, success: bool, first: Survey, rest: seq<Survey>, rest2: seq<Survey>)
    ensures Load(vendorId, success, [first] + rest) == Load(vendorId, success, [first] + rest2)
  {
  }
}
