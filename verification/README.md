# Vendor dashboard logic in Dafny

This project models the pure logic embedded in the page components of a React
vendor dashboard. It covers:

- the coupon list: search, status and category filters, 5-per-page pagination,
  the pager buttons, CSV export, the edit-dialog check and the status badge;
- the coupon-usage history: four AND-ed filters and its CSV export;
- the login form: email and phone validation, the request body, the mode toggle;
- vendor registration: the address list, the password rules, the order of the
  registration checks, the multipart payload and the OTP length check;
- the survey editor: ten questions of four options, cursor navigation,
  trimming, ordered validation and reset;
- the invoice table: "Pay Now" and marking an invoice paid;
- the submitted-surveys table: distinct users, user labels, the answer map
  where the last answer wins, answer cells and the question-id cell;
- the survey list: its show/hide-options toggles;
- the documents table: the camelCase label transform, the date cell and row
  numbering.

Each handler is a pure function from state to state, or to an outcome
datatype. Server replies, local-storage values and date parsing enter as
parameters.

Shared modules:

- `Wrappers` defines `Option`.
- `Seqs` models `Array.filter`, `[...new Set]`, `join`/`split` and `slice`, with
  subsequence and round-trip lemmas.
- `Text` models ASCII case mapping, the JavaScript white-space set and
  `trim`, `includes` and `slice(-n)`.

JavaScript values are modelled as follows:

- A nullable field is an `Option`.
- String truthiness is "non-empty".
- An `Invalid Date` is `None`, and every comparison with it is false.

Three behaviours of the code are worth stating on their own:

- The page count is `ceil(n / 5)` (src/Pages/CouponPage.js:196), which is 0
  for an empty list; there is no minimum of 1.
- The page number is reset to 1 only by the filter inputs
  (src/Pages/CouponPage.js:303-330); a refetch that shortens the list leaves it
  where it was.
- A date bound compares `new Date(...)` values (src/Pages/CouponHistoryTable.js:168-177).
  A bound that does not parse is an `Invalid Date`, so every row fails that
  comparison; the filter is not switched off.

## Model

| member | source | states |
|---|---|---|
| CouponPage.FilteredCoupons | src/Pages/CouponPage.js:180-194 | a coupon is kept iff the search occurs case-insensitively in its name or code, the status filter is "all" or equal, and the category filter is "all" or equal; the result is drawn from the input and no longer than it |
| CouponPage.FilteredCouponsArePositions | src/Pages/CouponPage.js:180-194 | the filtered list is a subsequence of the coupons, in their order, at exactly the positions of the coupons that pass all three tests |
| CouponPage.EmptySearch | src/Pages/CouponPage.js:182-184 | with an empty search a coupon still needs a name or a coupon code to be shown |
| CouponPage.CategoryOptions | src/Pages/CouponPage.js:334 | the category drop-down lists each coupon category exactly once and nothing else |
| CouponPage.TotalPages | src/Pages/CouponPage.js:196 | the page count is the least number of 5-item pages covering the list, and it is 0 exactly when the list is empty |
| CouponPage.Paginate | src/Pages/CouponPage.js:197-200 | page p is the slice starting at (p-1)*5, at most 5 items, and empty past the end |
| CouponPage.PagesUpToIsPrefix | src/Pages/CouponPage.js:197-200 | pages 1..k together are the first min(5k, n) filtered coupons |
| CouponPage.PagesCoverFiltered | src/Pages/CouponPage.js:196-200 | pages 1..totalPages concatenated give exactly the filtered list |
| CouponPage.Loaded | src/Pages/CouponPage.js:49-60 | a (re)fetch replaces the coupons and keeps the filters and the current page |
| CouponPage.SetSearch | src/Pages/CouponPage.js:298-304 | typing a search sets page 1 and leaves the other filters and the coupons alone, so the first page is shown |
| CouponPage.SetStatusFilter | src/Pages/CouponPage.js:309-314 | choosing a status sets page 1 and leaves the other filters alone |
| CouponPage.SetCategoryFilter | src/Pages/CouponPage.js:326-331 | choosing a category sets page 1 and leaves the other filters alone |
| CouponPage.PagerKeepsPageInRange | src/Pages/CouponPage.js:445-459 | with the corrected Next guard, no run of Previous/Next clicks takes an in-range page out of range |
| CouponPage.FilterChangeThenPagerInRange | src/Pages/CouponPage.js:301-330 | after any filter change, whatever pager clicks follow, the page stays in range, with the corrected guard and (by PagerAsWrittenAgrees) with the guard as written |
| CouponPage.PagerAsWrittenAgrees | src/Pages/CouponPage.js:445-459 | from an in-range page, any run of clicks with the Next guard as written ends where the corrected guard ends |
| CouponPage.ClickPrev | src/Pages/CouponPage.js:447-449 | Previous keeps an in-range page in range |
| CouponPage.ClickNext | src/Pages/CouponPage.js:457-459 | with the corrected guard, Next never moves past the last page |
| CouponPage.NextGuardsAgreeInRange | src/Pages/CouponPage.js:445-459 | while the page is in range and the pager is shown, the guard as written and the corrected guard agree |
| CouponPage.NextEscapesAfterShrinkingRefresh | src/Pages/CouponPage.js:458-459 | with the guard as written, Next can move past the last page once a refresh has shortened the list |
| CouponPage.InitialKeepsNamed | src/Pages/CouponPage.js:180-194 | with the initial filters, any list whose coupons all have a name or a code is kept whole and in order |
| CouponPage.CsvCells | src/Pages/CouponPage.js:214-222 | seven cells, each under its header: name, category, discount, coins, code and status (empty when missing), then the locale-rendered validity date |
| CouponPage.CsvLines | src/Pages/CouponPage.js:224 | one line per filtered coupon, in order, line i being coupon i's cells joined by commas |
| CouponPage.CsvHasOneLinePerCoupon | src/Pages/CouponPage.js:204-224 | when no cell holds a newline, splitting the CSV at newlines gives the header line and then each coupon's line; an empty list gives the header and one empty line |
| CouponPage.CsvLineCells | src/Pages/CouponPage.js:224 | splitting a coupon's line at commas gives back its seven cells when no cell holds a comma |
| CouponPage.UpdateCoupon | src/Pages/CouponPage.js:89-106 | no request without a current coupon id; a request iff name, discount and validity date are all non-empty, carrying that id and the form |
| CouponPage.StatusLabel | src/Pages/CouponPage.js:249 | the badge upper-cases the first letter and keeps the rest; a missing status renders "NaN" |
| CouponPage.StatusLabelRoundTrip | src/Pages/CouponPage.js:249 | lower-casing the badge's first letter gives back a lower-case status |
| CouponHistory.Lookup | src/Pages/CouponHistoryTable.js:158 | a field is found iff the row has that key, and the found value belongs to that key |
| CouponHistory.LookupDistinct | src/Pages/CouponHistoryTable.js:158 | on a row whose keys are distinct, the lookup gives the value of the one field with that key |
| CouponHistory.AllHoldEach | src/Pages/CouponHistoryTable.js:154-180 | the chained criteria hold iff each one holds |
| CouponHistory.StepIsFilter | src/Pages/CouponHistoryTable.js:156-178 | an inactive criterion passes every row, and an active one filters by its test |
| CouponHistory.ApplyInOrderIsConjunction | src/Pages/CouponHistoryTable.js:154-180 | applying criteria one after another is one filter by their conjunction |
| CouponHistory.OrderDoesNotMatter | src/Pages/CouponHistoryTable.js:154-180 | any order that applies all four criteria gives the same rows |
| CouponHistory.FilterHistoryIsSourceOrder | src/Pages/CouponHistoryTable.js:153-181 | the effect applies customer, coupon, from-date and to-date in that order |
| CouponHistory.FilterHistoryIsConjunction | src/Pages/CouponHistoryTable.js:153-181 | the result keeps exactly the rows meeting every active criterion, in order |
| CouponHistory.FilterHistoryKeepsMatchingRows | src/Pages/CouponHistoryTable.js:154-180 | the result is a subsequence of the history at exactly the positions of the matching rows |
| CouponHistory.EmptyFiltersKeepAll | src/Pages/CouponHistoryTable.js:156-178 | with every filter empty the history is unchanged |
| CouponHistory.CustomerFilterDropsMissing | src/Pages/CouponHistoryTable.js:156-160 | with a customer filter, every kept row has a string Customer_ID containing it case-insensitively |
| CouponHistory.DateBoundsInclusive | src/Pages/CouponHistoryTable.js:168-178 | a row dated exactly on both bounds passes both |
| CouponHistory.Keys | src/Pages/CouponHistoryTable.js:189 | the header names are the row's keys, in field order |
| CouponHistory.Quoted | src/Pages/CouponHistoryTable.js:192 | every value is wrapped in double quotes, and null is rendered as "" |
| CouponHistory.QuotedValues | src/Pages/CouponHistoryTable.js:191-192 | one entry per field, entry i being field i's value quoted |
| CouponHistory.HistoryCsv | src/Pages/CouponHistoryTable.js:187 | CSV text is produced iff the filtered list is non-empty |
| CouponHistory.HistoryCsvLines | src/Pages/CouponHistoryTable.js:186-196 | when no key or value holds a newline, the CSV lines are the first row's keys and then one quoted line per row |
| Login.DigitsOf | src/Pages/Login.js:40 | stripping non-digits leaves only digits, keeps every digit of the input, and leaves an all-digit input unchanged |
| Login.DigitsOfConcat | src/Pages/Login.js:40 | the digits of a concatenation are the digits of each part, and one character contributes itself exactly when it is a digit |
| Login.NonDigitsIgnored | src/Pages/Login.js:40 | inserting a non-digit anywhere in the phone number does not change its digits |
| Login.ValidateForm | src/Pages/Login.js:28-45 | "" iff the current mode's rule set passes; the missing-field message comes before the format message; each message fires exactly in its case |
| Login.EmailExamples | src/Pages/Login.js:33 | "a@b.c" matches the email pattern and "a@b" does not |
| Login.HandleLogin | src/Pages/Login.js:47-62 | a login request is sent iff validation passes, and its body is exactly the mode's login data; otherwise the error shown is the validation message |
| Login.PrepareLoginData | src/Pages/Login.js:22-26 | the body holds exactly the current mode's identifier and the password |
| Login.ToggleLoginMethod | src/Pages/Login.js:87-91 | the mode flips, email and phone are cleared, the password is kept and the error is cleared |
| Login.ToggleTwice | src/Pages/Login.js:87-91 | toggling twice restores the mode and the password, with both identifiers and the error cleared |
| VendorRegistration.AddAddress | src/Pages/VendorRegistation.js:54-56 | exactly one empty address is appended and the earlier ones are unchanged |
| VendorRegistration.WithoutIndex | src/Pages/VendorRegistation.js:61 | filtering out index i removes exactly that element, and nothing when i is out of range |
| VendorRegistration.RemoveAddress | src/Pages/VendorRegistation.js:59-64 | a no-op with one address; otherwise it removes exactly index i; the list never drops below one |
| VendorRegistration.ChangeAddress | src/Pages/VendorRegistation.js:47-51 | only the chosen field of the chosen address changes |
| VendorRegistration.AddressesCompleteMeansNonBlank | src/Pages/VendorRegistation.js:113-115 | the addresses pass iff every street, city and zipcode holds a non-white-space character |
| VendorRegistration.PasswordProblem | src/Pages/VendorRegistation.js:75-88 | no problem iff the password has at least 6 characters and equals the confirmation; length is reported before mismatch |
| VendorRegistration.HandleRegister | src/Pages/VendorRegistation.js:91-135 | registration is sent iff all five checks pass; a rejection names a failing check after which every earlier check passed, with that check's message (the password rule's own message for a password problem); the body is the payload |
| VendorRegistration.EveryCheckPasses | src/Pages/VendorRegistation.js:92-120 | passing the five checks in order means passing every check |
| VendorRegistration.Payload | src/Pages/VendorRegistation.js:127-135 | the body ends with the serialised addresses; every other entry is a form field other than confirmPassword with a non-null value |
| VendorRegistration.KeptEntries | src/Pages/VendorRegistation.js:128-132 | with a logo chosen, every form entry but confirmPassword is kept, in order |
| VendorRegistration.PayloadWithLogo | src/Pages/VendorRegistation.js:128-135 | with a logo chosen, the body is the eleven fields other than confirmPassword in form order, then the addresses |
| VendorRegistration.HandleVerifyOtp | src/Pages/VendorRegistation.js:154-165 | an OTP is rejected iff it is shorter than 4 characters, with the invalid-OTP message; otherwise the token and the OTP are sent |
| CreateSurvey.InitialQuestions | src/Pages/CreateSurvey.js:5-11 | ten questions with ids 1..10, empty text and four empty options each |
| CreateSurvey.QuestionChange | src/Pages/CreateSurvey.js:19-23 | only question i's text changes |
| CreateSurvey.OptionChange | src/Pages/CreateSurvey.js:26-30 | only option j of question i changes |
| CreateSurvey.EditQuestion | src/Pages/CreateSurvey.js:138-145 | typing keeps the cursor on the visible question |
| CreateSurvey.EditOption | src/Pages/CreateSurvey.js:149-158 | typing an option keeps the cursor on the visible question |
| CreateSurvey.Next | src/Pages/CreateSurvey.js:33-37 | Next advances by one only before the last question, and keeps the cursor in range |
| CreateSurvey.Previous | src/Pages/CreateSurvey.js:167-176 | Previous, offered only past the first question, goes back by one and stays in range |
| CreateSurvey.Perform | src/Pages/CreateSurvey.js:19-37 | every edit or button press keeps the cursor in range and the question set well shaped |
| CreateSurvey.RunStaysInRange | src/Pages/CreateSurvey.js:33-37 | after any sequence of edits and presses the cursor stays within the ten questions |
| CreateSurvey.FormatQuestion | src/Pages/CreateSurvey.js:87-90 | the text and each option are trimmed, and the option count is kept |
| CreateSurvey.Format | src/Pages/CreateSurvey.js:87-90 | one formatted question per question, in order |
| CreateSurvey.CompleteMeansNotBlank | src/Pages/CreateSurvey.js:87-102 | a formatted question passes iff its text and every option hold a non-white-space character |
| CreateSurvey.FirstIncomplete | src/Pages/CreateSurvey.js:93-102 | finds the first question that fails, scanning in order, or none when all pass |
| CreateSurvey.Validate | src/Pages/CreateSurvey.js:93-102 | no error iff every question is complete; otherwise the first incomplete question's error, the text before the options |
| CreateSurvey.HandleSubmit | src/Pages/CreateSurvey.js:77-105 | the survey is posted iff a vendor id is stored and every question is complete, with the formatted questions; a refusal with a vendor id shows the message validation gives for the first incomplete question |
| CreateSurvey.AfterReply | src/Pages/CreateSurvey.js:54-68 | success resets to the initial questions and the first one; failure keeps the form |
| CreateSurvey.ResetFormIsRefused | src/Pages/CreateSurvey.js:54-65 | submitting a freshly reset form is refused for the first question's missing text |
| InvoiceDashboard.HandlePayment | src/Pages/VendorInvoiceDashboard.js:24-29 | every invoice with the id becomes "Paid"; all other invoices and all other fields are unchanged |
| InvoiceDashboard.PaymentIdempotent | src/Pages/VendorInvoiceDashboard.js:24-29 | paying an id twice equals paying it once |
| InvoiceDashboard.PaymentsCommute | src/Pages/VendorInvoiceDashboard.js:24-29 | two payments can be made in either order |
| InvoiceDashboard.PayNowAfterPayment | src/Pages/VendorInvoiceDashboard.js:80-96 | after paying, "Pay Now" remains on exactly the pending rows with another id, and the paid rows turn green |
| InvoiceDashboard.InitialPayments | src/Pages/VendorInvoiceDashboard.js:5-22 | initially only the April invoice offers "Pay Now", and paying it leaves nothing to pay |
| SubmittedSurveys.UserIds | src/Pages/SubmittedSurveys.js:46-48 | each response author appears once, and nobody else does |
| SubmittedSurveys.FetchUsers | src/Pages/SubmittedSurveys.js:12-23 | the label map is defined on exactly the given ids |
| SubmittedSurveys.EveryUserLabelled | src/Pages/SubmittedSurveys.js:15-18 | every response's user cell shows "User " and the last four characters of its id |
| SubmittedSurveys.LastAnswer | src/Pages/SubmittedSurveys.js:113-116 | the last position answering a question, or none when it was never answered |
| SubmittedSurveys.AnswersMapLastWins | src/Pages/SubmittedSurveys.js:113-116 | the answer map holds exactly the answered questions, each with its last answer |
| SubmittedSurveys.AnswerCell | src/Pages/SubmittedSurveys.js:132-136 | a cell shows option text iff an index was chosen and the question has a non-empty option there |
| SubmittedSurveys.CellShowsLastAnswer | src/Pages/SubmittedSurveys.js:113-136 | cell i shows the option chosen by the response's last answer to question i, or "Not Answered" |
| SubmittedSurveys.QuestionIdDisplay | src/Pages/SubmittedSurveys.js:119-123 | the last four characters (or fewer) of the first answer's id, and "N/A" when there is no answer or its id is missing or empty |
| SubmittedSurveys.QuestionIdFromFirstAnswer | src/Pages/SubmittedSurveys.js:119-123 | the question-id cell depends on the first answer alone, and is the last four characters of an id at least that long |
| SubmittedSurveys.ResponseRow | src/Pages/SubmittedSurveys.js:111-146 | one cell per question, the user label and the question-id cell |
| SubmittedSurveys.Render | src/Pages/SubmittedSurveys.js:26-86 | error without a vendor id or data; otherwise the no-submissions notice exactly when the first survey has no responses, and else row k is response k's row, each with one cell per question |
| SubmittedSurveys.OnlyFirstSurvey | src/Pages/SubmittedSurveys.js:41-44 | surveys after the first never change the page |
| SurveyList.AllCollapsed | src/Pages/SurveyList.js:27 | one false flag per question |
| SurveyList.Toggle | src/Pages/SurveyList.js:42-46 | only entry i is negated |
| SurveyList.ToggleTwice | src/Pages/SurveyList.js:42-46 | toggling the same entry twice restores the flags |
| SurveyList.TogglesCommute | src/Pages/SurveyList.js:42-46 | toggles of two entries commute |
| SurveyList.ToggleAll | src/Pages/SurveyList.js:42-46 | any run of clicks keeps one flag per question |
| SurveyList.OddClicksShowOptions | src/Pages/SurveyList.js:42-46 | a question's options are shown iff it was clicked an odd number of times, counted from its starting flag |
| SurveyList.Load | src/Pages/SurveyList.js:11-61 | the vendor-id error exactly when there is no vendor id; with a successful non-empty reply, the first survey's questions, all collapsed, or the load-failure error when that survey has no questions; the no-surveys notice otherwise |
| SurveyList.OnlyFirstSurvey | src/Pages/SurveyList.js:60-61 | surveys after the first never change the page |
| DocumentTable.SplitCamel | src/Pages/DocumentTable.js:84 | one space is inserted before each capital, so the length grows by the number of capitals |
| DocumentTable.UnsplitSplitCamel | src/Pages/DocumentTable.js:84 | removing the inserted spaces gives the identifier back |
| DocumentTable.UpperFirst | src/Pages/DocumentTable.js:85 | only the first character is upper-cased, unless it is a line terminator |
| DocumentTable.LabelShape | src/Pages/DocumentTable.js:83-85 | the label's length is the input's plus its capitals; a leading capital gives a leading space, and a leading lower-case letter is capitalised |
| DocumentTable.LabelRestores | src/Pages/DocumentTable.js:83-85 | removing the spaces after restoring the first character gives the identifier back |
| DocumentTable.FormatDate | src/Pages/DocumentTable.js:38-46 | "-" for a missing or empty date, otherwise the locale rendering |
| DocumentTable.TableBody | src/Pages/DocumentTable.js:72-101 | the empty notice iff there are no documents; otherwise one row per document numbered from 1 in order |
| Seqs.FilterPositions | src/Pages/CouponPage.js:181 | `filter` keeps exactly the positions whose element passes, in increasing order |
| Seqs.FilterMembers | src/Pages/CouponPage.js:181 | everything `filter` returns comes from its input, and every input element that passes is returned |
| Seqs.FilterCommutes | src/Pages/CouponHistoryTable.js:157-177 | two filters give the same result in either order |
| Seqs.Distinct | src/Pages/SubmittedSurveys.js:47 | `[...new Set]` holds each element of the input once and nothing else |
| Seqs.DistinctKeepsFirstOccurrenceOrder | src/Pages/SubmittedSurveys.js:47 | the distinct elements appear in order of first occurrence |
| Seqs.JoinFree | src/Pages/CouponPage.js:224 | joining never introduces an element found in neither the pieces nor the separator |
| Seqs.SplitJoin | src/Pages/CouponPage.js:224 | splitting at a separator undoes joining with it when no piece contains it |
| Text.TrimSpec | src/Pages/VendorRegistation.js:114 | `trim` cuts white space, and only white space, from both ends; the result is empty iff the input is all white space |

## Left out

- HTTP calls, local storage, `alert`, navigation and the loading flag are not modelled. Fetch results and the stored vendor id enter as parameters. A request that is rejected outright lands in each page's `catch`; those error messages of failed requests are not modelled. The errors that follow from the stored id or the reply's contents are modelled as `Failed`, `ShowError` and `SubmitRefused` outcomes.
- JavaScript `Date` parsing and `toLocaleDateString` depend on the host and locale. They are caller-supplied functions (`DateParser`, `localeDate`, `locale`).
- The Blob, URL and anchor download in both CSV exports is not modelled. No CSV round-trip is claimed, because commas and quotes inside values are not escaped.
- The jsPDF invoice download (src/Pages/VendorInvoiceDashboard.js:33-50) is a foreign library and is not modelled.
- React state scheduling and effects are not modelled. Each handler is a pure state-to-state function.
- src/Pages/PrivacyAndPolicy.js, src/Components/Navbar.jsx, src/Pages/CreateCoupon.js and src/Pages/UploadDocuments.js are not part of this model. They are markup, uploads and a fetch with no further logic.
- The commented-out static table at src/Pages/CouponHistoryTable.js:1-110 is not part of this model.
- Case mapping is ASCII-only: `toLowerCase`/`toUpperCase` of non-ASCII letters is not modelled. String length counts Unicode scalar values, not UTF-16 code units.
- History row values are strings or null. Numbers, nested objects and how the template literal renders them are not modelled.
- VendorRegistration.Payload: the uploaded logo file is modelled as a string value, and `JSON.stringify` is the parameter `encode`.
- CreateSurvey.QuestionChange requires an existing question index. On any other index `updatedQuestions[index]` is `undefined` and setting `.question` throws (src/Pages/CreateSurvey.js:21); the page only passes indices of rendered inputs.
- CreateSurvey.OptionChange requires an existing question index and option index. An out-of-range question index throws when `.options` is read on `undefined` (src/Pages/CreateSurvey.js:28). An out-of-range option index would lengthen that question's options array with holes; the page only passes indices of the four rendered option inputs.
- SurveyList.Toggle requires an index inside the list. In JavaScript an out-of-range index would lengthen the flag array; the page only passes indices of rendered questions.
- SubmittedSurveys.FetchUsers: every user id is a string here. A response without a `userId`, or with a non-string one, makes `id.slice` throw inside the `try`, so `fetchUsers` returns `{}` (src/Pages/SubmittedSurveys.js:13-22) and every user cell falls back to the raw `resp.userId` (src/Pages/SubmittedSurveys.js:128). That path is not modelled.
- CouponHistory.Lookup: a row is a list of fields and may repeat a key, which an object from `JSON.parse` never does. On such a row `Lookup` returns the first value, whereas a JavaScript object keeps the last; `CouponHistory.LookupDistinct` states the agreement on rows whose keys are distinct.
- CouponHistory.Row: a row's fields are taken in the order `Object.keys` and `Object.values` list them. For integer-like keys, which those list first in ascending order, that is not the insertion order; rows with such keys are not modelled separately.
- CouponPage.ClickNext: the corrected guard stops Next from moving past the last page. It does not bring back a page that a shrinking refresh has already stranded; when a single page remains, the pager is hidden and the page stays out of range. Only a clamp after each fetch would fix that, and the code has none.
- CouponPage.CategoryOptions: a missing category is `None`, so a `null` category and an absent (`undefined`) one, which a JavaScript `Set` keeps apart, become one option.
- VendorRegistration.ChangeAddress requires an existing address index. The source would throw on any other index, and the page only passes rendered ones.
- CreateSurvey.HandleSubmit: the server's error message text on failure is not modelled, only whether the form is reset.
- SubmittedSurveys.Render: a response without an `answers` array, which would throw, is not modelled.
- DocumentTable: the vendor-id error and fetch error messages are not modelled. `doc.type` is assumed to be a string.

## Findings

| source | as written | input that shows it | evidently intended | confidence | as-written member | corrected member |
|---|---|---|---|---|---|---|
| src/Pages/CouponPage.js:458 | Next is disabled only when `page === totalPages` | 11 coupons on page 3 of 3, then a refresh returns 10: totalPages is 2, the page stays 3, and Next is enabled and moves to page 4, which is empty | Next disabled whenever `page >= totalPages` | not executed; medium | CouponPage.ClickNextAsWritten, CouponPage.NextEscapesAfterShrinkingRefresh | CouponPage.ClickNext |
