/** The vendor login form (`src/Pages/Login.js`): email or phone mode, the
    validation messages in their fixed order, the request body, and the mode toggle. */
module Login {
  import opened Seqs
  import opened Text

  datatype LoginMethod = ByEmail | ByPhone

  datatype LoginForm = LoginForm(email: string, phone: string, password: string)

  datatype LoginState = LoginState(mode: LoginMethod, form: LoginForm, error: string)

  const InitialState: LoginState := LoginState(ByEmail, LoginForm("", "", ""), "")

  const EmailRequired: string := "Email and Password are required."
  const EmailInvalid: string := "Please enter a valid email address."
  const PhoneRequired: string := "Phone number and Password are required."
  const PhoneInvalid: string := "Please enter a valid 10-digit phone number."

  /** `s[lo..hi]` contains no white space. */
  predicate NoSpaceIn(s: string, lo: nat, hi: nat)
    requires lo <= hi <= |s|
  {
    forall k :: lo <= k < hi ==> !IsSpace(s[k])
  }

  /** An '@' at `at` and a '.' at `dot` around which `\S+@\S+\.\S+` matches. */
  predicate EmailMatchAt(s: string, at: nat, dot: nat) {
    && 0 < at && at + 1 < dot && dot + 1 < |s|
    && s[at] == '@' && s[dot] == '.'
    && !IsSpace(s[at - 1]) && NoSpaceIn(s, at + 1, dot) && !IsSpace(s[dot + 1])
  }

  /** `/\S+@\S+\.\S+/.test(s)`: the pattern is unanchored, so it suffices that
      somewhere a non-space precedes an '@', a non-empty run of non-space follows it
      up to a '.', and a non-space follows the '.'. */
  predicate EmailShaped(s: string) {
    exists at: nat, dot: nat | at < dot < |s| :: EmailMatchAt(s, at, dot)
  }

  /** `s.replace(/\D/g, "")`: the digits of `s`, in order. */
  function DigitsOf(s: string): (r: string)
    ensures forall k :: 0 <= k < |r| ==> IsDigit(r[k])
    ensures forall i :: 0 <= i < |s| && IsDigit(s[i]) ==> s[i] in r
    ensures (forall i :: 0 <= i < |s| ==> IsDigit(s[i])) ==> r == s
  {
    FilterMembers(s, IsDigit);
    FilterKeepsPassing(s, IsDigit);
    Filter(s, IsDigit)
  }

  /** Digit extraction works piecewise: the digits of a concatenation are the
      digits of each part, and a single character contributes itself exactly when
      it is a digit. With `DigitsOf`'s own contract this pins down every result. */
  lemma DigitsOfConcat(a: string, b: string, c: char)
    ensures DigitsOf(a + b) == DigitsOf(a) + DigitsOf(b)
    ensures DigitsOf([c]) == (if IsDigit(c) then [c] else [])
  {
    FilterAppend(a, b, IsDigit);
  }

  /** The form passes validation. */
  predicate Valid(st: LoginState) {
    match st.mode
    case ByEmail => st.form.email != "" && st.form.password != "" && EmailShaped(st.form.email)
    case ByPhone => st.form.phone != "" && st.form.password != "" && |DigitsOf(st.form.phone)| == 10
  }

  /** `validateForm`: the first failing rule's message, or "" when none fails. */
  function ValidateForm(st: LoginState): (r: string)
    ensures r == "" <==> Valid(st)
    ensures st.mode.ByEmail? ==> r in {"", EmailRequired, EmailInvalid}
    ensures st.mode.ByPhone? ==> r in {"", PhoneRequired, PhoneInvalid}
    ensures st.mode.ByEmail? && (st.form.email == "" || st.form.password == "") ==> r == EmailRequired
    ensures st.mode.ByEmail? && r == EmailInvalid <==>
      (st.mode.ByEmail? && st.form.email != "" && st.form.password != "" && !EmailShaped(st.form.email))
    ensures st.mode.ByPhone? && (st.form.phone == "" || st.form.password == "") ==> r == PhoneRequired
    ensures st.mode.ByPhone? && r == PhoneInvalid <==>
      (st.mode.ByPhone? && st.form.phone != "" && st.form.password != "" && |DigitsOf(st.form.phone)| != 10)
  {
    if st.mode == ByEmail then
      if st.form.email == "" || st.form.password == "" then EmailRequired
      else if !EmailShaped(st.form.email) then EmailInvalid
      else ""
    else
      if st.form.phone == "" || st.form.password == "" then PhoneRequired
      else if |DigitsOf(st.form.phone)| != 10 then PhoneInvalid
      else ""
  }

  /** `prepareLoginData`: the request body as key/value pairs. */
  function PrepareLoginData(st: LoginState): (body: seq<(string, string)>)
    ensures |body| == 2 && body[1] == ("password", st.form.password)
    ensures st.mode.ByEmail? ==> body[0] == ("email", st.form.email)
    ensures st.mode.ByPhone? ==> body[0] == ("phone", st.form.phone)
  {
    if st.mode == ByEmail then [("email", st.form.email), ("password", st.form.password)]
    else [("phone", st.form.phone), ("password", st.form.password)]
  }

  datatype LoginStep = ShowError(message: string) | PostLogin(body: seq<(string, string)>)

  /** `handleLogin` up to the request: a validation message stops it. */
  function HandleLogin(st: LoginState): (r: LoginStep)
    ensures r.PostLogin? <==> Valid(st)
    ensures r.ShowError? ==> r.message != ""
    ensures r.ShowError? ==> r.message == ValidateForm(st)
    ensures r.PostLogin? ==> r.body == PrepareLoginData(st)
  {
    var message := ValidateForm(st);
    if message != "" then ShowError(message) else PostLogin(PrepareLoginData(st))
  }

  /** `toggleLoginMethod`. */
  function ToggleLoginMethod(st: LoginState): (r: LoginState)
    ensures r.mode != st.mode
    ensures r.form.email == "" && r.form.phone == "" && r.form.password == st.form.password
    ensures r.error == ""
  {
    LoginState(if st.mode == ByEmail then ByPhone else ByEmail,
               st.form.(email := "", phone := ""), "")
  }

  /** Toggling twice returns to the original mode with both identifiers cleared. */
  lemma ToggleTwice(st: LoginState)
    ensures ToggleLoginMethod(ToggleLoginMethod(st)) == st.(form := st.form.(email := "", phone := ""), error := "")
  {
  }

  /** Punctuation and spaces in a phone number are ignored: inserting a non-digit
      anywhere does not change whether the phone rule passes. */
  lemma NonDigitsIgnored(a: string, c: char, b: string)
    requires !IsDigit(c)
    ensures DigitsOf(a + [c] + b) == DigitsOf(a + b)
  {
    FilterAppend(a + [c], b, IsDigit);
    FilterAppend(a, [c], IsDigit);
    FilterAppend(a, b, IsDigit);
    assert Filter([c], IsDigit) == [];
  }

  /** "a@b.c" is shaped like an email address and "a@b" is not. */
  lemma EmailExamples()
    ensures EmailShaped("a@b.c")
    ensures !EmailShaped("a@b")
  {
    assert EmailMatchAt("a@b.c", 1, 3);
  }
}
