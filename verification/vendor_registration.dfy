/** The vendor registration form (`src/Pages/VendorRegistation.js`): the list of
    addresses, the password rules, the order of the checks made before the
    registration request, the request's fields, and the OTP length check. */
module VendorRegistration {
  import opened Wrappers
  import opened Seqs
  import opened Text

  // ------------------------------------------------------------------ addresses

  datatype Address = Address(street: string, city: string, zipcode: string)

  datatype AddressField = Street | City | Zipcode

  const EmptyAddress: Address := Address("", "", "")

  /** The form starts with one empty address. */
  const InitialAddresses: seq<Address> := [EmptyAddress]

  /** `addAddress`: one more empty address at the end. */
  function AddAddress(addresses: seq<Address>): (r: seq<Address>)
    ensures |r| == |addresses| + 1
    ensures r[..|addresses|] == addresses && r[|addresses|] == EmptyAddress
  {
    addresses + [EmptyAddress]
  }

  /** `s.filter((_, i) => i !== index)`. */
  function WithoutIndex<T>(s: seq<T>, index: int): (r: seq<T>)
    ensures 0 <= index < |s| ==> r == s[..index] + s[index + 1..]
    ensures !(0 <= index < |s|) ==> r == s
    decreases |s|
  {
    if |s| == 0 then []
    else
      var rest := WithoutIndex(s[1..], index - 1);
      if index == 0 then rest
      else
        ConsSlices(s, index);
        [s[0]] + rest
  }

  lemma ConsSlices<T>(s: seq<T>, index: int)
    requires |s| > 0
    ensures 0 < index < |s| ==> s[..index] + s[index + 1..] == [s[0]] + s[1..][..index - 1] + s[1..][index..]
  {
    if 0 < index < |s| {
      assert s[1..][..index - 1] == s[1..index];
      assert s[1..][index..] == s[index + 1..];
      assert s[..index] == [s[0]] + s[1..index];
    }
  }

  /** `removeAddress`: ignored while only one address is left. */
  function RemoveAddress(addresses: seq<Address>, index: int): (r: seq<Address>)
    ensures |addresses| <= 1 ==> r == addresses
    ensures |addresses| > 1 && 0 <= index < |addresses| ==>
      r == addresses[..index] + addresses[index + 1..]
    ensures |addresses| >= 1 ==> |r| >= 1
  {
    if |addresses| > 1 then WithoutIndex(addresses, index) else addresses
  }

  function SetField(a: Address, field: AddressField, value: string): Address {
    match field
    case Street => a.(street := value)
    case City => a.(city := value)
    case Zipcode => a.(zipcode := value)
  }

  function GetField(a: Address, field: AddressField): string {
    match field
    case Street => a.street
    case City => a.city
    case Zipcode => a.zipcode
  }

  /** `handleAddressChange`: only `field` of address `index` takes the new value
      (an index past the end would make the assignment throw). */
  function ChangeAddress(addresses: seq<Address>, index: nat, field: AddressField, value: string): (r: seq<Address>)
    requires index < |addresses|
    ensures |r| == |addresses|
    ensures forall j :: 0 <= j < |r| && j != index ==> r[j] == addresses[j]
    ensures GetField(r[index], field) == value
    ensures forall g :: g != field ==> GetField(r[index], g) == GetField(addresses[index], g)
  {
    addresses[index := SetField(addresses[index], field, value)]
  }

  /** `addr.street.trim() && addr.city.trim() && addr.zipcode.trim()`, for every address. */
  predicate AddressesComplete(addresses: seq<Address>) {
    forall i :: 0 <= i < |addresses| ==>
      Trim(addresses[i].street) != "" && Trim(addresses[i].city) != "" && Trim(addresses[i].zipcode) != ""
  }

  /** An address passes exactly when each of its three fields has a character
      that is not white space. */
  lemma AddressesCompleteMeansNonBlank(addresses: seq<Address>)
    ensures AddressesComplete(addresses) <==> forall i, g :: 0 <= i < |addresses| ==> !AllSpace(GetField(addresses[i], g))
  {
    forall i | 0 <= i < |addresses|
      ensures (Trim(addresses[i].street) != "" && Trim(addresses[i].city) != "" && Trim(addresses[i].zipcode) != "")
        <==> forall g :: !AllSpace(GetField(addresses[i], g))
    {
      AddressNonBlank(addresses[i]);
    }
  }

  /** One address: its three trimmed fields are non-empty exactly when none of its
      fields is all white space. */
  lemma AddressNonBlank(a: Address)
    ensures (Trim(a.street) != "" && Trim(a.city) != "" && Trim(a.zipcode) != "")
      <==> forall g :: !AllSpace(GetField(a, g))
  {
    TrimSpec(a.street);
    TrimSpec(a.city);
    TrimSpec(a.zipcode);
    assert forall g :: GetField(a, g) == a.street || GetField(a, g) == a.city || GetField(a, g) == a.zipcode;
    assert GetField(a, Street) == a.street && GetField(a, City) == a.city && GetField(a, Zipcode) == a.zipcode;
  }

  // ------------------------------------------------------------------ passwords

  const MinPasswordLength: nat := 6
  const TooShortMessage: string := "Password must be at least 6 characters long"
  const MismatchMessage: string := "Passwords do not match"

  /** `validatePasswords`: `Some(message)` is the error it sets and means `false`. */
  function PasswordProblem(password: string, confirmPassword: string): (r: Option<string>)
    ensures r.None? <==> |password| >= MinPasswordLength && password == confirmPassword
    ensures |password| < MinPasswordLength ==> r == Some(TooShortMessage)
    ensures |password| >= MinPasswordLength && password != confirmPassword ==> r == Some(MismatchMessage)
  {
    if |password| < MinPasswordLength then Some(TooShortMessage)
    else if password != confirmPassword then Some(MismatchMessage)
    else None
  }

  // ---------------------------------------------------------------- registration

  /** The form's fields; `businessLogo` is the chosen file, `None` while there is none. */
  datatype RegistrationForm = RegistrationForm(
    firstName: string,
    lastName: string,
    email: string,
    phone: string,
    tillNumber: string,
    businessName: string,
    latitude: string,
    longitude: string,
    password: string,
    confirmPassword: string,
    note: string,
    businessLogo: Option<string>)

  /** The checks `handleRegister` makes, in the order it makes them. */
  datatype Check = RequiredFields | ConfirmationPresent | PasswordRules | LogoPresent | AddressFields

  function Rank(c: Check): nat {
    match c
    case RequiredFields => 0
    case ConfirmationPresent => 1
    case PasswordRules => 2
    case LogoPresent => 3
    case AddressFields => 4
  }

  predicate Passes(c: Check, form: RegistrationForm, addresses: seq<Address>) {
    match c
    case RequiredFields =>
      form.firstName != "" && form.lastName != "" && form.email != "" && form.phone != ""
      && form.password != "" && form.tillNumber != ""
    case ConfirmationPresent => form.confirmPassword != ""
    case PasswordRules => PasswordProblem(form.password, form.confirmPassword).None?
    case LogoPresent => form.businessLogo.Some?
    case AddressFields => AddressesComplete(addresses)
  }

  /** The form's entries in the order `Object.keys` lists them; `None` is `null`. */
  function Entries(form: RegistrationForm): seq<(string, Option<string>)> {
    [("firstName", Some(form.firstName)), ("lastName", Some(form.lastName)),
     ("email", Some(form.email)), ("phone", Some(form.phone)),
     ("tillNumber", Some(form.tillNumber)), ("businessName", Some(form.businessName)),
     ("latitude", Some(form.latitude)), ("longitude", Some(form.longitude)),
     ("password", Some(form.password)), ("confirmPassword", Some(form.confirmPassword)),
     ("note", Some(form.note)), ("businessLogo", form.businessLogo)]
  }

  predicate Sent(e: (string, Option<string>)) { e.0 != "confirmPassword" && e.1.Some? }

  /** The entries that are sent, with their values unwrapped. */
  function SentEntries(form: RegistrationForm): seq<(string, string)> {
    Unwrap(Filter(Entries(form), Sent))
  }

  function Unwrap(entries: seq<(string, Option<string>)>): seq<(string, string)>
    requires forall k :: 0 <= k < |entries| ==> entries[k].1.Some?
  {
    seq(|entries|, k requires 0 <= k < |entries| => (entries[k].0, entries[k].1.value))
  }

  /** The multipart body: every entry except `confirmPassword` and `null` ones, then
      the addresses, serialised by `encode` (standing for `JSON.stringify`). */
  function Payload(form: RegistrationForm, addresses: seq<Address>, encode: seq<Address> -> string): (r: seq<(string, string)>)
    ensures |r| >= 1 && r[|r| - 1] == ("addresses", encode(addresses))
    ensures forall k :: 0 <= k < |r| - 1 ==> r[k].0 != "confirmPassword" && (r[k].0, Some(r[k].1)) in Entries(form)
  {
    FilterMembers(Entries(form), Sent);
    SentEntries(form) + [("addresses", encode(addresses))]
  }

  const RequiredMessage: string := "Please fill all required fields (marked with *)."
  const ConfirmMessage: string := "Please confirm your password."
  const LogoMessage: string := "Please upload a Business Logo."
  const AddressMessage: string := "Please fill all address fields."

  datatype RegisterOutcome =
    | Rejected(failed: Check, message: string)   // an alert, or the password error under the field
    | Register(body: seq<(string, string)>)      // the registration request

  /** `handleRegister` up to the request: the first failing check stops it. */
  function HandleRegister(form: RegistrationForm, addresses: seq<Address>, encode: seq<Address> -> string): (r: RegisterOutcome)
    ensures r.Register? <==> forall c :: Passes(c, form, addresses)
    ensures r.Rejected? ==> !Passes(r.failed, form, addresses)
    ensures r.Rejected? ==> forall c :: Rank(c) < Rank(r.failed) ==> Passes(c, form, addresses)
    ensures r.Register? ==> r.body == Payload(form, addresses, encode)
    ensures r.Rejected? && r.failed == RequiredFields ==> r.message == RequiredMessage
    ensures r.Rejected? && r.failed == ConfirmationPresent ==> r.message == ConfirmMessage
    ensures r.Rejected? && r.failed == PasswordRules ==>
      PasswordProblem(form.password, form.confirmPassword) == Some(r.message)
    ensures r.Rejected? && r.failed == LogoPresent ==> r.message == LogoMessage
    ensures r.Rejected? && r.failed == AddressFields ==> r.message == AddressMessage
  {
    if !Passes(RequiredFields, form, addresses) then Rejected(RequiredFields, RequiredMessage)
    else if !Passes(ConfirmationPresent, form, addresses) then Rejected(ConfirmationPresent, ConfirmMessage)
    else if !Passes(PasswordRules, form, addresses) then
      Rejected(PasswordRules, PasswordProblem(form.password, form.confirmPassword).value)
    else if !Passes(LogoPresent, form, addresses) then Rejected(LogoPresent, LogoMessage)
    else if !Passes(AddressFields, form, addresses) then Rejected(AddressFields, AddressMessage)
    else
      EveryCheckPasses(form, addresses);
      Register(Payload(form, addresses, encode))
  }

  lemma EveryCheckPasses(form: RegistrationForm, addresses: seq<Address>)
    requires Passes(RequiredFields, form, addresses) && Passes(ConfirmationPresent, form, addresses)
    requires Passes(PasswordRules, form, addresses) && Passes(LogoPresent, form, addresses)
    requires Passes(AddressFields, form, addresses)
    ensures forall c :: Passes(c, form, addresses)
  {
    forall c ensures Passes(c, form, addresses) {
      match c
      case RequiredFields =>
      case ConfirmationPresent =>
      case PasswordRules =>
      case LogoPresent =>
      case AddressFields =>
    }
  }

  /** With a logo chosen, exactly the `confirmPassword` entry is dropped. */
  lemma KeptEntries(form: RegistrationForm)
    requires form.businessLogo.Some?
    ensures Filter(Entries(form), Sent) == Entries(form)[..9] + Entries(form)[10..]
  {
    EveryOtherEntrySent(form);
    FilterDropsOne(Entries(form), Sent, 9);
  }

  /** With a logo chosen, only the confirmation entry is held back. */
  lemma EveryOtherEntrySent(form: RegistrationForm)
    requires form.businessLogo.Some?
    ensures !Sent(Entries(form)[9])
    ensures forall i :: 0 <= i < |Entries(form)| && i != 9 ==> Sent(Entries(form)[i])
  {
    var e := Entries(form);
    assert Sent(e[0]) && Sent(e[1]) && Sent(e[2]) && Sent(e[3]);
    assert Sent(e[4]) && Sent(e[5]) && Sent(e[6]) && Sent(e[7]);
    assert Sent(e[8]) && Sent(e[10]) && Sent(e[11]);
  }

  /** Once a logo is chosen (as it must be for the request to go out) the body
      holds every form field but `confirmPassword`, in form order, and then the
      addresses. */
  lemma PayloadWithLogo(form: RegistrationForm, addresses: seq<Address>, encode: seq<Address> -> string)
    requires form.businessLogo.Some?
    ensures Entries(form)[9].0 == "confirmPassword"
    ensures |Payload(form, addresses, encode)| == 12
    ensures Payload(form, addresses, encode) ==
      Unwrap(Entries(form)[..9] + Entries(form)[10..]) + [("addresses", encode(addresses))]
  {
    KeptEntries(form);
  }

  // ------------------------------------------------------------------------ OTP

  const OtpMessage: string := "Enter a valid OTP."

  datatype OtpOutcome = OtpRejected(message: string) | VerifyOtp(token: string, otp: string)

  /** `handleVerifyOtp` up to the request. */
  function HandleVerifyOtp(token: string, otp: string): (r: OtpOutcome)
    ensures r.OtpRejected? <==> |otp| < 4
    ensures r.VerifyOtp? ==> r.token == token && r.otp == otp
    ensures r.OtpRejected? ==> r.message == OtpMessage
  {
    if |otp| < 4 then OtpRejected(OtpMessage) else VerifyOtp(token, otp)
  }
}
