/**
 The registration form (Register): the provider-number check, the
 four-field validation with its two regular expressions, and how typing
 into a field edits the form and its error messages.
 */
module Register {
  import opened Text

  datatype FormField = ProviderNo | Email | PhoneNo | Password | ConfirmPassword

  datatype Form = Form(providerNo: string, email: string, phoneNo: string, password: string, confirmPassword: string)

  /** The `errors` object: at most one message per field. */
  type Errors = map<FormField, string>

  function Get(f: Form, k: FormField): string {
    match k
    case ProviderNo => f.providerNo
    case Email => f.email
    case PhoneNo => f.phoneNo
    case Password => f.password
    case ConfirmPassword => f.confirmPassword
  }

  function Set(f: Form, k: FormField, v: string): (r: Form)
    ensures Get(r, k) == v
    ensures forall j :: j != k ==> Get(r, j) == Get(f, j)
  {
    match k
    case ProviderNo => f.(providerNo := v)
    case Email => f.(email := v)
    case PhoneNo => f.(phoneNo := v)
    case Password => f.(password := v)
    case ConfirmPassword => f.(confirmPassword := v)
  }

  // ---------------------------------------------------------------------------
  // Provider number step

  datatype Validation = Validation(errors: Errors, ok: bool)

  /** `validateProviderFields`. */
  function ValidateProviderFields(f: Form): (r: Validation)
    ensures r.ok <==> !IsBlank(f.providerNo)
    ensures r.ok <==> r.errors == map[]
    ensures !r.ok ==> r.errors == map[ProviderNo := "Provider number is required"]
  {
    TrimEmptyIffBlank(f.providerNo);
    var failed := map[ProviderNo := "Provider number is required"];
    assert ProviderNo in failed;
    if Trim(f.providerNo) == "" then Validation(failed, false)
    else Validation(map[], true)
  }

  // ---------------------------------------------------------------------------
  // The two regular expressions

  /** A run of `[^\s@]`. */
  predicate PlainChars(s: string) {
    forall i :: 0 <= i < |s| ==> !IsSpace(s[i]) && s[i] != '@'
  }

  /** `^[^\s@]+@[^\s@]+\.[^\s@]+$`, described by where the `@` and a dot sit. */
  predicate EmailPattern(s: string) {
    exists at, dot :: 0 < at && at + 1 < dot && dot + 1 < |s| && s[at] == '@' && s[dot] == '.'
      && PlainChars(s[..at]) && PlainChars(s[at + 1..])
  }

  /** `^\d{10,15}$`: ten to fifteen ASCII digits and nothing else. */
  predicate PhonePattern(s: string) {
    10 <= |s| <= 15 && AllDigits(s)
  }

  /** A matching e-mail has exactly one `@`, no white space, and a non-empty local part. */
  lemma EmailPatternShape(s: string)
    requires EmailPattern(s)
    ensures forall i :: 0 <= i < |s| ==> !IsSpace(s[i])
    ensures exists at :: 0 < at < |s| && s[at] == '@' && forall j :: 0 <= j < |s| && j != at ==> s[j] != '@'
  {
    var at, dot :| 0 < at && at + 1 < dot && dot + 1 < |s| && s[at] == '@' && s[dot] == '.'
      && PlainChars(s[..at]) && PlainChars(s[at + 1..]);
    forall i | 0 <= i < |s| ensures !IsSpace(s[i]) && (i != at ==> s[i] != '@') {
      if i < at { assert s[..at][i] == s[i]; }
      else if i > at { assert s[at + 1..][i - at - 1] == s[i]; }
    }
  }

  lemma PatternsNotBlank(f: Form)
    ensures EmailPattern(f.email) ==> !IsBlank(f.email)
    ensures PhonePattern(f.phoneNo) ==> !IsBlank(f.phoneNo)
  {
    if EmailPattern(f.email) { EmailPatternShape(f.email); }
    if PhonePattern(f.phoneNo) { assert !IsSpace(f.phoneNo[0]); }
  }

  /** The regular expression, run as a left-to-right scan. */
  method MatchEmail(s: string) returns (ok: bool)
    ensures ok <==> EmailPattern(s)
  {
    // The local part runs up to the first white space or `@`.
    var at := 0;
    while at < |s| && !IsSpace(s[at]) && s[at] != '@'
      invariant 0 <= at <= |s|
      invariant PlainChars(s[..at])
    {
      at := at + 1;
    }
    OnlyCandidateAt(s, at);
    if at == 0 || at == |s| || s[at] != '@' {
      return false;
    }
    // The domain must be plain to the end, with a dot that is neither its first nor its last character.
    var i := at + 1;
    var firstDot := -1;
    while i < |s| && !IsSpace(s[i]) && s[i] != '@'
      invariant at + 1 <= i <= |s|
      invariant PlainChars(s[at + 1..i])
      invariant firstDot == -1 ==> forall k :: at + 1 < k < i ==> s[k] != '.'
      invariant firstDot != -1 ==> at + 1 < firstDot < i && s[firstDot] == '.'
      invariant firstDot != -1 ==> forall k :: at + 1 < k < firstDot ==> s[k] != '.'
    {
      SliceExtends(s, at + 1, i);
      if s[i] == '.' && i > at + 1 && firstDot == -1 {
        firstDot := i;
      }
      i := i + 1;
    }
    if i < |s| {
      assert s[at + 1..][i - at - 1] == s[i];
      return false;
    }
    assert i == |s| && s[at + 1..] == s[at + 1..i];
    ok := firstDot != -1 && firstDot + 1 < |s|;
    if ok {
      assert at + 1 < firstDot && firstDot + 1 < |s| && s[at] == '@' && s[firstDot] == '.';
    }
  }

  /** A slice grown by one character. */
  lemma SliceExtends(s: string, a: int, b: int)
    requires 0 <= a <= b < |s|
    ensures s[a..b + 1] == s[a..b] + [s[b]]
  {
  }

  /** The first white space or `@` is the only place the pattern's `@` can be. */
  lemma OnlyCandidateAt(s: string, at: int)
    requires 0 <= at <= |s| && PlainChars(s[..at])
    requires at < |s| ==> IsSpace(s[at]) || s[at] == '@'
    ensures forall a :: 0 <= a < |s| && s[a] == '@' && PlainChars(s[..a]) ==> a == at
  {
  }

  // ---------------------------------------------------------------------------
  // validateForm

  function EmailError(email: string): Option<string> {
    if Trim(email) == "" then Some("Email is required")
    else if !EmailPattern(email) then Some("Please enter a valid email")
    else None
  }

  function PhoneError(phone: string): Option<string> {
    if Trim(phone) == "" then Some("Phone number is required")
    else if !PhonePattern(phone) then Some("Please enter a valid phone number")
    else None
  }

  function PasswordError(password: string): Option<string> {
    if password == "" then Some("Password is required")
    else if |password| < 3 then Some("Password must be at least 3 characters")
    else None
  }

  function ConfirmError(password: string, confirm: string): Option<string> {
    if confirm == "" then Some("Please confirm your password")
    else if password != confirm then Some("Passwords do not match")
    else None
  }

  /** The message `validateForm` records for field `k`, if any; the provider number is not checked here. */
  function FieldError(f: Form, k: FormField): Option<string> {
    match k
    case ProviderNo => None
    case Email => EmailError(f.email)
    case PhoneNo => PhoneError(f.phoneNo)
    case Password => PasswordError(f.password)
    case ConfirmPassword => ConfirmError(f.password, f.confirmPassword)
  }

  /** The e-mail check passes exactly when the pattern matches. */
  lemma EmailCheck(email: string)
    ensures EmailError(email).None? <==> EmailPattern(email)
  {
    TrimEmptyIffBlank(email);
    if EmailPattern(email) { EmailPatternShape(email); }
  }

  /** The phone check passes exactly when the pattern matches. */
  lemma PhoneCheck(phone: string)
    ensures PhoneError(phone).None? <==> PhonePattern(phone)
  {
    TrimEmptyIffBlank(phone);
    if PhonePattern(phone) { assert !IsSpace(phone[0]); }
  }

  /** Each field's check passes exactly when its pattern or rule holds. */
  lemma FieldChecks(f: Form)
    ensures EmailError(f.email).None? <==> EmailPattern(f.email)
    ensures PhoneError(f.phoneNo).None? <==> PhonePattern(f.phoneNo)
    ensures PasswordError(f.password).None? <==> |f.password| >= 3
    ensures ConfirmError(f.password, f.confirmPassword).None? <==> f.confirmPassword != "" && f.confirmPassword == f.password
  {
    EmailCheck(f.email);
    PhoneCheck(f.phoneNo);
  }

  /** `validateForm`: a fresh error map, one message for each field that fails. */
  function ValidateForm(f: Form): (r: Validation)
    ensures r.ok <==> r.errors == map[]
    ensures ProviderNo !in r.errors
    ensures Email !in r.errors <==> EmailPattern(f.email)
    ensures PhoneNo !in r.errors <==> PhonePattern(f.phoneNo)
    ensures Password !in r.errors <==> |f.password| >= 3
    ensures ConfirmPassword !in r.errors <==> f.confirmPassword != "" && f.confirmPassword == f.password
    ensures forall k :: k in r.errors ==> FieldError(f, k) == Some(r.errors[k])
  {
    FieldChecks(f);
    var e := map k | k in {Email, PhoneNo, Password, ConfirmPassword} && FieldError(f, k).Some? :: FieldError(f, k).value;
    Validation(e, e == map[])
  }

  /** The form passes exactly when the e-mail and phone match their patterns and the password is confirmed. */
  lemma ValidFormCharacterised(f: Form)
    ensures ValidateForm(f).ok <==>
      EmailPattern(f.email) && PhonePattern(f.phoneNo) && |f.password| >= 3 && f.confirmPassword == f.password
  {
    var r := ValidateForm(f);
    if !r.ok {
      var k :| k in r.errors;
    }
  }

  /** The required message comes before the format message: a blank field never gets the format message. */
  lemma RequiredBeforeFormat(f: Form)
    ensures IsBlank(f.email) ==> ValidateForm(f).errors[Email] == "Email is required"
    ensures !IsBlank(f.email) && !EmailPattern(f.email) ==> ValidateForm(f).errors[Email] == "Please enter a valid email"
    ensures IsBlank(f.phoneNo) ==> ValidateForm(f).errors[PhoneNo] == "Phone number is required"
    ensures !IsBlank(f.phoneNo) && !PhonePattern(f.phoneNo) ==> ValidateForm(f).errors[PhoneNo] == "Please enter a valid phone number"
    ensures f.password == "" ==> ValidateForm(f).errors[Password] == "Password is required"
    ensures 0 < |f.password| < 3 ==> ValidateForm(f).errors[Password] == "Password must be at least 3 characters"
    ensures f.confirmPassword == "" ==> ValidateForm(f).errors[ConfirmPassword] == "Please confirm your password"
    ensures f.confirmPassword != "" && f.confirmPassword != f.password ==> ValidateForm(f).errors[ConfirmPassword] == "Passwords do not match"
  {
    TrimEmptyIffBlank(f.email);
    TrimEmptyIffBlank(f.phoneNo);
    FieldChecks(f);
  }

  /** Surrounding spaces make an otherwise valid phone number fail. */
  lemma PaddedPhoneFails(digits: string)
    requires PhonePattern(digits)
    ensures !PhonePattern(" " + digits)
    ensures !PhonePattern(digits + " ")
  {
    assert (" " + digits)[0] == ' ';
    assert (digits + " ")[|digits|] == ' ';
  }

  // ---------------------------------------------------------------------------
  // handleChange

  /** `handleChange`: store the typed value, and blank that field's message if it had one. */
  function HandleChange(f: Form, errors: Errors, k: FormField, value: string): (r: (Form, Errors))
    ensures Get(r.0, k) == value
    ensures forall j :: j != k ==> Get(r.0, j) == Get(f, j)
    ensures k in errors && errors[k] != "" ==> r.1 == errors[k := ""]
    ensures !(k in errors && errors[k] != "") ==> r.1 == errors
  {
    (Set(f, k, value), if k in errors && errors[k] != "" then errors[k := ""] else errors)
  }

  /** Typing never adds an error, never changes another field's error, and leaves no message on the edited field. */
  lemma HandleChangeClearsOnlyThatField(f: Form, errors: Errors, k: FormField, value: string)
    ensures HandleChange(f, errors, k, value).1.Keys == errors.Keys
    ensures forall j :: j in errors && j != k ==> HandleChange(f, errors, k, value).1[j] == errors[j]
    ensures k in errors ==> HandleChange(f, errors, k, value).1[k] == ""
  {
  }
}
