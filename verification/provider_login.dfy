/**
 The two-step sign-in (ProviderLogin): e-mail and password request a
 login OTP, the OTP is verified, and the signed-in user record is enriched
 with the provider number the portal starts on.
 */
module ProviderLogin {
  import opened Text
  import opened Providers

  datatype Step = LoginStep | OtpStep

  // ---------------------------------------------------------------------------
  // Initial step

  /** The mount effect's decision: the step, the e-mail to prefill, and whether the two session keys are removed. */
  datatype Resume = Resume(step: Step, email: Option<string>, clearSession: bool)

  /** An OTP step survives a reload only when both the token and the e-mail are stored (and non-empty). */
  function InitialStep(token: Option<string>, storedEmail: Option<string>): (r: Resume)
    ensures r.step == OtpStep <==> Truthy(token) && Truthy(storedEmail)
    ensures r.step == OtpStep ==> r.email == storedEmail && !r.clearSession
    ensures r.step == LoginStep ==> r.email.None? && r.clearSession
  {
    if Truthy(token) && Truthy(storedEmail) then Resume(OtpStep, storedEmail, false)
    else Resume(LoginStep, None, true)
  }

  // ---------------------------------------------------------------------------
  // validateForm

  datatype LoginField = EmailField | PasswordField

  /** `validateForm`'s error map. */
  function LoginErrors(email: string, password: string): (r: map<LoginField, string>)
    ensures EmailField in r <==> IsBlank(email)
    ensures PasswordField in r <==> password == ""
    ensures EmailField in r ==> r[EmailField] == "Email is required"
    ensures PasswordField in r ==> r[PasswordField] == "Password is required"
  {
    TrimEmptyIffBlank(email);
    var e := if Trim(email) == "" then map[EmailField := "Email is required"] else map[];
    if password == "" then e[PasswordField := "Password is required"] else e
  }

  /** `validateForm()`'s result: no errors. */
  predicate FormValid(email: string, password: string) {
    LoginErrors(email, password) == map[]
  }

  lemma FormValidIff(email: string, password: string)
    ensures FormValid(email, password) <==> !IsBlank(email) && password != ""
  {
    if !FormValid(email, password) {
      var k :| k in LoginErrors(email, password);
    }
  }

  // ---------------------------------------------------------------------------
  // handleLogin

  /** The login-OTP request's answer: a body with `verification_token`, or an error with `response.data.error`. */
  datatype LoginReply = Sent(verificationToken: Option<string>) | LoginThrown(error: Option<string>)

  /** The state `handleLogin` leaves: step, the token kept and stored, the e-mail stored, and the error toast if any. */
  datatype LoginOutcome = LoginOutcome(step: Step, token: Option<string>, storedEmail: Option<string>, toast: Option<string>)

  /** `handleLogin`: an invalid form sends nothing; a truthy token moves to the OTP step. */
  function HandleLogin(email: string, password: string, token: Option<string>, reply: LoginReply): (r: LoginOutcome)
    ensures !FormValid(email, password) ==> r == LoginOutcome(LoginStep, token, None, None)
    ensures r.step == OtpStep <==> FormValid(email, password) && reply.Sent? && Truthy(reply.verificationToken)
    ensures r.step == OtpStep ==> r.token == reply.verificationToken && r.storedEmail == Some(email) && r.toast.None?
    ensures FormValid(email, password) && reply.Sent? && !Truthy(reply.verificationToken) ==> r.toast == Some("Failed to send OTP.")
    ensures FormValid(email, password) && reply.LoginThrown? ==> r.toast == Some(OrDefault(reply.error, "Invalid credentials"))
  {
    if !FormValid(email, password) then LoginOutcome(LoginStep, token, None, None)
    else
      match reply
      case Sent(t) =>
        if Truthy(t) then LoginOutcome(OtpStep, t, Some(email), None)
        else LoginOutcome(LoginStep, token, None, Some("Failed to send OTP."))
      case LoginThrown(e) => LoginOutcome(LoginStep, token, None, Some(OrDefault(e, "Invalid credentials")))
  }

  // ---------------------------------------------------------------------------
  // The OTP field and handleVerifyOtp

  /** The OTP field: the browser caps the typed value at six characters, `replace(/\D/g, "")` keeps its digits. */
  function OtpInput(typed: string): (r: string)
    requires |typed| <= 6
    ensures AllDigits(r) && |r| <= 6
    ensures AllDigits(typed) ==> r == typed
  {
    KeepDigits(typed)
  }

  /** The user record returned on verification: `provider_numbers`, `provider_no`, `is_admin`. */
  datatype User = User(providerNumbers: Option<seq<Provider>>, providerNo: Option<string>, isAdmin: bool)

  /** `pns.find(p => p.is_primary) || pns[0] || null`. */
  function PrimaryProvider(user: User): (r: Option<Provider>)
    ensures r.Some? ==> user.providerNumbers.Some? && r.value in user.providerNumbers.value
    ensures r.None? <==> user.providerNumbers.None? || user.providerNumbers.value == []
  {
    var pns := user.providerNumbers.GetOr([]);
    match Find(pns, (p: Provider) => p.isPrimary)
    case Some(p) => Some(p)
    case None => if |pns| > 0 then Some(pns[0]) else None
  }

  /** The chosen entry is the first primary one when there is one... */
  lemma PrimaryProviderIsFirstPrimary(user: User, i: nat)
    requires user.providerNumbers.Some? && i < |user.providerNumbers.value|
    requires user.providerNumbers.value[i].isPrimary
    requires forall j :: 0 <= j < i ==> !user.providerNumbers.value[j].isPrimary
    ensures PrimaryProvider(user) == Some(user.providerNumbers.value[i])
  {
    FindIsFirst(user.providerNumbers.value, (p: Provider) => p.isPrimary, i);
  }

  /** ...and the first entry otherwise. */
  lemma PrimaryProviderDefaultsToFirst(user: User)
    requires user.providerNumbers.Some? && user.providerNumbers.value != []
    requires forall j :: 0 <= j < |user.providerNumbers.value| ==> !user.providerNumbers.value[j].isPrimary
    ensures PrimaryProvider(user) == Some(user.providerNumbers.value[0])
  {
  }

  /** `active_provider_no`: the chosen entry's number, else the user's own, else "". */
  function ActiveProviderNo(user: User): (r: string)
    ensures PrimaryProvider(user).Some? && Truthy(PrimaryProvider(user).value.providerNo) ==> r == PrimaryProvider(user).value.providerNo.value
    ensures !(PrimaryProvider(user).Some? && Truthy(PrimaryProvider(user).value.providerNo)) ==> r == OrDefault(user.providerNo, "")
  {
    var primary := PrimaryProvider(user);
    OrDefault(OrElse(if primary.Some? then primary.value.providerNo else None, user.providerNo), "")
  }

  /** A JavaScript truthiness test on an id: 0 and "" are falsy. */
  predicate TruthyId(id: ProviderId) {
    match id
    case Num(n) => n != 0
    case Str(s) => s != ""
  }

  /** `active_provider_id`: `primary?.id || null`. */
  function ActiveProviderId(user: User): (r: Option<ProviderId>)
    ensures r.Some? ==> PrimaryProvider(user).Some? && r.value == PrimaryProvider(user).value.id
    ensures r.None? <==> PrimaryProvider(user).None? || !TruthyId(PrimaryProvider(user).value.id)
  {
    var primary := PrimaryProvider(user);
    if primary.Some? && TruthyId(primary.value.id) then Some(primary.value.id) else None
  }

  /** A user with no provider numbers starts on their own number with no provider id. */
  lemma NoProviderNumbers(user: User)
    requires user.providerNumbers.None? || user.providerNumbers.value == []
    ensures ActiveProviderNo(user) == OrDefault(user.providerNo, "")
    ensures ActiveProviderId(user).None?
  {
  }

  /** The verify request's answer: a body with `token` and `user`, or an error with `response.data.error`. */
  datatype VerifyReply = Verified(token: Option<string>, user: User) | VerifyThrown(error: Option<string>)

  /** What `handleVerifyOtp` did. */
  datatype VerifyOutcome =
    | Rejected(toast: string)           // refused before any request
    | SignedIn(route: string, activeNo: string, activeId: Option<ProviderId>, otp: string, token: string, step: Step)
    | Unchanged                        // a reply without a token: nothing happens
    | VerifyFailed(toast: string)

  /** `handleVerifyOtp`. */
  function HandleVerifyOtp(otp: string, reply: VerifyReply): (r: VerifyOutcome)
    ensures |otp| != 6 <==> r == Rejected("Please enter valid 6 digit OTP")
    ensures r.SignedIn? ==> r.otp == "" && r.token == "" && r.step == LoginStep
    ensures r.SignedIn? <==> |otp| == 6 && reply.Verified? && Truthy(reply.token)
    ensures r.SignedIn? ==> r.route == (if reply.user.isAdmin then "/admin" else "/verify")
    ensures r.SignedIn? ==> r.activeNo == ActiveProviderNo(reply.user) && r.activeId == ActiveProviderId(reply.user)
  {
    if |otp| != 6 then Rejected("Please enter valid 6 digit OTP")
    else
      match reply
      case Verified(t, user) =>
        if Truthy(t) then
          SignedIn(if user.isAdmin then "/admin" else "/verify", ActiveProviderNo(user), ActiveProviderId(user), "", "", LoginStep)
        else Unchanged
      case VerifyThrown(e) => VerifyFailed(OrDefault(e, "Invalid or expired OTP"))
  }

  /** Six typed digits always pass the length check. */
  lemma SixDigitsPassTheLengthCheck(typed: string, reply: VerifyReply)
    requires |typed| == 6 && AllDigits(typed)
    ensures !HandleVerifyOtp(OtpInput(typed), reply).Rejected?
  {
  }
}
