/**
 The four-step password recovery (ForgotPasswordFlow): send an OTP to an
 e-mail address, verify the OTP against a 300-second countdown, choose a
 new password, done. The server is not modelled; each handler receives the
 reply it got as an argument.
 */
module ForgotPassword {
  import opened Text

  /** The parts of a JSON reply body the handlers read; any of them may be missing. */
  datatype Body = Body(error: Option<string>, message: Option<string>, token: Option<string>)

  /** How a request ended: a response with `response.ok` set or not, or a thrown exception. */
  datatype Reply = Ok(body: Body) | NotOk(body: Body) | Thrown

  /** The component's state; `message` is `data.message`, which the server may leave out. */
  datatype Flow = Flow(
    step: int,
    email: string,
    otp: string,
    newPassword: string,
    confirmPassword: string,
    verificationToken: Option<string>,
    resetToken: Option<string>,
    loading: bool,
    message: Option<string>,
    error: string,
    timeLeft: int)

  const Start := Flow(1, "", "", "", "", Some(""), Some(""), false, Some(""), "", 0)

  const NetworkError := "Network error. Please try again."

  /** The error text for a failed request: `data.error || fallback`, or the network message. */
  function FailureText(reply: Reply, fallback: string): (r: string)
    requires !reply.Ok?
    ensures reply.Thrown? ==> r == NetworkError
    ensures reply.NotOk? && Truthy(reply.body.error) ==> r == reply.body.error.value
    ensures reply.NotOk? && !Truthy(reply.body.error) ==> r == fallback
  {
    match reply
    case NotOk(b) => OrDefault(b.error, fallback)
    case Thrown => NetworkError
  }

  // ---------------------------------------------------------------------------
  // The three request handlers

  /** `handleSendOTP`: on success, step 2 with a fresh 300-second countdown. */
  function SendOtp(s: Flow, reply: Reply): (r: Flow)
    ensures !r.loading
    ensures reply.Ok? ==>
      r.step == 2 && r.timeLeft == 300 && r.error == ""
      && r.verificationToken == reply.body.token && r.message == reply.body.message
    ensures !reply.Ok? ==> r == s.(loading := false, message := Some(""), error := FailureText(reply, "Failed to send OTP"))
    ensures r.email == s.email && r.otp == s.otp && r.resetToken == s.resetToken
  {
    var cleared := s.(loading := false, error := "", message := Some(""));
    match reply
    case Ok(b) => cleared.(verificationToken := b.token, step := 2, timeLeft := 300, message := b.message)
    case _ => cleared.(error := FailureText(reply, "Failed to send OTP"))
  }

  /** `handleVerifyOTP`: on success, step 3 and the countdown stopped at 0. */
  function VerifyOtp(s: Flow, reply: Reply): (r: Flow)
    ensures !r.loading
    ensures reply.Ok? ==>
      r.step == 3 && r.timeLeft == 0 && r.error == ""
      && r.resetToken == reply.body.token && r.message == reply.body.message
    ensures !reply.Ok? ==> r == s.(loading := false, message := Some(""), error := FailureText(reply, "Invalid OTP"))
    ensures r.email == s.email && r.otp == s.otp && r.verificationToken == s.verificationToken
  {
    var cleared := s.(loading := false, error := "", message := Some(""));
    match reply
    case Ok(b) => cleared.(resetToken := b.token, step := 3, message := b.message, timeLeft := 0)
    case _ => cleared.(error := FailureText(reply, "Invalid OTP"))
  }

  /**
   `handleResetPassword`: mismatched passwords only set an error and send
   nothing, so `reply` is then ignored; otherwise success is step 4.
   */
  function ResetPassword(s: Flow, reply: Reply): (r: Flow)
    ensures s.newPassword != s.confirmPassword ==> r == s.(error := "Passwords do not match")
    ensures s.newPassword == s.confirmPassword && reply.Ok? ==>
      r.step == 4 && r.error == "" && !r.loading && r.message == reply.body.message && r.timeLeft == s.timeLeft
    ensures s.newPassword == s.confirmPassword && !reply.Ok? ==>
      r == s.(loading := false, message := Some(""), error := FailureText(reply, "Failed to reset password"))
  {
    if s.newPassword != s.confirmPassword then
      s.(error := "Passwords do not match")
    else
      var cleared := s.(loading := false, error := "", message := Some(""));
      match reply
      case Ok(b) => cleared.(step := 4, message := b.message)
      case _ => cleared.(error := FailureText(reply, "Failed to reset password"))
  }

  /** `resetFlow` (the "Resend OTP" link): back to step 1 with every field emptied. */
  function ResetFlow(s: Flow): (r: Flow)
    ensures r.step == 1 && r.timeLeft == 0
    ensures r.email == "" && r.otp == "" && r.newPassword == "" && r.confirmPassword == ""
    ensures r.verificationToken == Some("") && r.resetToken == Some("")
    ensures r.message == Some("") && r.error == ""
    ensures r.loading == s.loading
  {
    s.(step := 1, email := "", otp := "", newPassword := "", confirmPassword := "",
       verificationToken := Some(""), resetToken := Some(""), message := Some(""), error := "", timeLeft := 0)
  }

  /** Resetting from a resting state is the initial state. */
  lemma ResetFlowIsStart(s: Flow)
    requires !s.loading
    ensures ResetFlow(s) == Start
  {
  }

  // ---------------------------------------------------------------------------
  // The step machine

  datatype Action = Send | Verify | Reset

  /** The step on which each button is rendered. */
  function StepOf(a: Action): (n: int)
    ensures 1 <= n <= 3
  {
    match a
    case Send => 1
    case Verify => 2
    case Reset => 3
  }

  function Handle(s: Flow, a: Action, reply: Reply): Flow {
    match a
    case Send => SendOtp(s, reply)
    case Verify => VerifyOtp(s, reply)
    case Reset => ResetPassword(s, reply)
  }

  /** A request sent when the dispatched request succeeds: for Reset, only when the passwords match. */
  predicate Succeeds(s: Flow, a: Action, reply: Reply) {
    reply.Ok? && (a == Reset ==> s.newPassword == s.confirmPassword)
  }

  /**
   Applied to the state in which its button was clicked, a handler advances
   exactly one step when its request succeeds and leaves the step alone
   otherwise, with an error set.
   */
  lemma StepAdvancesByOne(s: Flow, a: Action, reply: Reply)
    requires s.step == StepOf(a)
    ensures Succeeds(s, a, reply) ==> Handle(s, a, reply).step == s.step + 1
    ensures !Succeeds(s, a, reply) ==> Handle(s, a, reply).step == s.step && Handle(s, a, reply).error != ""
  {
  }

  /**
   "Resend OTP" stays enabled while Verify is loading. When the verify reply
   arrives after a resend, it lands on the reset state: the flow jumps from
   step 1 to step 3 with the e-mail emptied and no verification token.
   */
  lemma ResendDuringVerifyJumpsToThree(s: Flow, b: Body)
    requires s.step == 2
    ensures ResetFlow(s).step == 1
    ensures var r := VerifyOtp(ResetFlow(s), Ok(b));
      r.step == 3 && r.email == "" && r.verificationToken == Some("") && r.resetToken == b.token
  {
  }

  /** The step never leaves 1..4 under any handler. */
  lemma StepStaysInRange(s: Flow, a: Action, reply: Reply)
    requires 1 <= s.step <= 4
    ensures 1 <= Handle(s, a, reply).step <= 4
    ensures 1 <= ResetFlow(s).step <= 4
  {
  }

  // ---------------------------------------------------------------------------
  // Countdown

  /** One firing of the countdown effect: only a positive value is decremented. */
  function Tick(t: int): (r: int)
    ensures t > 0 ==> r == t - 1
    ensures t <= 0 ==> r == t
  {
    if t > 0 then t - 1 else t
  }

  /** `n` consecutive ticks. */
  function Ticks(t: int, n: nat): int
    decreases n
  {
    if n == 0 then t else Ticks(Tick(t), n - 1)
  }

  /** From a non-negative value the countdown stays non-negative and reaches `max(t - n, 0)`. */
  lemma {:induction false} TicksFloorAtZero(t: int, n: nat)
    requires t >= 0
    ensures Ticks(t, n) >= 0
    ensures Ticks(t, n) == if t >= n then t - n else 0
    decreases n
  {
    if n > 0 {
      TicksFloorAtZero(Tick(t), n - 1);
    }
  }

  // ---------------------------------------------------------------------------
  // formatTime

  /** `formatTime(seconds)`: whole minutes, a colon, and the seconds padded to two digits. */
  function FormatTime(seconds: nat): (r: string)
    ensures |r| >= 4 && r[|r| - 3] == ':'
    ensures AllDigits(r[..|r| - 3]) && AllDigits(r[|r| - 2..])
  {
    var secs := Decimal(seconds % 60);
    ShortDecimal(seconds % 60);
    Decimal(seconds / 60) + ":" + PadStart2(secs)
  }

  /** A number below 100 prints as at most two digits. */
  lemma ShortDecimal(n: nat)
    requires n < 100
    ensures |Decimal(n)| <= 2
  {
    if n >= 10 {
      assert Decimal(n) == Decimal(n / 10) + [DigitChar(n % 10)];
    }
  }

  lemma PadStart2Digits(s: string)
    requires AllDigits(s)
    ensures AllDigits(PadStart2(s))
    ensures DecimalValue(PadStart2(s)) == DecimalValue(s)
  {
    if |s| == 0 {
      assert PadStart2(s) == "00";
      assert PadStart2(s)[..1] == "0";
    } else if |s| == 1 {
      assert PadStart2(s) == ['0'] + s;
      assert PadStart2(s)[..1] == "0";
    }
  }

  lemma DigitsHaveNoColon(s: string)
    requires AllDigits(s)
    ensures ':' !in s
  {
    assert forall i :: 0 <= i < |s| ==> s[i] != ':';
  }

  /** Reading the clock back: the colon splits it into minutes and two-digit seconds that add up to `seconds`. */
  lemma {:induction false} FormatTimeRoundTrip(seconds: nat)
    ensures var parts := Split(FormatTime(seconds), ':');
      |parts| == 2 && AllDigits(parts[0]) && AllDigits(parts[1]) && |parts[1]| == 2
      && DecimalValue(parts[0]) * 60 + DecimalValue(parts[1]) == seconds
  {
    var mins := Decimal(seconds / 60);
    var secs := PadStart2(Decimal(seconds % 60));
    PadStart2Digits(Decimal(seconds % 60));
    DecimalRoundTrip(seconds / 60);
    DecimalRoundTrip(seconds % 60);
    DigitsHaveNoColon(mins);
    DigitsHaveNoColon(secs);
    assert Join([mins, secs], ':') == FormatTime(seconds);
    SplitJoin([mins, secs], ':');
  }

  /** The countdown's start reads "5:00". */
  lemma FormatTimeOfStart()
    ensures FormatTime(300) == "5:00"
  {
  }

  // ---------------------------------------------------------------------------
  // OTP input and buttons

  /** The OTP field's sanitiser: the digits typed, cut to the first six. */
  function SanitiseOtp(typed: string): (r: string)
    ensures AllDigits(r) && |r| <= 6
    ensures |r| <= |KeepDigits(typed)| && r == KeepDigits(typed)[..|r|]
    ensures |r| < 6 ==> r == KeepDigits(typed)
  {
    var d := KeepDigits(typed);
    if |d| <= 6 then d else d[..6]
  }

  /** Sanitising an already sanitised OTP changes nothing. */
  lemma SanitiseOtpIdempotent(typed: string)
    ensures SanitiseOtp(SanitiseOtp(typed)) == SanitiseOtp(typed)
  {
  }

  /** "Send OTP" is enabled: the negation of `!email || loading`. */
  predicate SendEnabled(s: Flow)
    ensures SendEnabled(s) <==> !(!Truthy(Some(s.email)) || s.loading)
  {
    s.email != "" && !s.loading
  }

  /** "Verify OTP" is enabled: the negation of `otp.length !== 6 || loading || timeLeft === 0`. */
  predicate VerifyEnabled(s: Flow)
    ensures VerifyEnabled(s) <==> !(|s.otp| != 6 || s.loading || s.timeLeft == 0)
  {
    |s.otp| == 6 && !s.loading && s.timeLeft != 0
  }

  /** "Reset Password" is enabled: the negation of `!newPassword || !confirmPassword || loading`. */
  predicate ResetEnabled(s: Flow)
    ensures ResetEnabled(s) <==> !(!Truthy(Some(s.newPassword)) || !Truthy(Some(s.confirmPassword)) || s.loading)
  {
    s.newPassword != "" && s.confirmPassword != "" && !s.loading
  }

  /** Once the countdown from 300 has run out, the OTP can no longer be verified. */
  lemma VerifyClosesWhenTimeRunsOut(s: Flow, n: nat)
    requires s.timeLeft == 300 && n >= 300
    ensures !VerifyEnabled(s.(timeLeft := Ticks(s.timeLeft, n)))
  {
    TicksFloorAtZero(300, n);
  }

  /** A sanitised six-digit OTP with time left and nothing loading enables Verify. */
  lemma SanitisedOtpEnablesVerify(s: Flow, typed: string)
    requires |KeepDigits(typed)| >= 6 && s.timeLeft > 0 && !s.loading
    ensures VerifyEnabled(s.(otp := SanitiseOtp(typed)))
  {
  }

  /** After a successful send the OTP can be verified as soon as six digits are typed. */
  lemma SendOpensVerify(s: Flow, b: Body)
    requires |s.otp| == 6
    ensures VerifyEnabled(SendOtp(s, Ok(b)))
  {
  }
}
