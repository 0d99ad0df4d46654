/**
 The admin's password reset for one provider (AdminPasswordResetModal):
 the two checks before the request, and which message the dialog shows
 afterwards.
 */
module AdminPasswordReset {
  import opened Text

  /** The dialog's state: the two inputs, the busy flag and the two message lines ("" hides a line). */
  datatype ResetForm = ResetForm(newPassword: string, confirmPassword: string, loading: bool, error: string, success: string)

  /** The body posted to the reset endpoint. */
  datatype Post = Post(email: Option<string>, newPassword: string, confirmPassword: string)

  /** The request's outcome: success, an error response with `detail` and `message`, or no response at all. */
  datatype Reply = Done | ErrorResponse(detail: Option<string>, message: Option<string>) | NoResponse

  const SuccessText := "Password has been reset successfully. Email sent to provider."

  /** The error line for a failed request: `detail || message || "Something went wrong."`, or the network message. */
  function FailureText(reply: Reply): (r: string)
    requires !reply.Done?
    ensures reply.ErrorResponse? && Truthy(reply.detail) ==> r == reply.detail.value
    ensures reply.ErrorResponse? && !Truthy(reply.detail) && Truthy(reply.message) ==> r == reply.message.value
    ensures reply.ErrorResponse? && !Truthy(reply.detail) && !Truthy(reply.message) ==> r == "Something went wrong."
    ensures reply.NoResponse? ==> r == "Network error. Please try again."
    ensures r != ""
  {
    match reply
    case ErrorResponse(d, m) => OrDefault(OrElse(d, m), "Something went wrong.")
    case NoResponse => "Network error. Please try again."
  }

  /** `handleSubmit`: both messages are cleared, then the checks run in order; the request is made only when both pass. */
  function Submit(f: ResetForm, email: Option<string>, reply: Reply): (r: (ResetForm, Option<Post>))
    ensures r.1.Some? <==> f.newPassword != "" && f.confirmPassword != "" && f.newPassword == f.confirmPassword
    ensures r.1.Some? ==> r.1.value == Post(email, f.newPassword, f.newPassword)
    ensures f.newPassword == "" || f.confirmPassword == "" ==> r.0 == f.(error := "Both fields are required.", success := "")
    ensures f.newPassword != "" && f.confirmPassword != "" && f.newPassword != f.confirmPassword ==>
      r.0 == f.(error := "Passwords do not match.", success := "")
    ensures r.1.Some? && reply.Done? ==> r.0 == ResetForm("", "", false, "", SuccessText)
    ensures r.1.Some? && !reply.Done? ==> r.0 == f.(loading := false, error := FailureText(reply), success := "")
  {
    var cleared := f.(error := "", success := "");
    if f.newPassword == "" || f.confirmPassword == "" then (cleared.(error := "Both fields are required."), None)
    else if f.newPassword != f.confirmPassword then (cleared.(error := "Passwords do not match."), None)
    else
      var post := Post(email, f.newPassword, f.confirmPassword);
      var sending := cleared.(loading := true);
      match reply
      case Done => (sending.(success := SuccessText, newPassword := "", confirmPassword := "", loading := false), Some(post))
      case _ => (sending.(error := FailureText(reply), loading := false), Some(post))
  }

  /** Whatever the inputs and the reply, a submit leaves exactly one of the two message lines showing. */
  lemma ExactlyOneMessage(f: ResetForm, email: Option<string>, reply: Reply)
    ensures var r := Submit(f, email, reply).0; (r.error == "") != (r.success == "")
  {
  }

  /** The required check comes first: two empty inputs, though equal, are reported as missing. */
  lemma RequiredCheckFirst(f: ResetForm, email: Option<string>, reply: Reply)
    requires f.newPassword == "" && f.confirmPassword == ""
    ensures Submit(f, email, reply).0.error == "Both fields are required."
    ensures Submit(f, email, reply).1.None?
  {
  }

  /** A successful reset leaves nothing typed behind, so a second submit is refused without a request. */
  lemma ResubmitAfterSuccessIsRefused(f: ResetForm, email: Option<string>, reply: Reply)
    requires Submit(f, email, Done).1.Some?
    ensures Submit(Submit(f, email, Done).0, email, reply) == (Submit(f, email, Done).0.(error := "Both fields are required.", success := ""), None)
  {
  }
}
