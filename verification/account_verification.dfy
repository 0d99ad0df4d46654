/**
 The profile panel (AccountVerification): the app-side W9 status of the
 account and how it reads. Unlike the first verification screen, it does
 not know DB2's "W9_form_uploaded" state.
 */
module AccountVerification {
  import opened Text

  /** How the status request ended: a body (whose `status` may be missing), an empty body, or an error. */
  datatype Fetch = Data(status: Option<string>) | NoData | Failed

  /** The panel after `fetchUserW9Status`: `status` and the `error` text (None is `null`). */
  datatype Panel = Panel(status: string, error: Option<string>)

  /** A body sets the status (missing meaning "not_submitted"); an empty body changes nothing; an error sets the error text. */
  function AfterFetch(p: Panel, f: Fetch): (r: Panel)
    ensures f.Data? ==> r.error.None? && r.status == OrDefault(f.status, "not_submitted")
    ensures f.NoData? ==> r == p.(error := None)
    ensures f.Failed? ==> r == Panel(p.status, Some("Failed to fetch W9 status. Please try again."))
  {
    match f
    case Data(s) => Panel(OrDefault(s, "not_submitted"), None)
    case NoData => p.(error := None)
    case Failed => p.(error := Some("Failed to fetch W9 status. Please try again."))
  }

  /** A fetched status is never empty, so the panel never falls back to an empty status text after a body. */
  lemma FetchedStatusIsTruthy(p: Panel, s: Option<string>)
    ensures AfterFetch(p, Data(s)).status != ""
  {
  }

  /** `getStatus()`: a label per review state, and "Not Submitted" for everything else. */
  function StatusLabel(status: string): (r: string)
    ensures r == "Not Submitted" <==> !Reviewed(status)
    ensures r == "Approved" <==> status == "approved"
    ensures r == "Declined" <==> status == "declined"
    ensures r == "In Progress" <==> status == "in_progress"
  {
    match status
    case "in_progress" => "In Progress"
    case "approved" => "Approved"
    case "declined" => "Declined"
    case _ => "Not Submitted"
  }

  /**
   `getStatusText()`, which W9FromSubmission repeats word for word: empty
   off the three review states and "not_submitted".
   */
  function StatusText(status: string): (r: string)
    ensures r == "" <==> !(Reviewed(status) || status == "not_submitted")
    ensures r == "Upload your W9 form to get started." <==> status == "not_submitted"
  {
    match status
    case "not_submitted" => "Upload your W9 form to get started."
    case "in_progress" => "Your W9 form is under review."
    case "approved" => "Your W9 form has been approved!"
    case "declined" => "Your W9 form has been declined by Admin. Please upload again."
    case _ => ""
  }

  /** `getStatusColor()`, also repeated by W9FromSubmission: grey exactly off the review states. */
  function StatusColor(status: string): (r: string)
    ensures r == "text-gray-600" <==> !Reviewed(status)
    ensures r == "text-green-600" <==> status == "approved"
    ensures r == "text-red-600" <==> status == "declined"
    ensures r == "text-yellow-600" <==> status == "in_progress"
  {
    match status
    case "in_progress" => "text-yellow-600"
    case "approved" => "text-green-600"
    case "declined" => "text-red-600"
    case _ => "text-gray-600"
  }

  predicate Reviewed(status: string) {
    status == "in_progress" || status == "approved" || status == "declined"
  }

  /**
   Outside the three review states everything, DB2's "W9_form_uploaded"
   included, reads "Not Submitted" in gray; the explanatory text is empty
   except for the four statuses the app itself produces.
   */
  lemma StatusDisplay(status: string)
    ensures StatusLabel(status) == "Not Submitted" <==> !Reviewed(status)
    ensures StatusColor(status) == "text-gray-600" <==> !Reviewed(status)
    ensures StatusText(status) == "" <==> !(Reviewed(status) || status == "not_submitted")
    ensures StatusLabel("W9_form_uploaded") == "Not Submitted"
  {
  }
}
