/**
 The W9 upload dialog (W9FromSubmission): the statuses it fetches, the
 rule that accepts a chosen file, the submit guard, the progress bar, and
 which body the dialog shows.
 */
module W9Submission {
  import opened Text
  import AccountVerification

  /** A chosen file as the browser describes it. */
  datatype FileInfo = FileInfo(name: string, mimeType: string, size: nat)

  /** The dialog's state. `db2Status` starts as "" and takes whatever DB2 sends, missing included. */
  datatype Panel = Panel(
    status: string,
    file: Option<FileInfo>,
    fileUrl: string,
    error: Option<string>,
    declineReason: Option<string>,
    db2Status: Option<string>,
    checkingDb2: bool)

  const Initial := Panel("not_submitted", None, "", None, None, Some(""), true)

  // ---------------------------------------------------------------------------
  // Fetching

  const FetchFailure := "Failed to fetch W9 status. Please try again."

  /**
   Opening the dialog starts both requests at once. Each one marks itself
   as running and clears the error before it waits, so the error is
   cleared when the requests start, not when their replies land.
   */
  function OpenDialog(p: Panel): (r: Panel)
    ensures r.error.None? && r.checkingDb2
    ensures r.status == p.status && r.file == p.file && r.db2Status == p.db2Status
    ensures r.fileUrl == p.fileUrl && r.declineReason == p.declineReason
  {
    p.(checkingDb2 := true, error := None)
  }

  /** The app status request: a body with `status`, `file_url`, `decline_remark`; an empty body; or an error. */
  datatype StatusFetch = StatusData(status: Option<string>, fileUrl: Option<string>, declineRemark: Option<string>)
    | StatusNoData | StatusFailed

  /** How `fetchUserW9Status` ends: defaults "not_submitted", "" and null for the three fields; only a failure touches the error. */
  function AfterStatusFetch(p: Panel, f: StatusFetch): (r: Panel)
    ensures f.StatusData? ==> r.status == OrDefault(f.status, "not_submitted") && r.status != ""
    ensures f.StatusData? ==> r.fileUrl == OrDefault(f.fileUrl, "")
    ensures f.StatusData? ==> r.declineReason == (if Truthy(f.declineRemark) then f.declineRemark else None)
    ensures f.StatusNoData? ==> r == p
    ensures r.error == (if f.StatusFailed? then Some(FetchFailure) else p.error)
    ensures !f.StatusData? ==> r.status == p.status && r.fileUrl == p.fileUrl && r.declineReason == p.declineReason
    ensures r.file == p.file && r.db2Status == p.db2Status && r.checkingDb2 == p.checkingDb2
  {
    match f
    case StatusData(s, u, d) =>
      p.(status := OrDefault(s, "not_submitted"), fileUrl := OrDefault(u, ""),
         declineReason := if Truthy(d) then d else None)
    case StatusNoData => p
    case StatusFailed => p.(error := Some(FetchFailure))
  }

  /** The DB2 status request: a body with a (possibly missing) `status`, an empty body, or an error. */
  datatype Db2Fetch = Db2Data(status: Option<string>) | Db2NoData | Db2Failed

  /** How `fetchUserW9StatusFromDB2` ends: the check always ends, a body's status is taken as it is, and only a failure touches the error. */
  function AfterDb2Fetch(p: Panel, f: Db2Fetch): (r: Panel)
    ensures !r.checkingDb2
    ensures f.Db2Data? ==> r.db2Status == f.status
    ensures !f.Db2Data? ==> r.db2Status == p.db2Status
    ensures r.error == (if f.Db2Failed? then Some(FetchFailure) else p.error)
    ensures r.status == p.status && r.file == p.file && r.fileUrl == p.fileUrl && r.declineReason == p.declineReason
  {
    match f
    case Db2Data(s) => p.(db2Status := s, checkingDb2 := false)
    case Db2NoData => p.(checkingDb2 := false)
    case Db2Failed => p.(error := Some(FetchFailure), checkingDb2 := false)
  }

  /**
   The two replies touch different fields except the error, which both
   only ever set to the same text: whichever lands first, the dialog ends
   in the same state.
   */
  lemma FetchesCommute(p: Panel, s: StatusFetch, d: Db2Fetch)
    ensures AfterStatusFetch(AfterDb2Fetch(p, d), s) == AfterDb2Fetch(AfterStatusFetch(p, s), d)
  {
  }

  /** After opening the dialog, an error shows exactly when one of the two requests failed, in either order of the replies. */
  lemma ErrorShowsIffAFetchFailed(p: Panel, s: StatusFetch, d: Db2Fetch)
    ensures var q := OpenDialog(p);
      AfterStatusFetch(AfterDb2Fetch(q, d), s).error.Some? <==> s.StatusFailed? || d.Db2Failed?
    ensures var q := OpenDialog(p);
      AfterDb2Fetch(AfterStatusFetch(q, s), d).error.Some? <==> s.StatusFailed? || d.Db2Failed?
  {
  }

  // ---------------------------------------------------------------------------
  // Choosing and submitting a file

  const MaxFileSize: nat := 5 * 1024 * 1024

  /** `handleFileUpload`: the type check comes first, then the size check; `objectUrl` is the preview URL the browser makes. */
  function ChooseFile(p: Panel, selected: Option<FileInfo>, objectUrl: string): (r: Panel)
    ensures selected.None? ==> r == p
    ensures selected.Some? && selected.value.mimeType != "application/pdf" ==>
      r == p.(error := Some("Please upload a PDF file only."))
    ensures selected.Some? && selected.value.mimeType == "application/pdf" && selected.value.size > MaxFileSize ==>
      r == p.(error := Some("File size should not exceed 5MB."))
    ensures selected.Some? && selected.value.mimeType == "application/pdf" && selected.value.size <= MaxFileSize ==>
      r == p.(error := None, file := selected, fileUrl := objectUrl)
  {
    match selected
    case None => p
    case Some(f) =>
      if f.mimeType != "application/pdf" then p.(error := Some("Please upload a PDF file only."))
      else if f.size > 5 * 1024 * 1024 then p.(error := Some("File size should not exceed 5MB."))
      else p.(error := None, file := selected, fileUrl := objectUrl)
  }

  /** A chosen file becomes the pending file exactly when it is a PDF of at most 5 MiB; a refused one leaves the pending file alone. */
  lemma ChooseFileAccepts(p: Panel, f: FileInfo, objectUrl: string)
    ensures ChooseFile(p, Some(f), objectUrl).file == Some(f) || ChooseFile(p, Some(f), objectUrl).file == p.file
    ensures ChooseFile(p, Some(f), objectUrl).error.None? <==> f.mimeType == "application/pdf" && f.size <= 5242880
  {
  }

  /** The size limit is inclusive, and a file of the wrong type gets the type message whatever its size. */
  lemma ChooseFileBoundary(p: Panel, name: string, u: string)
    ensures ChooseFile(p, Some(FileInfo(name, "application/pdf", 5242880)), u).error.None?
    ensures ChooseFile(p, Some(FileInfo(name, "application/pdf", 5242881)), u).error == Some("File size should not exceed 5MB.")
    ensures ChooseFile(p, Some(FileInfo(name, "image/png", 5242881)), u).error == Some("Please upload a PDF file only.")
  {
  }

  datatype UploadReply = Uploaded | UploadFailed

  /** `handleSubmitW9`'s own changes (the status refetch it starts is `AfterStatusFetch`). */
  function Submit(p: Panel, reply: UploadReply): (r: Panel)
    ensures p.file.None? ==> r == p
    ensures p.file.Some? && reply.Uploaded? ==> r == p.(error := None, file := None)
    ensures p.file.Some? && reply.UploadFailed? ==> r == p.(error := Some("An error occurred during upload. Please try again."))
  {
    if p.file.None? then p
    else
      match reply
      case Uploaded => p.(error := None, file := None)
      case UploadFailed => p.(error := Some("An error occurred during upload. Please try again."))
  }

  /** A failed upload keeps the file so it can be submitted again. */
  lemma FailedSubmitKeepsFile(p: Panel)
    ensures Submit(p, UploadFailed).file == p.file
  {
  }

  // ---------------------------------------------------------------------------
  // Status text and progress

  // The status text and its colour are AccountVerification's `StatusText`
  // and `StatusColor`: the two components spell out the same tables.

  /** `progressWidth`: an object lookup, so an unknown status gives `undefined` (None); a finished review fills the bar. */
  function ProgressWidth(status: string): (r: Option<string>)
    ensures r.Some? <==> KnownStatus(status)
    ensures r == Some("0%") <==> status == "not_submitted"
    ensures r == Some("100%") <==> status == "approved" || status == "declined"
  {
    match status
    case "not_submitted" => Some("0%")
    case "in_progress" => Some("50%")
    case "approved" => Some("100%")
    case "declined" => Some("100%")
    case _ => None
  }

  /** `progressColor`: the bar takes the status text's colour, and the grey track before a submission. */
  function ProgressColor(status: string): (r: Option<string>)
    ensures r.Some? <==> KnownStatus(status)
    ensures r == Some("#10b981") <==> AccountVerification.StatusColor(status) == "text-green-600"
    ensures r == Some("#ef4444") <==> AccountVerification.StatusColor(status) == "text-red-600"
    ensures r == Some("#f59e0b") <==> AccountVerification.StatusColor(status) == "text-yellow-600"
  {
    match status
    case "not_submitted" => Some("#e5e7eb")
    case "in_progress" => Some("#f59e0b")
    case "approved" => Some("#10b981")
    case "declined" => Some("#ef4444")
    case _ => None
  }

  predicate KnownStatus(status: string) {
    status in {"not_submitted", "in_progress", "approved", "declined"}
  }

  /** The bar, its colour and the status text are all defined on the same four statuses. */
  lemma ProgressDefinedOnKnownStatuses(status: string)
    ensures ProgressWidth(status).Some? <==> ProgressColor(status).Some?
    ensures ProgressWidth(status).Some? <==> AccountVerification.StatusText(status) != ""
  {
  }

  // ---------------------------------------------------------------------------
  // Which body the dialog shows

  datatype Body = Checking | AlreadyUploaded | StatusBody(uploadArea: bool)

  /** The body as written: the status and upload area appear only when DB2 says "W9_form_uploaded". */
  function BodyAsWritten(p: Panel): (r: Body)
    ensures p.checkingDb2 ==> r == Checking
    ensures !p.checkingDb2 && p.db2Status != Some("W9_form_uploaded") ==> r == AlreadyUploaded
    ensures !p.checkingDb2 && p.db2Status == Some("W9_form_uploaded") ==> r == StatusBody(p.status != "approved")
  {
    if p.checkingDb2 then Checking
    else if p.db2Status != Some("W9_form_uploaded") then AlreadyUploaded
    else StatusBody(p.status != "approved")
  }

  /** A provider DB2 reports as not uploaded is told the form is already uploaded and gets no upload area. */
  lemma NotUploadedIsToldUploaded(p: Panel)
    requires !p.checkingDb2 && p.db2Status == Some("W9_form_not_uploaded")
    ensures BodyAsWritten(p) == AlreadyUploaded
    ensures BodyAsWritten(p) != StatusBody(true)
  {
  }

  /** The body as its message says: "already uploaded" exactly when DB2 has the form. */
  function DisplayedBody(p: Panel): (r: Body)
    ensures p.checkingDb2 ==> r == Checking
  {
    if p.checkingDb2 then Checking
    else if p.db2Status == Some("W9_form_uploaded") then AlreadyUploaded
    else StatusBody(p.status != "approved")
  }

  /**
   With the check finished, "already uploaded" shows exactly when DB2 has
   the form, and the upload area exactly when DB2 lacks it and the app
   status is not approved.
   */
  lemma DisplayedBodyMatchesDb2(p: Panel)
    requires !p.checkingDb2
    ensures DisplayedBody(p) == AlreadyUploaded <==> p.db2Status == Some("W9_form_uploaded")
    ensures DisplayedBody(p) == StatusBody(true) <==> p.db2Status != Some("W9_form_uploaded") && p.status != "approved"
  {
  }
}
