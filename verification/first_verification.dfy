/**
 The W9 gate shown after sign-in (FirstVerificationScreen): which provider
 number is being checked, how its DB2 and app W9 statuses are merged into
 one, and what the merged status reads as.
 */
module FirstVerification {
  import opened Text
  import opened Providers

  // ---------------------------------------------------------------------------
  // Fetching and merging the two statuses

  /** How a status request ended: a body (whose `status` may be missing), an empty body, or an error. */
  datatype Fetch = Data(status: Option<string>) | NoData | Failed

  /** Both fetchers: the reported status, or "not_submitted" when it is missing or the request fails. */
  function FetchedStatus(f: Fetch): (r: string)
    ensures r != ""
    ensures f.Data? && Truthy(f.status) ==> r == f.status.value
    ensures !(f.Data? && Truthy(f.status)) ==> r == "not_submitted"
  {
    match f
    case Data(s) => OrDefault(s, "not_submitted")
    case _ => "not_submitted"
  }

  predicate Db2Cleared(db2: string) {
    db2 == "W9_form_uploaded" || db2 == "approved"
  }

  predicate Db2Pending(db2: string) {
    db2 == "W9_form_not_uploaded" || db2 == "not_submitted"
  }

  predicate AppDecided(app: string) {
    app == "approved" || app == "in_progress" || app == "declined"
  }

  /** `fetchCombinedW9Status`: DB2's cleared state first, then the app's review state, then DB2's pending state, then the app's. */
  function Combined(db2: string, app: string): (r: string)
    ensures r == db2 || r == app
    ensures Db2Cleared(db2) ==> r == db2
    ensures !Db2Cleared(db2) && AppDecided(app) ==> r == app
    ensures !Db2Cleared(db2) && !AppDecided(app) && Db2Pending(db2) ==> r == db2
    ensures !Db2Cleared(db2) && !AppDecided(app) && !Db2Pending(db2) ==> r == app
  {
    if db2 == "W9_form_uploaded" || db2 == "approved" then db2
    else if app == "approved" then "approved"
    else if app == "in_progress" then "in_progress"
    else if app == "declined" then "declined"
    else if db2 == "W9_form_not_uploaded" || db2 == "not_submitted" then db2
    else app
  }

  /** `isW9Approved`: the gate opens on exactly the statuses DB2 reports as cleared. */
  predicate IsW9Approved(status: string)
    ensures IsW9Approved(status) <==> Db2Cleared(status)
  {
    status == "approved" || status == "W9_form_uploaded"
  }

  /** With a recognised DB2 status, the merged status is approved iff DB2 cleared it or the app approved it. */
  lemma ApprovedWhenDb2Recognised(db2: string, app: string)
    requires Db2Cleared(db2) || Db2Pending(db2)
    ensures IsW9Approved(Combined(db2, app)) <==> Db2Cleared(db2) || app == "approved"
  {
  }

  /** In general an unrecognised DB2 status also lets an app-side "W9_form_uploaded" through. */
  lemma ApprovedExactly(db2: string, app: string)
    ensures IsW9Approved(Combined(db2, app)) <==>
      Db2Cleared(db2) || app == "approved" || (app == "W9_form_uploaded" && !Db2Pending(db2))
  {
  }

  /** When both requests fail the merged status is "not_submitted", which is not approved. */
  lemma BothFetchesFailed()
    ensures Combined(FetchedStatus(Failed), FetchedStatus(Failed)) == "not_submitted"
    ensures !IsW9Approved(Combined(FetchedStatus(Failed), FetchedStatus(Failed)))
  {
  }

  // ---------------------------------------------------------------------------
  // Which provider number is checked

  predicate SameIdAsActive(active: Option<Provider>, p: Provider) {
    active.Some? && p.id == active.value.id
  }

  /** The initialising effect: with nothing selected, the approved entry matching the active provider, else the first one. */
  function InitialSelection(selected: Option<Provider>, approved: seq<Provider>, active: Option<Provider>): (r: Option<Provider>)
    ensures selected.Some? || approved == [] ==> r == selected
    ensures selected.None? && approved != [] ==> r.Some? && r.value in approved
  {
    if selected.None? && |approved| > 0 then
      match Find(approved, p => SameIdAsActive(active, p))
      case Some(p) => Some(p)
      case None => Some(approved[0])
    else selected
  }

  /**
   The initial pick is the first approved entry with the active provider's
   id when there is one, and the first approved entry otherwise.
   */
  lemma InitialSelectionPrefersActive(approved: seq<Provider>, active: Option<Provider>, i: nat)
    requires i < |approved| && SameIdAsActive(active, approved[i])
    requires forall j :: 0 <= j < i ==> !SameIdAsActive(active, approved[j])
    ensures InitialSelection(None, approved, active) == Some(approved[i])
  {
    FindIsFirst(approved, p => SameIdAsActive(active, p), i);
  }

  /** Without an approved entry for the active provider, the first approved entry is picked. */
  lemma InitialSelectionDefaultsToFirst(approved: seq<Provider>, active: Option<Provider>)
    requires approved != []
    requires forall j :: 0 <= j < |approved| ==> !SameIdAsActive(active, approved[j])
    ensures InitialSelection(None, approved, active) == Some(approved[0])
  {
  }

  /** `currentProviderNo`: the selected entry's number, else the active provider's, else the stored user's. */
  function CurrentProviderNo(selected: Option<Provider>, active: Option<Provider>, userProviderNo: Option<string>): (r: Option<string>)
    ensures selected.Some? && Truthy(selected.value.providerNo) ==> r == selected.value.providerNo
    ensures !(selected.Some? && Truthy(selected.value.providerNo)) && active.Some? && Truthy(active.value.providerNo) ==> r == active.value.providerNo
  {
    var fromSelected := if selected.Some? then selected.value.providerNo else None;
    var fromActive := if active.Some? then active.value.providerNo else None;
    OrElse(OrElse(fromSelected, fromActive), userProviderNo)
  }

  /** The stored user's number is used exactly when neither provider has a truthy one. */
  lemma CurrentProviderNoFallsBackToUser(selected: Option<Provider>, active: Option<Provider>, userProviderNo: Option<string>)
    requires !(selected.Some? && Truthy(selected.value.providerNo))
    requires !(active.Some? && Truthy(active.value.providerNo))
    ensures CurrentProviderNo(selected, active, userProviderNo) == userProviderNo
  {
  }

  /** `handleProviderChange`: the option value is parsed as a decimal integer and looked up among the approved entries. */
  function ProviderChange(selected: Option<Provider>, approved: seq<Provider>, value: string): (r: Option<Provider>)
    ensures r == selected || (r.Some? && r.value in approved && r.value.id.Num? && Some(r.value.id.n) == ParseInt(value))
  {
    match ParseInt(value)
    case None => selected
    case Some(n) =>
      match Find(approved, (p: Provider) => p.id == Num(n))
      case Some(p) => Some(p)
      case None => selected
  }

  /** Picking the option of a numbered entry selects the first approved entry with that number. */
  lemma ProviderChangeToOption(selected: Option<Provider>, approved: seq<Provider>, i: nat, n: nat)
    requires i < |approved| && approved[i].id == Num(n)
    requires forall j :: 0 <= j < i ==> approved[j].id != Num(n)
    ensures ProviderChange(selected, approved, Decimal(n)) == Some(approved[i])
  {
    ParseIntReadsDecimal(n);
    FindIsFirst(approved, (p: Provider) => p.id == Num(n), i);
  }

  /** A value that is not a number leaves the selection alone. */
  lemma ProviderChangeIgnoresNonNumbers(selected: Option<Provider>, approved: seq<Provider>, value: string)
    requires ParseInt(value).None?
    ensures ProviderChange(selected, approved, value) == selected
  {
  }

  // ---------------------------------------------------------------------------
  // How the merged status reads

  /** `getStatus()`: each label names one status, and "Not Submitted" covers every status neither cleared nor reviewed. */
  function StatusLabel(status: string): (r: string)
    ensures r == "W9 Form Uploaded" <==> status == "W9_form_uploaded"
    ensures r == "Approved" <==> status == "approved"
    ensures r == "In Progress" <==> status == "in_progress"
    ensures r == "Declined" <==> status == "declined"
    ensures r == "Not Submitted" <==> !(IsW9Approved(status) || AppDecided(status))
  {
    match status
    case "W9_form_uploaded" => "W9 Form Uploaded"
    case "W9_form_not_uploaded" => "Not Submitted"
    case "in_progress" => "In Progress"
    case "approved" => "Approved"
    case "declined" => "Declined"
    case _ => "Not Submitted"
  }

  /** `getStatusText()`: empty off the six known statuses; both pending statuses ask for an upload. */
  function StatusText(status: string): (r: string)
    ensures r == "" <==> !KnownStatus(status)
    ensures r == "Upload your W9 form to get started." <==> Db2Pending(status)
  {
    match status
    case "W9_form_uploaded" => "Your W9 form has been uploaded!"
    case "W9_form_not_uploaded" => "Upload your W9 form to get started."
    case "not_submitted" => "Upload your W9 form to get started."
    case "in_progress" => "Your W9 form is under review."
    case "approved" => "Your W9 form has been approved!"
    case "declined" => "Your W9 form has been declined by Admin. Please upload again."
    case _ => ""
  }

  /** `getStatusColor()`: green exactly where the gate opens, red for a declined form, grey for the rest of the unknown or unsubmitted. */
  function StatusColor(status: string): (r: string)
    ensures r == "text-green-600" <==> IsW9Approved(status)
    ensures r == "text-red-600" <==> status == "declined"
    ensures r == "text-yellow-600" <==> status == "W9_form_not_uploaded" || status == "in_progress"
    ensures r == "text-gray-600" <==> !KnownStatus(status) || status == "not_submitted"
  {
    match status
    case "W9_form_uploaded" => "text-green-600"
    case "W9_form_not_uploaded" => "text-yellow-600"
    case "in_progress" => "text-yellow-600"
    case "approved" => "text-green-600"
    case "declined" => "text-red-600"
    case _ => "text-gray-600"
  }

  predicate KnownStatus(status: string) {
    status in {"W9_form_uploaded", "W9_form_not_uploaded", "not_submitted", "in_progress", "approved", "declined"}
  }

  /** Green marks exactly the approved states; "Not Submitted" every state that is neither uploaded nor under or past review. */
  lemma StatusDisplayAgreesWithGate(status: string)
    ensures StatusColor(status) == "text-green-600" <==> IsW9Approved(status)
    ensures StatusLabel(status) == "Not Submitted" <==> !(IsW9Approved(status) || AppDecided(status))
    ensures StatusText(status) == "" <==> !KnownStatus(status)
  {
  }
}
