/**
 The "Manage Providers" dialog (ProviderSettings): adding a provider
 number after checking it against DB2, the guard that keeps the last
 approved number, the per-row badges and buttons, and switching the active
 provider after a new primary is chosen.
 */
module ProviderSettings {
  import opened Text
  import opened Providers
  import FirstVerification

  // ---------------------------------------------------------------------------
  // Adding a provider number

  /** The DB2 check's answer (`is_exist`, `is_already_registered`, both read for truthiness), or a thrown error. */
  datatype Check = Checked(isExist: bool, isAlreadyRegistered: bool) | CheckThrown

  /** The add call's answer: the success `message`, or a thrown error with `response.data.error`. */
  datatype AddReply = Added(message: Option<string>) | AddThrown(error: Option<string>)

  datatype Toast = Success(text: string) | Failure(text: string)

  /** What `handleAddProvider` did: its toast, the input box afterwards, and the number it posted, if any. */
  datatype AddResult = AddResult(toast: Toast, input: string, posted: Option<string>)

  /** `handleAddProvider`: blank input, an unknown number, an already registered number and a failed check stop before the add call. */
  function AddProvider(input: string, check: Check, reply: AddReply): (r: AddResult)
    ensures r.posted.Some? <==> !IsBlank(input) && check == Checked(true, false)
    ensures r.posted.Some? ==> r.posted.value == input
    ensures IsBlank(input) ==> r == AddResult(Failure("Please enter a provider number"), input, None)
    ensures r.posted.None? ==> r.input == input && r.toast.Failure?
    ensures r.posted.Some? && reply.Added? ==> r.input == "" && r.toast == Success(OrDefault(reply.message, "Provider submitted for admin approval."))
    ensures r.posted.Some? && reply.AddThrown? ==> r.input == input && r.toast == Failure(OrDefault(reply.error, "Failed to add provider"))
  {
    TrimEmptyIffBlank(input);
    if Trim(input) == "" then AddResult(Failure("Please enter a provider number"), input, None)
    else
      match check
      case CheckThrown => AddResult(Failure("Validation failed. Try again."), input, None)
      case Checked(exists_, registered) =>
        if !exists_ then AddResult(Failure("Provider number is invalid."), input, None)
        else if registered then AddResult(Failure("This provider number is already registered under another account."), input, None)
        else
          match reply
          case Added(m) => AddResult(Success(OrDefault(m, "Provider submitted for admin approval.")), "", Some(input))
          case AddThrown(e) => AddResult(Failure(OrDefault(e, "Failed to add provider")), input, Some(input))
  }

  /** A number DB2 does not know is refused with the same message whether or not it is flagged as registered. */
  lemma UnknownNumberRefused(input: string, registered: bool, reply: AddReply)
    requires !IsBlank(input)
    ensures AddProvider(input, Checked(false, registered), reply) == AddResult(Failure("Provider number is invalid."), input, None)
  {
    TrimEmptyIffBlank(input);
  }

  // ---------------------------------------------------------------------------
  // Removing a provider number

  datatype RemoveRequest = Refused | Confirming(id: ProviderId)

  predicate HasId(id: ProviderId, p: Provider) {
    p.id == id
  }

  /** `openRemoveConfirm`: refused iff the entry with that id is approved and at most one entry is approved. */
  function OpenRemoveConfirm(list: seq<Provider>, id: ProviderId): (r: RemoveRequest)
    ensures r.Refused? <==> (exists i :: 0 <= i < |list| && HasId(id, list[i])) && IsApproved(Find(list, p => HasId(id, p)).value) && ApprovedCount(list) <= 1
    ensures r.Confirming? ==> r.id == id
  {
    match Find(list, p => HasId(id, p))
    case Some(pn) => if IsApproved(pn) && ApprovedCount(list) <= 1 then Refused else Confirming(id)
    case None => Confirming(id)
  }

  /**
   The list the server is taken to return after the DELETE: the list with
   the first entry carrying the id left out, or the list unchanged when no
   entry carries it.
   */
  function Removed(list: seq<Provider>, id: ProviderId): (r: seq<Provider>)
    ensures (forall j :: 0 <= j < |list| ==> list[j].id != id) ==> r == list
    ensures forall i :: 0 <= i < |list| && list[i].id == id && (forall j :: 0 <= j < i ==> list[j].id != id) ==>
      r == list[..i] + list[i + 1..]
  {
    match FirstIndex(list, p => HasId(id, p))
    case None => list
    case Some(i) => list[..i] + list[i + 1..]
  }

  /** How the DELETE and the list request that follows it ended: the refetched list, or a thrown error with `response.data.error`. */
  datatype RemoveReply = Refetched(list: seq<Provider>) | RemoveThrown(error: Option<string>)

  /** `handleRemove` after the dialog closed: the list it stores and the toast it shows. */
  function HandleRemove(list: seq<Provider>, reply: RemoveReply): (r: (seq<Provider>, Toast))
    ensures reply.Refetched? ==> r == (reply.list, Success("Provider removed"))
    ensures reply.RemoveThrown? ==> r.0 == list && r.1.Failure? && r.1.text != ""
    ensures reply.RemoveThrown? && Truthy(reply.error) ==> r.1.text == reply.error.value
  {
    match reply
    case Refetched(xs) => (xs, Success("Provider removed"))
    case RemoveThrown(e) => (list, Failure(OrDefault(e, "Failed to remove provider")))
  }

  /** Splitting the list around one entry splits its approved count. */
  lemma ApprovedCountAround(list: seq<Provider>, i: nat)
    requires i < |list|
    ensures ApprovedCount(list) == ApprovedCount(list[..i]) + (if IsApproved(list[i]) then 1 else 0) + ApprovedCount(list[i + 1..])
    ensures ApprovedCount(list[..i] + list[i + 1..]) == ApprovedCount(list[..i]) + ApprovedCount(list[i + 1..])
  {
    assert list == list[..i] + ([list[i]] + list[i + 1..]);
    ApprovedOnlyConcat(list[..i], [list[i]] + list[i + 1..]);
    ApprovedOnlyConcat([list[i]], list[i + 1..]);
    assert [list[i]][1..] == [];
    ApprovedOnlyConcat(list[..i], list[i + 1..]);
  }

  /**
   A removal the guard lets through never takes the account from having an
   approved number to having none, provided the server's refetched list is
   `Removed`; a failed removal keeps the list as it was.
   */
  lemma AcceptedRemovalKeepsAnApproved(list: seq<Provider>, id: ProviderId, reply: RemoveReply)
    requires ApprovedCount(list) >= 1
    requires OpenRemoveConfirm(list, id).Confirming?
    requires reply.Refetched? ==> reply.list == Removed(list, id)
    ensures ApprovedCount(HandleRemove(list, reply).0) >= 1
  {
    if reply.Refetched? {
      match FirstIndex(list, p => HasId(id, p))
      case None =>
      case Some(i) =>
        ApprovedCountAround(list, i);
    }
  }

  // ---------------------------------------------------------------------------
  // One row of the list

  /**
   The "W9 Needed" badge and the "Upload W9" button: on an approved row
   exactly when its W9 status would keep the W9 gate closed.
   */
  predicate ShowsW9Needed(p: Provider)
    ensures ShowsW9Needed(p) <==> IsApproved(p) && !(p.w9Status.Some? && FirstVerification.IsW9Approved(p.w9Status.value))
  {
    IsApproved(p) && !W9Cleared(p.w9Status)
  }

  /** The "Primary" badge: only on approved rows. */
  predicate ShowsPrimary(p: Provider)
    ensures ShowsPrimary(p) ==> IsApproved(p) && p.isPrimary
  {
    IsApproved(p) && p.isPrimary
  }

  /** The "Set Primary" button: only on approved rows, and never next to the "Primary" badge. */
  predicate ShowsSetPrimary(p: Provider)
    ensures ShowsSetPrimary(p) ==> IsApproved(p) && !ShowsPrimary(p)
  {
    IsApproved(p) && !p.isPrimary
  }

  /** The "Remove" button: never shown where the removal guard refuses, that is on the only approved entry. */
  predicate ShowsRemove(p: Provider, list: seq<Provider>)
    ensures ShowsRemove(p, list) ==> p.id.Num? && !(IsApproved(p) && ApprovedCount(list) <= 1)
  {
    p.id.Num? && (!IsApproved(p) || ApprovedCount(list) > 1)
  }

  /** An approved row shows exactly one of "Primary" and "Set Primary"; any other row shows neither, nor "W9 Needed". */
  lemma RowBadges(p: Provider)
    ensures IsApproved(p) ==> ShowsPrimary(p) != ShowsSetPrimary(p)
    ensures !IsApproved(p) ==> !ShowsPrimary(p) && !ShowsSetPrimary(p) && !ShowsW9Needed(p)
  {
  }

  /** Clicking a shown "Remove" on the first row with its id is never refused by the guard. */
  lemma ShownRemoveIsAccepted(list: seq<Provider>, i: nat)
    requires i < |list| && ShowsRemove(list[i], list)
    requires forall j :: 0 <= j < i ==> list[j].id != list[i].id
    ensures OpenRemoveConfirm(list, list[i].id) == Confirming(list[i].id)
  {
    FindIsFirst(list, p => HasId(list[i].id, p), i);
  }

  // ---------------------------------------------------------------------------
  // Set primary

  /** After `handleSetPrimary` refreshes the list: the active provider becomes its first primary entry, if any. */
  function AfterSetPrimary(active: Option<Provider>, refreshed: seq<Provider>): (r: Option<Provider>)
    ensures r == active || (r.Some? && r.value in refreshed && r.value.isPrimary)
  {
    match Find(refreshed, (p: Provider) => p.isPrimary)
    case Some(p) => Some(p)
    case None => active
  }

  /** The active provider changes exactly when the refreshed list has a primary entry, and then to the first one. */
  lemma SetPrimarySwitchesToFirstPrimary(active: Option<Provider>, refreshed: seq<Provider>, i: nat)
    requires i < |refreshed| && refreshed[i].isPrimary
    requires forall j :: 0 <= j < i ==> !refreshed[j].isPrimary
    ensures AfterSetPrimary(active, refreshed) == Some(refreshed[i])
  {
    FindIsFirst(refreshed, (p: Provider) => p.isPrimary, i);
  }

  lemma SetPrimaryWithoutPrimaryKeepsActive(active: Option<Provider>, refreshed: seq<Provider>)
    requires forall j :: 0 <= j < |refreshed| ==> !refreshed[j].isPrimary
    ensures AfterSetPrimary(active, refreshed) == active
  {
  }
}
