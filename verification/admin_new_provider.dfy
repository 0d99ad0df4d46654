/**
 The pending-provider approvals page (AdminNewProviderAdd): the per-button
 loading slots, the decline-remark dialog and its guard, and how one
 pending provider's card shows its ZIP code, its status and its buttons.
 */
module AdminNewProviderAdd {
  import opened Text

  // ---------------------------------------------------------------------------
  // The loading slots

  /** `actionLoading`: an object whose keys name slots and whose values are provider ids or null. */
  type Slots = map<string, Option<int>>

  /** The initial value and the value every action leaves behind: `{ approve: null, decline: null }`. */
  const Idle: Slots := map["approve" := None, "decline" := None]

  /** The approve button's caption for a card. */
  function ApproveCaption(slots: Slots, id: int): (r: string)
    ensures r == "Approving..." <==> "approve" in slots && slots["approve"] == Some(id)
  {
    if "approve" in slots && slots["approve"] == Some(id) then "Approving..." else "Approve"
  }

  /** The body `handleAction` posts to the approve endpoint of provider `id`. */
  datatype Request = Request(id: Option<int>, action: string, declineRemark: string)

  /** `handleAction`'s first step as written: the slot named by the action word itself takes the id. */
  function StartActionAsWritten(slots: Slots, id: int, action: string): (r: Slots)
    ensures action in r && r[action] == Some(id)
    ensures forall k :: k != action ==> (k in r <==> k in slots) && (k in slots ==> r[k] == slots[k])
  {
    slots[action := Some(id)]
  }

  /**
   The approve button sends "approved", which fills a new `approved` slot;
   the caption reads the `approve` slot, so "Approving..." never shows.
   */
  lemma ApprovingIsNeverShown(id: int)
    ensures StartActionAsWritten(Idle, id, "approved")["approved"] == Some(id)
    ensures ApproveCaption(StartActionAsWritten(Idle, id, "approved"), id) == "Approve"
  {
  }

  /** The two actions a card offers. */
  datatype Action = Approve | Decline

  /** The word posted as `action`. */
  function ActionWord(a: Action): string {
    match a
    case Approve => "approved"
    case Decline => "declined"
  }

  /** The loading slot the render reads for an action. */
  function SlotName(a: Action): string {
    match a
    case Approve => "approve"
    case Decline => "decline"
  }

  /** The loading slot as the captions read it: the action's own slot takes the id, the other is untouched. */
  function StartAction(slots: Slots, id: int, a: Action): (r: Slots)
    ensures SlotName(a) in r && r[SlotName(a)] == Some(id)
    ensures forall k :: k != SlotName(a) ==> (k in r <==> k in slots) && (k in slots ==> r[k] == slots[k])
  {
    slots[SlotName(a) := Some(id)]
  }

  /** With the slot keyed as the render reads it, an approve in flight shows "Approving..." on that card only. */
  lemma ApprovingIsShownWhileInFlight(id: int, other: int)
    requires other != id
    ensures ApproveCaption(StartAction(Idle, id, Approve), id) == "Approving..."
    ensures ApproveCaption(StartAction(Idle, id, Approve), other) == "Approve"
    ensures ApproveCaption(StartAction(Idle, id, Decline), id) == "Approve"
  {
  }

  /** One run of `handleAction`: the request it posts, the slots while it is in flight, and the slots afterwards. */
  datatype ActionRun = ActionRun(request: Request, inFlight: Slots, after: Slots)

  /** `handleAction` with the slot keyed as the render reads it; its `finally` empties both slots. */
  function HandleAction(slots: Slots, id: int, a: Action, remark: string): (r: ActionRun)
    ensures r.request == Request(Some(id), ActionWord(a), remark)
    ensures r.after == Idle
  {
    ActionRun(Request(Some(id), ActionWord(a), remark), StartAction(slots, id, a), Idle)
  }

  /** After any action, whatever was in flight before, both slots are null and every caption is back to its resting text. */
  lemma SlotsEmptyAfterEveryAction(slots: Slots, id: int, a: Action, remark: string, card: int)
    ensures HandleAction(slots, id, a, remark).after["approve"].None?
    ensures HandleAction(slots, id, a, remark).after["decline"].None?
    ensures ApproveCaption(HandleAction(slots, id, a, remark).after, card) == "Approve"
  {
  }

  /**
   Two approvals started on different cards overlap: the first to finish
   empties both slots, so the card still in flight shows "Approve" again.
   */
  lemma FirstToFinishClearsTheOther(slots: Slots, a: int, b: int)
    requires a != b
    ensures var second := HandleAction(HandleAction(slots, a, Approve, "").inFlight, b, Approve, "");
      ApproveCaption(second.inFlight, b) == "Approving..."
      && ApproveCaption(HandleAction(slots, a, Approve, "").after, b) == "Approve"
  {
  }

  // ---------------------------------------------------------------------------
  // The decline dialog

  /** The dialog: whether it is open, the typed remark, and the provider it is for. */
  datatype DeclineDialog = DeclineDialog(open: bool, remark: string, selected: Option<int>)

  const Closed := DeclineDialog(false, "", None)

  /** `openDeclineModal`. */
  function OpenDeclineModal(d: DeclineDialog, id: int): (r: DeclineDialog)
    ensures r.open && r.remark == "" && r.selected == Some(id)
  {
    DeclineDialog(true, "", Some(id))
  }

  /** What `confirmDecline` did: the dialog afterwards, the alert it raised, the request it made. */
  datatype Confirmed = Confirmed(dialog: DeclineDialog, alert: Option<string>, request: Option<Request>)

  /** `confirmDecline`: a remark that trims to nothing only raises an alert. */
  function ConfirmDecline(d: DeclineDialog): (r: Confirmed)
    ensures r.request.Some? <==> !IsBlank(d.remark)
    ensures r.request.None? ==> r == Confirmed(d, Some("Please enter a decline remark."), None)
    ensures r.request.Some? ==>
      r.request.value == Request(d.selected, "declined", d.remark) && r.alert.None? && r.dialog == d.(open := false)
  {
    TrimEmptyIffBlank(d.remark);
    if Trim(d.remark) == "" then Confirmed(d, Some("Please enter a decline remark."), None)
    else Confirmed(d.(open := false), None, Some(Request(d.selected, "declined", d.remark)))
  }

  /**
   Opening the dialog and confirming at once is refused; typing a remark
   that is not blank and confirming declines exactly the provider the
   dialog was opened for, with that remark, as the decline button would.
   */
  lemma DeclineGoesToTheOpenedProvider(d: DeclineDialog, id: int, typed: string)
    ensures ConfirmDecline(OpenDeclineModal(d, id)).request.None?
    ensures ConfirmDecline(OpenDeclineModal(d, id)).dialog.open
    ensures !IsBlank(typed) ==>
      ConfirmDecline(OpenDeclineModal(d, id).(remark := typed)).request == Some(HandleAction(Idle, id, Decline, typed).request)
  {
  }

  // ---------------------------------------------------------------------------
  // One card

  /** What JSX prints for a value: nothing for a missing one. */
  function Shown(o: Option<string>): string {
    o.GetOr("")
  }

  /** The ZIP line: ZIP5, then " - ZIP4" when ZIP4 is non-empty, then " (ZIP2)" when ZIP2 is non-empty. */
  function ZipText(zip5: Option<string>, zip4: Option<string>, zip2: Option<string>): (r: string)
    ensures Truthy(zip4) && Truthy(zip2) ==> r == Shown(zip5) + " - " + zip4.value + " (" + zip2.value + ")"
  {
    Shown(zip5) + (if Truthy(zip4) then " - " + zip4.value else "")
    + (if Truthy(zip2) then " (" + zip2.value + ")" else "")
  }

  /** The " (ZIP2)" part read back from what follows ZIP4. */
  function ParseZip2(rest: string): Option<string> {
    if |rest| >= 3 && rest[..2] == " (" && rest[|rest| - 1] == ')' then Some(rest[2..|rest| - 1]) else None
  }

  /** The " - ZIP4" part read back from what follows ZIP5, and what is left after it. */
  function ParseZip4(rest: string): (Option<string>, string) {
    if |rest| >= 3 && rest[..3] == " - " then
      var zip4 := DigitPrefix(rest[3..]);
      (Some(zip4), rest[3 + |zip4|..])
    else (None, rest)
  }

  /** A ZIP line read back: the leading digits, then a " - " part, then a " (...)" part. */
  function ParseZip(s: string): (string, Option<string>, Option<string>) {
    var zip5 := DigitPrefix(s);
    var (zip4, rest) := ParseZip4(s[|zip5|..]);
    (zip5, zip4, ParseZip2(rest))
  }

  /** The text ZipText puts after ZIP4. */
  function Zip2Tail(zip2: Option<string>): string {
    if Truthy(zip2) then " (" + zip2.value + ")" else ""
  }

  /** The " (ZIP2)" part reads back as the ZIP2 that was shown. */
  lemma Zip2TailReadsBack(zip2: Option<string>)
    ensures ParseZip2(Zip2Tail(zip2)) == (if Truthy(zip2) then zip2 else None)
  {
    var t := Zip2Tail(zip2);
    if Truthy(zip2) {
      assert t[..2] == " (" && t[|t| - 1] == ')';
      assert t[2..|t| - 1] == zip2.value;
    }
  }

  /** The " - ZIP4" part reads back as the ZIP4 that was shown, leaving the ZIP2 part. */
  lemma Zip4TailReadsBack(zip4: Option<string>, zip2: Option<string>)
    requires zip4.Some? ==> AllDigits(zip4.value)
    ensures ParseZip4((if Truthy(zip4) then " - " + zip4.value else "") + Zip2Tail(zip2))
      == (if Truthy(zip4) then zip4 else None, Zip2Tail(zip2))
  {
    var t2 := Zip2Tail(zip2);
    if Truthy(zip4) {
      var t := " - " + zip4.value + t2;
      assert t[..3] == " - ";
      assert t[3..] == zip4.value + t2;
      DigitPrefixOfDigitsThen(zip4.value, t2);
      assert t[3 + |zip4.value|..] == t2;
    } else {
      assert "" + t2 == t2;
      assert |t2| >= 3 ==> t2[1] == '(';
    }
  }

  /** A line that starts with a digit run and goes on with a non-digit reads back part by part. */
  lemma ParseZipOfDigitsThen(zip5: string, tail: string)
    requires AllDigits(zip5)
    requires tail == [] || tail[0] == ' '
    ensures ParseZip(zip5 + tail) == (zip5, ParseZip4(tail).0, ParseZip2(ParseZip4(tail).1))
  {
    DigitPrefixOfDigitsThen(zip5, tail);
    assert (zip5 + tail)[|zip5|..] == tail;
  }

  /**
   For digit-only ZIP parts the line is unambiguous: reading it back gives
   ZIP5 and exactly the optional parts that were shown.
   */
  lemma ZipTextReadsBack(zip5: string, zip4: Option<string>, zip2: Option<string>)
    requires AllDigits(zip5)
    requires zip4.Some? ==> AllDigits(zip4.value)
    requires zip2.Some? ==> AllDigits(zip2.value)
    ensures ParseZip(ZipText(Some(zip5), zip4, zip2))
      == (zip5, if Truthy(zip4) then zip4 else None, if Truthy(zip2) then zip2 else None)
  {
    var head := if Truthy(zip4) then " - " + zip4.value else "";
    var tail := head + Zip2Tail(zip2);
    assert ZipText(Some(zip5), zip4, zip2) == zip5 + tail;
    assert tail == [] || tail[0] == ' ';
    ParseZipOfDigitsThen(zip5, tail);
    Zip4TailReadsBack(zip4, zip2);
    Zip2TailReadsBack(zip2);
  }

  /** The status text's colour class. */
  function StatusColor(status: Option<string>): (r: string)
    ensures r == "text-green-600 font-semibold" <==> status == Some("approved")
    ensures r == "text-red-600 font-semibold" <==> status == Some("declined")
    ensures r == "text-yellow-600 font-semibold" <==> status != Some("approved") && status != Some("declined")
  {
    if status == Some("approved") then "text-green-600 font-semibold"
    else if status == Some("declined") then "text-red-600 font-semibold"
    else "text-yellow-600 font-semibold"
  }

  /** Approve and Decline are offered exactly on pending cards, which are drawn yellow. */
  predicate ShowsButtons(status: Option<string>)
    ensures ShowsButtons(status) ==> StatusColor(status) == "text-yellow-600 font-semibold"
  {
    status == Some("pending")
  }

  /** Every card with buttons is drawn yellow, and a decided card (green or red) has none. */
  lemma ButtonsOnlyOnYellowCards(status: Option<string>)
    ensures ShowsButtons(status) ==> StatusColor(status) == "text-yellow-600 font-semibold"
    ensures StatusColor(status) != "text-yellow-600 font-semibold" ==> !ShowsButtons(status)
  {
  }
}
