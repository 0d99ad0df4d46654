/**
 The W9 validation panel (AdminValidations): search, header sort, the row
 order on screen, the status badge, the local update after an approve or
 decline, and which actions a row offers.
 */
module AdminValidations {
  import opened Text
  import opened Sorting

  /** One row of the admin W9 list. */
  datatype W9User = W9User(
    userId: int,
    email: Option<string>,
    providerNo: Option<string>,
    status: Option<string>,
    uploadedAt: Option<string>,
    declineRemark: Option<string>)

  // ---------------------------------------------------------------------------
  // Search

  /** One searched column: present and, lower-cased, includes the lower-cased query (nothing is trimmed). */
  predicate ColumnMatches(v: Option<string>, query: string) {
    v.Some? && Includes(Lower(v.value), Lower(query))
  }

  /** `filteredList`: the users whose e-mail or provider number matches, in list order. */
  function FilteredList(users: seq<W9User>, query: string): (r: seq<W9User>)
    ensures |r| <= |users|
    ensures forall u :: u in r <==> u in users && (ColumnMatches(u.email, query) || ColumnMatches(u.providerNo, query))
  {
    if users == [] then []
    else
      var u := users[0];
      (if ColumnMatches(u.email, query) || ColumnMatches(u.providerNo, query) then [u] else [])
      + FilteredList(users[1..], query)
  }

  /** The search keeps list order and multiplicity: it distributes over concatenation. */
  lemma {:induction false} FilteredListConcat(a: seq<W9User>, b: seq<W9User>, query: string)
    ensures FilteredList(a + b, query) == FilteredList(a, query) + FilteredList(b, query)
  {
    if a != [] {
      assert (a + b)[1..] == a[1..] + b;
      FilteredListConcat(a[1..], b, query);
    } else {
      assert a + b == b;
    }
  }

  /** An empty query keeps every user that has an e-mail or a provider number. */
  lemma EmptyQueryKeepsUsersWithAColumn(users: seq<W9User>, u: W9User)
    ensures u in FilteredList(users, "") <==> u in users && (u.email.Some? || u.providerNo.Some?)
  {
    if u.email.Some? { IncludesEmpty(Lower(u.email.value)); }
    if u.providerNo.Some? { IncludesEmpty(Lower(u.providerNo.value)); }
  }

  // ---------------------------------------------------------------------------
  // Header sort

  datatype SortKey = UserEmail | UserProviderNo | Status | UploadedAt

  /** Three clicks on one header from any other column go ascending, descending, ascending. */
  lemma ThreeClicksFromElsewhere(prev: SortConfig<SortKey>, k: SortKey)
    requires prev.key != Some(k)
    ensures RequestSort(prev, k).direction == Asc
    ensures RequestSort(RequestSort(prev, k), k).direction == Desc
    ensures RequestSort(RequestSort(RequestSort(prev, k), k), k).direction == Asc
  {
  }

  /** The comparison value: `a[key] || ""`. */
  function SortValue(u: W9User, k: SortKey): string {
    match k
    case UserEmail => OrDefault(u.email, "")
    case UserProviderNo => OrDefault(u.providerNo, "")
    case Status => OrDefault(u.status, "")
    case UploadedAt => OrDefault(u.uploadedAt, "")
  }

  /** `getSortedData`: the filtered list itself without a key, else a sorted rearrangement of it. */
  function SortedData(xs: seq<W9User>, cfg: SortConfig<SortKey>): (r: seq<W9User>)
    ensures cfg.key.None? ==> r == xs
    ensures multiset(r) == multiset(xs)
    ensures cfg.key.Some? ==> SortedBy(r, u => SortValue(u, cfg.key.value), cfg.direction)
  {
    match cfg.key
    case None => xs
    case Some(k) => SortBy(xs, u => SortValue(u, k), cfg.direction)
  }

  /** The table body: `sortedData.reverse()`, so the last sorted user is the top row. */
  function DisplayedRows(users: seq<W9User>, query: string, cfg: SortConfig<SortKey>): (r: seq<W9User>)
    ensures |r| == |FilteredList(users, query)|
    ensures forall i :: 0 <= i < |r| ==> r[i] == SortedData(FilteredList(users, query), cfg)[|r| - 1 - i]
  {
    var sorted := SortedData(FilteredList(users, query), cfg);
    assert |sorted| == |FilteredList(users, query)| by {
      assert |multiset(sorted)| == |multiset(FilteredList(users, query))|;
    }
    Reverse(sorted)
  }

  lemma DescIsReversedAsc(a: string, b: string)
    ensures InOrder(Desc, a, b) <==> InOrder(Asc, b, a)
  {
  }

  /** Because of the reversal, a column sorted ascending is shown descending and vice versa. */
  lemma DisplayedOrderIsOpposite(users: seq<W9User>, query: string, k: SortKey, dir: Direction)
    ensures SortedBy(DisplayedRows(users, query, SortConfig(Some(k), dir)), u => SortValue(u, k), Flip(dir))
  {
    var sorted := SortedData(FilteredList(users, query), SortConfig(Some(k), dir));
    assert DisplayedRows(users, query, SortConfig(Some(k), dir)) == Reverse(sorted);
    ReverseFlipsOrder(sorted, u => SortValue(u, k), dir);
  }

  // ---------------------------------------------------------------------------
  // Status badge

  /** `statusLabel(status)`'s text. */
  function StatusLabel(status: Option<string>): (r: string)
    ensures status == Some("approved") ==> r == "Approved"
    ensures status == Some("declined") ==> r == "Declined"
    ensures status == Some("in_progress") ==> r == "In Progress"
  {
    match status
    case Some("approved") => "Approved"
    case Some("declined") => "Declined"
    case Some("in_progress") => "In Progress"
    case _ => "Not Submitted"
  }

  /** Every value outside the three known ones, missing included, reads "Not Submitted". */
  lemma StatusLabelDefault(status: Option<string>)
    ensures StatusLabel(status) == "Not Submitted" <==>
      status !in {Some("approved"), Some("declined"), Some("in_progress")}
  {
  }

  // ---------------------------------------------------------------------------
  // Approve / decline

  /** Approve and Decline are offered exactly on the rows whose badge reads "In Progress". */
  predicate ActionsOffered(u: W9User)
    ensures ActionsOffered(u) <==> StatusLabel(u.status) == "In Progress"
  {
    u.status == Some("in_progress")
  }

  /** `actionLoading`: which user each button is busy for. */
  datatype ActionLoading = ActionLoading(approve: Option<int>, decline: Option<int>)

  const Idle := ActionLoading(None, None)

  /** The loading slot set when `handleStatusChange(userId, newStatus)` starts. */
  function StartAction(prev: ActionLoading, userId: int, newStatus: string): (r: ActionLoading)
    ensures newStatus == "approved" ==> r.approve == Some(userId) && r.decline == prev.decline
    ensures newStatus != "approved" ==> r.decline == Some(userId) && r.approve == prev.approve
  {
    if newStatus == "approved" then prev.(approve := Some(userId)) else prev.(decline := Some(userId))
  }

  /** What the server answered to the status change. */
  datatype Reply = Answered(httpStatus: int) | Failed

  /** The rows after a status change: on a 200 answer the matching user gets the new status. */
  function ApplyStatusChange(users: seq<W9User>, userId: int, newStatus: string, reply: Reply): (r: seq<W9User>)
    ensures |r| == |users|
    ensures reply != Answered(200) ==> r == users
    ensures reply == Answered(200) ==> forall i :: 0 <= i < |users| ==>
      (users[i].userId == userId ==> r[i] == users[i].(status := Some(newStatus))) &&
      (users[i].userId != userId ==> r[i] == users[i])
  {
    if reply != Answered(200) then
      users
    else
      seq(|users|, i requires 0 <= i < |users| =>
        if users[i].userId == userId then users[i].(status := Some(newStatus)) else users[i])
  }

  /** The whole `handleStatusChange`: new rows, and both loading slots cleared by `finally`. */
  function HandleStatusChange(users: seq<W9User>, userId: int, newStatus: string, reply: Reply): (r: (seq<W9User>, ActionLoading))
    ensures r.1 == Idle
    ensures |r.0| == |users|
  {
    (ApplyStatusChange(users, userId, newStatus, reply), Idle)
  }

  /** Applying the same change twice is the same as applying it once. */
  lemma StatusChangeIdempotent(users: seq<W9User>, userId: int, newStatus: string)
    ensures ApplyStatusChange(ApplyStatusChange(users, userId, newStatus, Answered(200)), userId, newStatus, Answered(200))
         == ApplyStatusChange(users, userId, newStatus, Answered(200))
  {
  }

  /** After an approval, the changed user no longer offers Approve or Decline. */
  lemma ApprovedRowOffersNoActions(users: seq<W9User>, userId: int, i: int)
    requires 0 <= i < |users| && users[i].userId == userId
    ensures !ActionsOffered(ApplyStatusChange(users, userId, "approved", Answered(200))[i])
  {
  }

  // ---------------------------------------------------------------------------
  // Decline Remark column

  /**
   The cell as written: it reads `decline_remark` of the status string, which is
   always undefined, so the cell is "-"; with no status at all the read throws
   (modelled as None).
   */
  function DeclineRemarkCellAsWritten(u: W9User): (r: Option<string>)
    ensures u.status.Some? ==> r == Some("-")
    ensures u.status.None? ==> r.None?
  {
    if u.status.Some? then Some("-") else None
  }

  /** The cell as evidently intended: the user's own remark, or "-". */
  function DeclineRemarkCell(u: W9User): (r: string)
    ensures Truthy(u.declineRemark) ==> r == u.declineRemark.value
    ensures !Truthy(u.declineRemark) ==> r == "-"
  {
    OrDefault(u.declineRemark, "-")
  }

  /** A declined row whose remark is "blurred scan": the cell as written shows "-", the intended cell the remark. */
  lemma DeclineRemarkIsLost()
    ensures var u := W9User(7, Some("a@b.co"), Some("123"), Some("declined"), None, Some("blurred scan"));
      DeclineRemarkCellAsWritten(u) == Some("-") && DeclineRemarkCell(u) == "blurred scan"
  {
  }
}
