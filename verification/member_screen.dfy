/**
 The member dashboard (MemberScreen): the provider number it reports on,
 the switch away from a provider whose W9 is not done, and the status and
 month filters its two claim-count tables hand to the claims list.
 */
module MemberScreen {
  import opened Text
  import opened Providers
  import ClaimsList

  /** `activeProvider?.provider_no || user?.provider_no`. */
  function ProviderNo(active: Option<Provider>, userProviderNo: Option<string>): (r: Option<string>)
    ensures active.Some? && Truthy(active.value.providerNo) ==> r == active.value.providerNo
    ensures !(active.Some? && Truthy(active.value.providerNo)) ==> r == userProviderNo
  {
    OrElse(if active.Some? then active.value.providerNo else None, userProviderNo)
  }

  /** The auto-switch effect: the provider it switches to, if it fires. */
  function AutoSwitch(active: Option<Provider>, w9Approved: seq<Provider>): (r: Option<Provider>)
    ensures r.Some? <==> active.Some? && |w9Approved| > 0 && !W9Cleared(active.value.w9Status)
    ensures r.Some? ==> r.value == w9Approved[0]
  {
    if active.Some? && |w9Approved| > 0 && !W9Cleared(active.value.w9Status) then Some(w9Approved[0]) else None
  }

  /** A provider whose W9 is approved or uploaded is never switched away from. */
  lemma NoSwitchWhenCleared(active: Provider, w9Approved: seq<Provider>)
    requires W9Cleared(active.w9Status)
    ensures AutoSwitch(Some(active), w9Approved).None?
  {
  }

  /** When the list holds only cleared providers, the provider switched to does not trigger another switch. */
  lemma SwitchSettles(active: Option<Provider>, w9Approved: seq<Provider>)
    requires forall i :: 0 <= i < |w9Approved| ==> W9Cleared(w9Approved[i].w9Status)
    requires AutoSwitch(active, w9Approved).Some?
    ensures AutoSwitch(AutoSwitch(active, w9Approved), w9Approved).None?
  {
  }

  // ---------------------------------------------------------------------------
  // The count tables

  /** One table's counts reply: `month` (a name) and `month_date` (the filter value). */
  datatype Counts = Counts(month: Option<string>, monthDate: Option<string>)

  /** The five count cells of a row. */
  datatype Cell = TotalCell | PaidCell | ReadyCell | OpenCell | DeniedCell

  /** The status filter a cell sets. */
  function CellStatus(c: Cell): (r: string)
    ensures r == "" <==> c == TotalCell
  {
    match c
    case TotalCell => ""
    case PaidCell => "A"
    case ReadyCell => "R"
    case OpenCell => "O"
    case DeniedCell => "D"
  }

  /** The status codes the cells set are pairwise different. */
  lemma CellStatusInjective(a: Cell, b: Cell)
    ensures CellStatus(a) == CellStatus(b) <==> a == b
  {
  }

  /** The dashboard filters: status, month value and month name. */
  datatype Filters = Filters(status: string, month: Option<string>, monthName: Option<string>)

  const NoFilters := Filters("", Some(""), Some(""))

  /** A click on a count cell: the cell's handler sets the status, then the click bubbles to the row, which sets the month. */
  function ClickCell(f: Filters, table: Counts, c: Cell): (r: Filters)
    ensures r.status == CellStatus(c)
    ensures r.month == table.monthDate && r.monthName == table.month
  {
    var afterCell := f.(status := CellStatus(c));
    afterCell.(month := table.monthDate, monthName := table.month)
  }

  /** The claims list then shows exactly that month's claims with the cell's status; the total cell shows the whole month. */
  lemma ClickedCellSelects(xs: seq<ClaimsList.Claim>, f: Filters, table: Counts, c: Cell, claim: ClaimsList.Claim)
    requires Truthy(table.monthDate)
    ensures var r := ClickCell(f, table, c);
      claim in ClaimsList.FilterStage(xs, r.month, Some(r.status)) <==>
        claim in xs && ClaimsList.Field(claim, "CHFRDM") == table.monthDate
        && (c != TotalCell ==> ClaimsList.Field(claim, "CHHDST") == Some(CellStatus(c)))
  {
  }
}
