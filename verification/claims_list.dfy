/**
 The claims list (TotalClaimsFound): the query pipeline that turns the fetched
 claims into the rows of the current page, and the small state changes the
 page's controls make.

 search -> status/month filter -> sort -> page of 8 rows.
 */
module ClaimsList {
  import opened Text
  import opened Sorting

  /** A fetched claim: the fields the server sent, each as its `toString()`. */
  datatype Claim = Claim(fields: map<string, string>)

  function Field(c: Claim, k: string): Option<string> {
    if k in c.fields then Some(c.fields[k]) else None
  }

  /** The columns the search box looks at, in the order `.some` tries them. */
  const SearchKeys: seq<string> := ["CHCLM#", "DATE", "CHCLTP", "EMMEM#", "CHCLM$", "CHSTTY"]

  // ---------------------------------------------------------------------------
  // Stage 1: search

  /** One column matches: present, and its lower-cased trimmed text includes the trimmed lower-cased query. */
  predicate FieldMatches(v: Option<string>, query: string) {
    v.Some? && Includes(Trim(Lower(v.value)), Lower(Trim(query)))
  }

  /** `keys.some(key => ...)`. */
  function AnyKeyMatches(c: Claim, keys: seq<string>, query: string): (r: bool)
    ensures r <==> exists k :: k in keys && FieldMatches(Field(c, k), query)
  {
    if keys == [] then false
    else FieldMatches(Field(c, keys[0]), query) || AnyKeyMatches(c, keys[1..], query)
  }

  predicate SearchMatches(c: Claim, query: string) {
    AnyKeyMatches(c, SearchKeys, query)
  }

  function SearchStage(data: seq<Claim>, query: string): seq<Claim> {
    Keep(data, c => SearchMatches(c, query))
  }

  // ---------------------------------------------------------------------------
  // Stage 2: status and month filters (set from the dashboard's count cells)

  /** The nested conditional of the second `filter`: which claims a truthy filter lets through. */
  predicate StatusMonthMatches(c: Claim, month: Option<string>, status: Option<string>) {
    if Truthy(month) then
      if Truthy(status) then Field(c, "CHHDST") == status && Field(c, "CHFRDM") == month
      else Field(c, "CHFRDM") == month
    else if Truthy(status) then Field(c, "CHHDST") == status
    else true
  }

  function FilterStage(xs: seq<Claim>, month: Option<string>, status: Option<string>): seq<Claim> {
    Keep(xs, c => StatusMonthMatches(c, month, status))
  }

  /** The whole filter effect: `filteredClaimsWithStatus || []`, where no data gives no rows. */
  function FilteredData(data: Option<seq<Claim>>, query: string, month: Option<string>, status: Option<string>): (r: seq<Claim>)
    ensures data.None? ==> r == []
    ensures forall c :: c in r <==>
      data.Some? && c in data.value && SearchMatches(c, query) && StatusMonthMatches(c, month, status)
  {
    match data
    case None => []
    case Some(xs) => FilterStage(SearchStage(xs, query), month, status)
  }

  /**
   Both stages keep the fetched order: the rows of two batches of claims are
   the rows of the first followed by the rows of the second.
   */
  lemma FilteredDataConcat(a: seq<Claim>, b: seq<Claim>, query: string, month: Option<string>, status: Option<string>)
    ensures FilteredData(Some(a + b), query, month, status)
      == FilteredData(Some(a), query, month, status) + FilteredData(Some(b), query, month, status)
  {
    KeepConcat(a, b, c => SearchMatches(c, query));
    KeepConcat(SearchStage(a, query), SearchStage(b, query), c => StatusMonthMatches(c, month, status));
  }

  /** Without a month or a status filter the second stage keeps every search hit. */
  lemma NoFiltersKeepsEverything(xs: seq<Claim>, month: Option<string>, status: Option<string>)
    requires !Truthy(month) && !Truthy(status)
    ensures FilterStage(xs, month, status) == xs
  {
  }

  /** With both filters set, exactly the claims with that status and that month pass. */
  lemma BothFiltersSelectExactly(xs: seq<Claim>, month: string, status: string, c: Claim)
    requires month != "" && status != ""
    ensures c in FilterStage(xs, Some(month), Some(status)) <==>
      c in xs && Field(c, "CHHDST") == Some(status) && Field(c, "CHFRDM") == Some(month)
  {
  }

  /** A claim is found iff one of the six columns is present and includes the query. */
  lemma SearchCharacterised(xs: seq<Claim>, query: string, c: Claim)
    ensures c in SearchStage(xs, query) <==>
      c in xs &&
      exists k :: k in SearchKeys && k in c.fields && Includes(Trim(Lower(c.fields[k])), Lower(Trim(query)))
  {
  }

  /** An empty (or all-blank) query keeps exactly the claims that have one of the six columns. */
  lemma {:induction false} BlankQueryKeepsClaimsWithAColumn(xs: seq<Claim>, query: string, c: Claim)
    requires IsBlank(query)
    ensures c in SearchStage(xs, query) <==> c in xs && exists k :: k in SearchKeys && k in c.fields
  {
    TrimEmptyIffBlank(query);
    assert Lower(Trim(query)) == "";
    forall k | k in SearchKeys && k in c.fields
      ensures FieldMatches(Field(c, k), query)
    {
      IncludesEmpty(Trim(Lower(c.fields[k])));
    }
  }

  // ---------------------------------------------------------------------------
  // Sorting

  const InitialSort: SortConfig<string> := SortConfig(None, Asc)

  /** The comparison value of a row: `a[key] || ""`. */
  function SortValue(c: Claim, k: string): string {
    OrDefault(Field(c, k), "")
  }

  /** `getSortedData`: the rows themselves without a key, otherwise a sorted rearrangement of them. */
  function SortedData(xs: seq<Claim>, cfg: SortConfig<string>): (r: seq<Claim>)
    ensures !Truthy(cfg.key) ==> r == xs
    ensures multiset(r) == multiset(xs)
    ensures Truthy(cfg.key) ==> SortedBy(r, c => SortValue(c, cfg.key.value), cfg.direction)
  {
    if !Truthy(cfg.key) then xs
    else SortBy(xs, c => SortValue(c, cfg.key.value), cfg.direction)
  }

  // ---------------------------------------------------------------------------
  // Pagination

  const ItemsPerPage: nat := 8

  /** `xs.slice(start, end)` for non-negative bounds: both are clamped to the length. */
  function Slice<T>(xs: seq<T>, start: nat, end: nat): (r: seq<T>)
    ensures start <= end <= |xs| ==> r == xs[start..end]
    ensures |xs| <= start || end <= start ==> r == []
  {
    var e := if end < |xs| then end else |xs|;
    if start < e then xs[start..e] else []
  }

  /** The rows of page `page` (1-based): `sortedData.slice((page-1)*8, page*8)`. */
  function PageItems<T>(xs: seq<T>, page: int): (r: seq<T>)
    requires page >= 1
    ensures |r| <= ItemsPerPage
    ensures forall i :: 0 <= i < |r| ==> (page - 1) * ItemsPerPage + i < |xs| && r[i] == xs[(page - 1) * ItemsPerPage + i]
    ensures (page - 1) * ItemsPerPage < |xs| ==> |r| == (if page * ItemsPerPage <= |xs| then ItemsPerPage else |xs| - (page - 1) * ItemsPerPage)
    ensures |xs| <= (page - 1) * ItemsPerPage ==> r == []
  {
    Slice(xs, (page - 1) * ItemsPerPage, page * ItemsPerPage)
  }

  /** `Math.ceil(n / 8)`. */
  function TotalPages(n: nat): (r: nat)
    ensures r * ItemsPerPage >= n
    ensures r == 0 || (r - 1) * ItemsPerPage < n
  {
    (n + ItemsPerPage - 1) / ItemsPerPage
  }

  /** Pages 1..n one after another. */
  function PagesUpTo<T>(xs: seq<T>, n: nat): seq<T> {
    if n == 0 then [] else PagesUpTo(xs, n - 1) + PageItems(xs, n)
  }

  lemma {:induction false} PagesUpToIsPrefix<T>(xs: seq<T>, n: nat)
    ensures PagesUpTo(xs, n) == xs[..if n * ItemsPerPage <= |xs| then n * ItemsPerPage else |xs|]
  {
    if n > 0 {
      PagesUpToIsPrefix(xs, n - 1);
    }
  }

  /** Reading pages 1..totalPages in turn shows every sorted row exactly once, in order. */
  lemma PagesCoverAllRows<T>(xs: seq<T>)
    ensures PagesUpTo(xs, TotalPages(|xs|)) == xs
  {
    PagesUpToIsPrefix(xs, TotalPages(|xs|));
  }

  // ---------------------------------------------------------------------------
  // Row expansion

  /** A row index's flag in `expandedRows`; a missing entry reads as `undefined`, i.e. false. */
  function Expanded(rows: map<int, bool>, i: int): bool {
    i in rows && rows[i]
  }

  /** `toggleRow(index)`. */
  function ToggleRow(rows: map<int, bool>, index: int): (r: map<int, bool>)
    ensures Expanded(r, index) == !Expanded(rows, index)
    ensures forall j :: j != index ==> (j in r <==> j in rows) && (j in rows ==> r[j] == rows[j])
  {
    rows[index := !Expanded(rows, index)]
  }

  /** Toggling a row twice leaves every row's flag as it was. */
  lemma ToggleRowTwice(rows: map<int, bool>, index: int, j: int)
    ensures Expanded(ToggleRow(ToggleRow(rows, index), index), j) == Expanded(rows, j)
  {
  }

  /** The single expanded row of the table and the claim shown in its detail panel. */
  datatype Expansion = Expansion(row: Option<int>, selected: Option<Claim>)

  /** `handleRowClick(index, claim)`. */
  function RowClick(e: Expansion, index: int, claim: Claim): (r: Expansion)
    ensures e.row == Some(index) ==> r == Expansion(None, None)
    ensures e.row != Some(index) ==> r == Expansion(Some(index), Some(claim))
  {
    if e.row == Some(index) then Expansion(None, None) else Expansion(Some(index), Some(claim))
  }

  /** Clicking the same row twice from any state closes it again with nothing selected. */
  lemma RowClickTwiceCollapses(e: Expansion, index: int, claim: Claim)
    requires e.row != Some(index)
    ensures RowClick(RowClick(e, index, claim), index, claim) == Expansion(None, None)
  {
  }

  // ---------------------------------------------------------------------------
  // The view state that the controls change

  datatype View = View(
    search: string,
    month: Option<string>,
    status: Option<string>,
    fromDate: string,
    toDate: string,
    sort: SortConfig<string>,
    page: int,
    expansion: Expansion)

  /** The rows on screen: the filter effect, then the sort, then the current page. */
  function CurrentItems(data: Option<seq<Claim>>, v: View): (r: seq<Claim>)
    requires v.page >= 1
    ensures |r| <= ItemsPerPage
    ensures forall c :: c in r ==>
      (data.Some? && c in data.value && SearchMatches(c, v.search) && StatusMonthMatches(c, v.month, v.status))
  {
    var rows := SortedData(FilteredData(data, v.search, v.month, v.status), v.sort);
    var r := PageItems(rows, v.page);
    assert forall c :: c in r ==> c in rows by {
      forall c | c in r ensures c in rows {
        var i :| 0 <= i < |r| && r[i] == c;
      }
    }
    assert forall c :: c in rows ==> c in multiset(rows);
    r
  }

  /** `onPageChange({selected})`: go to page `selected + 1` and collapse the expanded row. */
  function PageChange(v: View, selected: nat): (r: View)
    ensures r.page == selected + 1 && r.page >= 1
    ensures r.expansion.row.None?
    ensures r.expansion.selected == v.expansion.selected
    ensures r.(page := v.page, expansion := v.expansion) == v
  {
    v.(page := selected + 1, expansion := v.expansion.(row := None))
  }

  /** `handleReset`: clear search, both filters and both dates, unsort, and go back to page 1. */
  function Reset(v: View): (r: View)
    ensures r.search == "" && r.month == Some("") && r.status == Some("")
    ensures r.fromDate == "" && r.toDate == ""
    ensures r.sort == InitialSort && r.page == 1
    ensures r.expansion == v.expansion
  {
    View("", Some(""), Some(""), "", "", InitialSort, 1, v.expansion)
  }

  /** After a reset every fetched claim that has a searchable column is listed, in fetch order. */
  lemma ResetShowsAllClaims(data: seq<Claim>, v: View)
    requires forall i :: 0 <= i < |data| ==> exists k :: k in SearchKeys && k in data[i].fields
    ensures SortedData(FilteredData(Some(data), Reset(v).search, Reset(v).month, Reset(v).status), Reset(v).sort) == data
  {
    forall i | 0 <= i < |data| ensures SearchMatches(data[i], "") {
      BlankQueryKeepsClaimsWithAColumn(data, "", data[i]);
    }
    var found := SearchStage(data, "");
    assert found == data;
    NoFiltersKeepsEverything(found, Some(""), Some(""));
  }

  // ---------------------------------------------------------------------------
  // Excel export

  /** The export's label for a status code: exactly the eleven known codes have one, three or four letters long. */
  function StatusLabel(code: string): (r: Option<string>)
    ensures r.Some? <==> code in KnownCodes
    ensures r.Some? ==> 3 <= |r.value| <= 4
  {
    match code
    case "A" => Some("Paid")
    case "D" => Some("Deny")
    case "E" => Some("Drop")
    case "H" => Some("Hold")
    case "O" => Some("Open")
    case "P" => Some("Pend")
    case "R" => Some("RTP")
    case "S" => Some("PDO")
    case "T" => Some("Audt")
    case "U" => Some("Inpr")
    case "V" => Some("Void")
    case _ => None
  }

  const KnownCodes: set<string> := {"A", "D", "E", "H", "O", "P", "R", "S", "T", "U", "V"}

  /** Distinct known codes have distinct labels, so an exported label names its code. */
  lemma StatusLabelInjective(a: string, b: string)
    requires a in KnownCodes && b in KnownCodes && a != b
    ensures StatusLabel(a) != StatusLabel(b)
  {
  }

  /** `statusMap[claim.CHHDST] || claim.CHHDST || "-"`. */
  function ExportStatus(code: Option<string>): (r: string)
    ensures r != ""
    ensures code.Some? && code.value in KnownCodes ==> r == StatusLabel(code.value).value
    ensures code.Some? && code.value != "" && code.value !in KnownCodes ==> r == code.value
    ensures !Truthy(code) ==> r == "-"
  {
    if code.Some? && StatusLabel(code.value).Some? then StatusLabel(code.value).value
    else OrDefault(code, "-")
  }
}
