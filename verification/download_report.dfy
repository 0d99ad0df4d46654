/**
 The claims report dialog (DownloadReport): its three filters, the query
 string they become, and the rows of the exported sheet.
 */
module DownloadReport {
  import opened Text
  import opened ClaimsList

  // ---------------------------------------------------------------------------
  // Dates

  /** `formatDateForAPI` (and the identical inline `formatDate`): "yyyy-mm-dd" becomes "mm/dd/yyyy". */
  function FormatDateForApi(date: string): (r: string)
    ensures date == "" <==> r == ""
  {
    if date == "" then ""
    else
      var parts := Split(date, '-');
      Render(At(parts, 1)) + "/" + Render(At(parts, 2)) + "/" + Render(At(parts, 0))
  }

  /** The three dash-separated components come back unchanged, reordered month/day/year. */
  lemma {:induction false} FormatDateReorders(year: string, month: string, day: string)
    requires '-' !in year && '-' !in month && '-' !in day
    ensures FormatDateForApi(year + "-" + month + "-" + day) == month + "/" + day + "/" + year
  {
    var date := year + "-" + month + "-" + day;
    assert date[|year|] == '-';
    JoinAppend([year], month, '-');
    JoinAppend([year, month], day, '-');
    assert [year] + [month] + [day] == [year, month, day];
    assert Join([year, month, day], '-') == date;
    SplitJoin([year, month, day], '-');
  }

  /** A value without dashes keeps only its year slot; the month and day print as "undefined". */
  lemma {:induction false} FormatDateWithoutDashes(date: string)
    requires date != "" && '-' !in date
    ensures FormatDateForApi(date) == "undefined/undefined/" + date
  {
    SplitJoin([date], '-');
  }

  // ---------------------------------------------------------------------------
  // Filters and the query string

  datatype Filters = Filters(fromDate: string, toDate: string, claimNo: string)

  datatype FilterName = FromDate | ToDate | ClaimNo

  function GetFilter(f: Filters, n: FilterName): string {
    match n
    case FromDate => f.fromDate
    case ToDate => f.toDate
    case ClaimNo => f.claimNo
  }

  /** `handleChange`: only the named filter takes the typed value. */
  function HandleChange(f: Filters, n: FilterName, value: string): (r: Filters)
    ensures GetFilter(r, n) == value
    ensures forall m :: m != n ==> GetFilter(r, m) == GetFilter(f, m)
  {
    match n
    case FromDate => f.(fromDate := value)
    case ToDate => f.(toDate := value)
    case ClaimNo => f.(claimNo := value)
  }

  /** The Reset button. */
  const ResetFilters := Filters("", "", "")

  lemma ResetEmptiesEveryFilter(n: FilterName)
    ensures GetFilter(ResetFilters, n) == ""
  {
  }

  /** One `&name=value` pair, present only when the value is non-empty. */
  function Pair(name: string, value: string): seq<string> {
    if value == "" then [] else [name + "=" + value]
  }

  /** The `ssn=...&from_date=...&to_date=...&claim_no=...` query of `handleSearch`; it always opens with the SSN. */
  function QueryString(ssnParam: Option<string>, ssn: Option<string>, f: Filters): (r: string)
    ensures |r| >= 4 && r[..4] == "ssn="
  {
    var subject := if Truthy(ssnParam) then ssnParam else ssn;
    var fields := ["ssn=" + Render(subject)] + Pair("from_date", FormatDateForApi(f.fromDate))
      + Pair("to_date", FormatDateForApi(f.toDate)) + Pair("claim_no", f.claimNo);
    Join(fields, '&')
  }

  /** The text a pair adds to the query: `&name=value`, or nothing for an empty value. */
  function PairText(name: string, value: string): (r: string)
    ensures value == "" <==> r == ""
  {
    if value == "" then "" else "&" + name + "=" + value
  }

  /** Appending a pair that may be absent. */
  lemma JoinPair(parts: seq<string>, name: string, value: string)
    requires |parts| >= 1
    ensures Join(parts + Pair(name, value), '&') == Join(parts, '&') + PairText(name, value)
  {
    if value == "" {
      assert parts + Pair(name, value) == parts;
    } else {
      JoinAppend(parts, name + "=" + value, '&');
    }
  }

  /**
   The query starts with the route's SSN when it is truthy and the prop's
   otherwise, then carries from_date, to_date and claim_no in that order,
   each only when it is set.
   */
  lemma QueryStringShape(ssnParam: Option<string>, ssn: Option<string>, f: Filters)
    ensures QueryString(ssnParam, ssn, f) ==
      "ssn=" + (if Truthy(ssnParam) then ssnParam.value else Render(ssn))
      + PairText("from_date", FormatDateForApi(f.fromDate))
      + PairText("to_date", FormatDateForApi(f.toDate))
      + PairText("claim_no", f.claimNo)
  {
    var subject := if Truthy(ssnParam) then ssnParam else ssn;
    var p0 := ["ssn=" + Render(subject)];
    var p1 := p0 + Pair("from_date", FormatDateForApi(f.fromDate));
    var p2 := p1 + Pair("to_date", FormatDateForApi(f.toDate));
    var p3 := p2 + Pair("claim_no", f.claimNo);
    assert QueryString(ssnParam, ssn, f) == Join(p3, '&');
    JoinPair(p0, "from_date", FormatDateForApi(f.fromDate));
    JoinPair(p1, "to_date", FormatDateForApi(f.toDate));
    JoinPair(p2, "claim_no", f.claimNo);
  }

  /** After Reset the query is the SSN alone. */
  lemma ResetQueryIsSsnOnly(ssnParam: Option<string>, ssn: Option<string>)
    ensures QueryString(ssnParam, ssn, ResetFilters) == "ssn=" + (if Truthy(ssnParam) then ssnParam.value else Render(ssn))
  {
    QueryStringShape(ssnParam, ssn, ResetFilters);
  }

  // ---------------------------------------------------------------------------
  // The exported sheet

  /** The status cell: a label for A, D, O and R, and `false` (None) for any other code. */
  function ExportStatusLabel(code: Option<string>): (r: Option<string>)
    ensures r.Some? <==> code in {Some("A"), Some("D"), Some("O"), Some("R")}
  {
    match code
    case Some("A") => Some("Paid")
    case Some("D") => Some("Denied")
    case Some("O") => Some("Open")
    case Some("R") => Some("Ready to release")
    case _ => None
  }

  const SheetHeaders: seq<string> := ["Claim No.", "_sort_date", "Type", "Provider Name", "Total", "Status", "Plan Paid", "Member RESP"]

  /** A cell of the sheet: text, or the boolean `false` an unknown status produces. */
  datatype Cell = TextCell(text: string) | FalseCell

  /** `CHADPN?.trim() || "-"`: never empty; anything but "-" is the trimmed name. */
  function ProviderNameCell(v: Option<string>): (r: string)
    ensures r != ""
    ensures v.None? ==> r == "-"
    ensures r != "-" ==> v.Some? && r == Trim(v.value)
  {
    match v
    case Some(s) => if Trim(s) == "" then "-" else Trim(s)
    case None => "-"
  }

  /** One exported row, in header order. */
  function ExportRow(c: Claim): (r: seq<Cell>)
    ensures |r| == |SheetHeaders|
    ensures r[5] == FalseCell <==> ExportStatusLabel(Field(c, "CHHDST")).None?
    ensures forall i :: 0 <= i < |r| && i != 5 ==> r[i].TextCell? && r[i].text != ""
  {
    [ TextCell(OrDefault(Field(c, "CHCLM"), "-")),
      TextCell(OrDefault(Field(c, "_sort_date"), "-")),
      TextCell(OrDefault(Field(c, "CHCLTP"), "-")),
      TextCell(ProviderNameCell(Field(c, "CHADPN"))),
      TextCell("$" + OrDefault(Field(c, "CHCLM$"), "-")),
      match ExportStatusLabel(Field(c, "CHHDST")) case Some(l) => TextCell(l) case None => FalseCell,
      TextCell("$" + OrDefault(Field(c, "CHMM$"), "0.00")),
      TextCell("$" + OrDefault(Field(c, "BHCAMT"), "0.00")) ]
  }

  /** A provider name made only of spaces exports as "-", any other is exported trimmed. */
  lemma ProviderNameCellTrims(s: string)
    ensures ProviderNameCell(Some(s)) == (if IsBlank(s) then "-" else Trim(s))
  {
    TrimEmptyIffBlank(s);
  }
}
