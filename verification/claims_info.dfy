/**
 One claim's detail view (TotalClaimsInfo): the claim and member records
 merged and kept in local storage for the full-page view, the claim number
 it fetches lines for, and how the detail fields, the date of birth and the
 diagnosis codes are chosen and shown.
 */
module ClaimsInfo {
  import opened Text

  /** A claim or member record: its string fields by name; a missing field is an absent key. */
  type Record = map<string, string>

  /** `data?.[key]` on a possibly missing record. */
  function Field(data: Option<Record>, key: string): (r: Option<string>)
    ensures r.Some? <==> data.Some? && key in data.value
    ensures r.Some? ==> r.value == data.value[key]
  {
    if data.Some? && key in data.value then Some(data.value[key]) else None
  }

  /** A missing record spreads as no fields. */
  function Fields(data: Option<Record>): Record {
    data.GetOr(map[])
  }

  // ---------------------------------------------------------------------------
  // The merged record and local storage

  /** `{ ...selectedClaim, ...selectedMember }`: every field of either, the member's winning on a clash. */
  function Merge(claim: Option<Record>, member: Option<Record>): (r: Record)
    ensures forall k :: k in r <==> k in Fields(claim) || k in Fields(member)
    ensures forall k :: k in Fields(member) ==> r[k] == Fields(member)[k]
    ensures forall k :: k in Fields(claim) && k !in Fields(member) ==> r[k] == Fields(claim)[k]
  {
    Fields(claim) + Fields(member)
  }

  /** Reading a field of the merged record is reading the member's, falling back to the claim's. */
  lemma MergeReadsMemberFirst(claim: Option<Record>, member: Option<Record>, k: string)
    ensures Field(Some(Merge(claim, member)), k) == (if Field(member, k).Some? then Field(member, k) else Field(claim, k))
  {
  }

  /** Local storage: keys to stored records (the JSON text is left out). */
  type Storage = map<string, Record>

  /** The storage key for a claim number, rendered as a template literal renders it. */
  function StorageKey(claimNo: Option<string>): string {
    "selectedData_for_total_claim_" + Render(claimNo)
  }

  /** The persisting effect: the merged record is written only when both records were passed in. */
  function Persist(storage: Storage, claimNo: Option<string>, claim: Option<Record>, member: Option<Record>): (r: Storage)
    ensures claim.None? || member.None? ==> r == storage
    ensures claim.Some? && member.Some? ==>
      StorageKey(claimNo) in r && r[StorageKey(claimNo)] == Merge(claim, member)
    ensures forall k :: k != StorageKey(claimNo) ==> (k in r <==> k in storage) && (k in storage ==> r[k] == storage[k])
  {
    if claim.Some? && member.Some? then storage[StorageKey(claimNo) := Merge(claim, member)] else storage
  }

  /** `selectedData_from_local`: the record stored under the route's claim number, if any. */
  function Stored(storage: Storage, paramNo: Option<string>): Option<Record> {
    if StorageKey(paramNo) in storage then Some(storage[StorageKey(paramNo)]) else None
  }

  /** Different claim numbers use different storage keys. */
  lemma StorageKeyInjective(a: Option<string>, b: Option<string>)
    requires a.Some? && b.Some?
    ensures StorageKey(a) == StorageKey(b) <==> a == b
  {
    if StorageKey(a) == StorageKey(b) {
      var p := "selectedData_for_total_claim_";
      assert a.value == StorageKey(a)[|p|..];
      assert b.value == StorageKey(b)[|p|..];
    }
  }

  /**
   The full-page view opened for the same claim number reads back exactly
   the merged record the modal persisted, and persisting for another claim
   leaves what that view reads alone.
   */
  lemma PersistedRecordIsReadBack(storage: Storage, claimNo: string, other: string, claim: Record, member: Record)
    requires other != claimNo
    ensures Stored(Persist(storage, Some(claimNo), Some(claim), Some(member)), Some(claimNo)) == Some(Merge(Some(claim), Some(member)))
    ensures Stored(Persist(storage, Some(claimNo), Some(claim), Some(member)), Some(other)) == Stored(storage, Some(other))
  {
    StorageKeyInjective(Some(claimNo), Some(other));
  }

  /** The claim number the line request uses: the route's when present, else the prop. */
  function FetchClaimNo(paramNo: Option<string>, propNo: Option<string>): (r: Option<string>)
    ensures Truthy(paramNo) ==> r == paramNo
    ensures !Truthy(paramNo) ==> r == propNo
  {
    OrElse(paramNo, propNo)
  }

  // ---------------------------------------------------------------------------
  // Detail fields

  /** A detail field: the stored record's value if truthy, else `other`'s, else `default`. */
  function Shown(stored: Option<Record>, other: Option<Record>, key: string, default: string): (r: string)
    ensures Truthy(Field(stored, key)) ==> r == stored.value[key]
    ensures !Truthy(Field(stored, key)) && Truthy(Field(other, key)) ==> r == other.value[key]
    ensures !Truthy(Field(stored, key)) && !Truthy(Field(other, key)) ==> r == default
  {
    if Truthy(Field(stored, key)) then Field(stored, key).value else OrDefault(Field(other, key), default)
  }

  /** Without a stored record every field shows the fetched claim's value or the default; a non-empty stored value always wins. */
  lemma ShownFallsBack(other: Option<Record>, key: string, default: string, stored: Record)
    ensures Shown(None, other, key, default) == OrDefault(Field(other, key), default)
    ensures key in stored && stored[key] != "" ==> Shown(Some(stored), other, key, default) == stored[key]
  {
  }

  /** A record's `emssn || dpdssn`, with a missing value rendering as nothing. */
  function SsnOf(data: Option<Record>): string {
    OrDefault(OrElse(Field(data, "emssn"), Field(data, "dpdssn")), "")
  }

  /**
   The SSN line: the member's `emssn ? emssn : dpdssn` followed directly by
   the stored record's `emssn || dpdssn || ""`. The modal has a member and
   the full-page view has a stored record, so each view normally fills one
   half.
   */
  function SsnText(member: Option<Record>, stored: Option<Record>): (r: string)
    ensures r == SsnOf(member) + SsnOf(stored)
    ensures member.None? ==> r == SsnOf(stored)
    ensures stored.None? ==> r == SsnOf(member)
  {
    var fromMember := if Truthy(Field(member, "emssn")) then Field(member, "emssn") else Field(member, "dpdssn");
    fromMember.GetOr("") + OrDefault(OrElse(Field(stored, "emssn"), Field(stored, "dpdssn")), "")
  }

  /** With both a member and a stored record carrying the same SSN, the line shows the number twice. */
  lemma SsnShownTwiceWithBothRecords(member: Record, stored: Record, ssn: string)
    requires ssn != ""
    requires "emssn" in member && member["emssn"] == ssn
    requires "emssn" in stored && stored["emssn"] == ssn
    ensures SsnText(Some(member), Some(stored)) == ssn + ssn
  {
  }

  // ---------------------------------------------------------------------------
  // Date of birth

  /** `m-d-y` from three fields, when all three are truthy. */
  function DatePart(data: Option<Record>, m: string, d: string, y: string): Option<string> {
    if Truthy(Field(data, m)) && Truthy(Field(data, d)) && Truthy(Field(data, y)) then
      Some(data.value[m] + "-" + data.value[d] + "-" + data.value[y])
    else None
  }

  /** `formatDOB`: the employee's date when complete, else the dependent's when complete, else "". */
  function FormatDob(data: Option<Record>): (r: string)
    ensures DatePart(data, "emdobm", "emdobd", "emdoby").Some? ==> r == DatePart(data, "emdobm", "emdobd", "emdoby").value
    ensures DatePart(data, "emdobm", "emdobd", "emdoby").None? && DatePart(data, "dpdobm", "dpdobd", "dpdoby").Some? ==>
      r == DatePart(data, "dpdobm", "dpdobd", "dpdoby").value
    ensures r == "" <==> DatePart(data, "emdobm", "emdobd", "emdoby").None? && DatePart(data, "dpdobm", "dpdobd", "dpdoby").None?
  {
    match DatePart(data, "emdobm", "emdobd", "emdoby")
    case Some(s) => s
    case None => DatePart(data, "dpdobm", "dpdobd", "dpdoby").GetOr("")
  }

  /** A date with dash-free parts splits back into the month, day and year it was built from. */
  lemma DobSplitsBack(data: Option<Record>)
    requires DatePart(data, "emdobm", "emdobd", "emdoby").Some?
    requires '-' !in data.value["emdobm"] && '-' !in data.value["emdobd"] && '-' !in data.value["emdoby"]
    ensures Split(FormatDob(data), '-') == [data.value["emdobm"], data.value["emdobd"], data.value["emdoby"]]
  {
    var m, d, y := data.value["emdobm"], data.value["emdobd"], data.value["emdoby"];
    assert Join([m], '-') == m;
    JoinAppend([m], d, '-');
    JoinAppend([m, d], y, '-');
    assert [m] + [d] == [m, d] && [m, d] + [y] == [m, d, y];
    SplitJoin([m, d, y], '-');
  }

  /** The DOB line reads the stored record when there is one, otherwise the member. */
  function DobText(stored: Option<Record>, member: Option<Record>): (r: string)
    ensures stored.Some? ==> r == FormatDob(stored)
    ensures stored.None? ==> r == FormatDob(member)
  {
    FormatDob(if stored.Some? then stored else member)
  }

  // ---------------------------------------------------------------------------
  // Diagnosis codes

  /** The five diagnosis-code fields, in display order. */
  const DiagnosisSlots: seq<string> := ["CHDIAG", "CHDIA2", "CHDIA3", "CHDIA4", "CHDIA5"]

  /** One slot: the stored value if truthy, else the claim's (possibly missing). */
  function SlotValue(stored: Option<Record>, claim: Option<Record>, key: string): (r: Option<string>)
    ensures Truthy(Field(stored, key)) ==> r == Field(stored, key)
    ensures !Truthy(Field(stored, key)) ==> r == Field(claim, key)
  {
    if Truthy(Field(stored, key)) then Field(stored, key) else Field(claim, key)
  }

  /** `filter(code => code?.trim())`: the present codes that are not blank, in order. */
  function KeptCodes(vals: seq<Option<string>>): (r: seq<string>)
    ensures |r| <= |vals|
    ensures forall i :: 0 <= i < |r| ==> !IsBlank(r[i])
    ensures forall c :: c in r <==> Some(c) in vals && !IsBlank(c)
  {
    if vals == [] then []
    else
      var rest := KeptCodes(vals[1..]);
      assert forall c :: Some(c) in vals <==> vals[0] == Some(c) || Some(c) in vals[1..];
      if vals[0].Some? && !IsBlank(vals[0].value) then [vals[0].value] + rest else rest
  }

  /** The filter keeps slot order and multiplicity: it distributes over concatenation. */
  lemma {:induction false} KeptCodesConcat(a: seq<Option<string>>, b: seq<Option<string>>)
    ensures KeptCodes(a + b) == KeptCodes(a) + KeptCodes(b)
  {
    if a != [] {
      assert (a + b)[1..] == a[1..] + b;
      KeptCodesConcat(a[1..], b);
    } else {
      assert a + b == b;
    }
  }

  /** A missing or blank slot contributes nothing: the line is the one without that slot. */
  lemma BlankSlotIsSkipped(vals: seq<Option<string>>, i: nat)
    requires i < |vals| && (vals[i].None? || IsBlank(vals[i].value))
    ensures KeptCodes(vals) == KeptCodes(vals[..i] + vals[i + 1..])
  {
    assert vals == vals[..i] + ([vals[i]] + vals[i + 1..]);
    KeptCodesConcat(vals[..i], [vals[i]] + vals[i + 1..]);
    KeptCodesConcat([vals[i]], vals[i + 1..]);
    assert [vals[i]][1..] == [];
    KeptCodesConcat(vals[..i], vals[i + 1..]);
  }

  /** Nothing is kept exactly when every present value is blank. */
  lemma KeptCodesEmptyIff(vals: seq<Option<string>>)
    ensures KeptCodes(vals) == [] <==> forall i :: 0 <= i < |vals| && vals[i].Some? ==> IsBlank(vals[i].value)
  {
    if KeptCodes(vals) == [] {
      forall i | 0 <= i < |vals| && vals[i].Some? ensures IsBlank(vals[i].value) {
        assert Some(vals[i].value) in vals;
      }
    } else {
      assert KeptCodes(vals)[0] in KeptCodes(vals);
    }
  }

  /** `join(", ")`. */
  function JoinComma(parts: seq<string>): (r: string)
    ensures parts == [] ==> r == ""
    ensures |parts| == 1 ==> r == parts[0]
  {
    if parts == [] then ""
    else if |parts| == 1 then parts[0]
    else parts[0] + ", " + JoinComma(parts[1..])
  }

  /** Joining one more part appends ", " and the part. */
  lemma {:induction false} JoinCommaAppend(parts: seq<string>, x: string)
    requires parts != []
    ensures JoinComma(parts + [x]) == JoinComma(parts) + ", " + x
  {
    if |parts| > 1 {
      assert (parts + [x])[1..] == parts[1..] + [x];
      JoinCommaAppend(parts[1..], x);
    } else {
      assert parts + [x] == [parts[0], x];
    }
  }

  /** Non-empty parts join to a non-empty text. */
  lemma {:induction false} JoinCommaEmptyIff(parts: seq<string>)
    requires forall i :: 0 <= i < |parts| ==> parts[i] != ""
    ensures JoinComma(parts) == "" <==> parts == []
  {
    if |parts| > 1 {
      assert |parts[0] + ", " + JoinComma(parts[1..])| >= 2;
    }
  }

  /** The value each of the five slots shows, in display order. */
  function SlotValues(stored: Option<Record>, claim: Option<Record>): (vals: seq<Option<string>>)
    ensures |vals| == |DiagnosisSlots|
    ensures forall i :: 0 <= i < |vals| ==> vals[i] == SlotValue(stored, claim, DiagnosisSlots[i])
  {
    seq(5, i requires 0 <= i < 5 => SlotValue(stored, claim, DiagnosisSlots[i]))
  }

  /** The diagnosis line: empty exactly when no slot holds a code that is not blank. */
  function DiagnosisText(stored: Option<Record>, claim: Option<Record>): (r: string)
    ensures r == "" <==> forall i :: 0 <= i < 5 && SlotValues(stored, claim)[i].Some? ==> IsBlank(SlotValues(stored, claim)[i].value)
  {
    var kept := KeptCodes(SlotValues(stored, claim));
    KeptCodesEmptyIff(SlotValues(stored, claim));
    JoinCommaEmptyIff(kept);
    JoinComma(kept)
  }

  /** A code is listed exactly when some slot shows it and it is not blank. */
  lemma DiagnosisCodeListed(stored: Option<Record>, claim: Option<Record>, c: string)
    ensures c in KeptCodes(SlotValues(stored, claim)) <==> !IsBlank(c) && exists i :: 0 <= i < 5 && SlotValues(stored, claim)[i] == Some(c)
  {
  }

  /** With every value present and not blank, every value is kept, in order. */
  lemma {:induction false} KeptCodesAllPresent(vals: seq<Option<string>>)
    requires forall i :: 0 <= i < |vals| ==> vals[i].Some? && !IsBlank(vals[i].value)
    ensures |KeptCodes(vals)| == |vals|
    ensures forall i :: 0 <= i < |vals| ==> KeptCodes(vals)[i] == vals[i].value
  {
    if vals != [] {
      KeptCodesAllPresent(vals[1..]);
    }
  }

  /** Five codes join with a ", " between each pair. */
  lemma JoinCommaFive(parts: seq<string>)
    requires |parts| == 5
    ensures JoinComma(parts) == parts[0] + ", " + parts[1] + ", " + parts[2] + ", " + parts[3] + ", " + parts[4]
  {
    var p := parts;
    assert JoinComma(p[3..]) == p[3] + ", " + p[4] by { assert p[3..][1..] == [p[4]]; }
    assert JoinComma(p[2..]) == p[2] + ", " + (p[3] + ", " + p[4]) by { assert p[2..][1..] == p[3..]; }
    assert JoinComma(p[1..]) == p[1] + ", " + (p[2] + ", " + (p[3] + ", " + p[4])) by { assert p[1..][1..] == p[2..]; }
  }

  /** With every slot filled, the line is the five codes in slot order, separated by ", ". */
  lemma DiagnosisTextOfFullSlots(stored: Option<Record>, claim: Option<Record>)
    requires forall i :: 0 <= i < 5 ==> SlotValues(stored, claim)[i].Some? && !IsBlank(SlotValues(stored, claim)[i].value)
    ensures var v := SlotValues(stored, claim);
      DiagnosisText(stored, claim) == v[0].value + ", " + v[1].value + ", " + v[2].value + ", " + v[3].value + ", " + v[4].value
  {
    KeptCodesAllPresent(SlotValues(stored, claim));
    JoinCommaFive(KeptCodes(SlotValues(stored, claim)));
  }
}
