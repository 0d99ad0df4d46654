/**
 The provider numbers attached to a portal account, as the provider list
 endpoint returns them, and the first-match search the components use on
 that list (`Array.prototype.find`).
 */
module Providers {
  import opened Text

  /** A provider-number id: a number for a stored row, otherwise whatever the server sent. */
  datatype ProviderId = Num(n: int) | Str(s: string)

  /** One provider number: `id`, `provider_no`, `status`, `w9_status`, `is_primary`. */
  datatype Provider = Provider(
    id: ProviderId,
    providerNo: Option<string>,
    status: Option<string>,
    w9Status: Option<string>,
    isPrimary: bool)

  /** `xs.findIndex(p)`, with `-1` as `None`. */
  function FirstIndex<T>(xs: seq<T>, p: T -> bool): (r: Option<nat>)
    ensures r.Some? ==> r.value < |xs| && p(xs[r.value]) && forall j :: 0 <= j < r.value ==> !p(xs[j])
    ensures r.None? ==> forall j :: 0 <= j < |xs| ==> !p(xs[j])
  {
    if xs == [] then None
    else if p(xs[0]) then Some(0)
    else
      match FirstIndex(xs[1..], p)
      case None => None
      case Some(i) => Some(i + 1)
  }

  /** `xs.find(p)`: the first element satisfying `p`, `undefined` when none does. */
  function Find<T>(xs: seq<T>, p: T -> bool): (r: Option<T>)
    ensures r.Some? ==> r.value in xs && p(r.value)
    ensures r.None? <==> forall j :: 0 <= j < |xs| ==> !p(xs[j])
  {
    match FirstIndex(xs, p)
    case None => None
    case Some(i) => Some(xs[i])
  }

  /** `Find` returns the element at the first satisfying position. */
  lemma FindIsFirst<T>(xs: seq<T>, p: T -> bool, i: nat)
    requires i < |xs| && p(xs[i]) && forall j :: 0 <= j < i ==> !p(xs[j])
    ensures Find(xs, p) == Some(xs[i])
  {
  }

  /** Whether a W9 status counts as done for the portal: approved, or uploaded to DB2. */
  predicate W9Cleared(w9: Option<string>) {
    w9 == Some("approved") || w9 == Some("W9_form_uploaded")
  }

  predicate IsApproved(p: Provider) {
    p.status == Some("approved")
  }

  /** `providerNumbers.filter(p => p.status === "approved")`. */
  function ApprovedOnly(xs: seq<Provider>): (r: seq<Provider>)
    ensures |r| <= |xs|
    ensures forall p :: p in r <==> p in xs && IsApproved(p)
  {
    if xs == [] then []
    else (if IsApproved(xs[0]) then [xs[0]] else []) + ApprovedOnly(xs[1..])
  }

  /** The filter works entry by entry, so it keeps the approved entries in their list order. */
  lemma {:induction false} ApprovedOnlyConcat(a: seq<Provider>, b: seq<Provider>)
    ensures ApprovedOnly(a + b) == ApprovedOnly(a) + ApprovedOnly(b)
  {
    if a != [] {
      assert (a + b)[1..] == a[1..] + b;
      ApprovedOnlyConcat(a[1..], b);
    } else {
      assert a + b == b;
    }
  }

  /** The count of approved entries. */
  function ApprovedCount(xs: seq<Provider>): nat {
    |ApprovedOnly(xs)|
  }
}
