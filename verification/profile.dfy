/**
 The greeting name both verification screens derive from the signed-in
 user's e-mail address: the local part, split at dots, gives a first and a
 last name.
 */
module Profile {
  import opened Text

  /** `email.split("@")[0].split(".")`. */
  function EmailParts(email: string): (r: seq<string>)
    ensures |r| >= 1
  {
    Split(Split(email, '@')[0], '.')
  }

  /** `emailParts[0] || "User"`. */
  function FirstName(email: string): (r: string)
    ensures r != ""
    ensures r != "User" ==> r == EmailParts(email)[0]
    ensures EmailParts(email)[0] == "" ==> r == "User"
  {
    var parts := EmailParts(email);
    if parts[0] == "" then "User" else parts[0]
  }

  /** `emailParts.length > 1 ? emailParts[1] : ""`. */
  function LastName(email: string): (r: string)
    ensures |EmailParts(email)| > 1 ==> r == EmailParts(email)[1]
    ensures |EmailParts(email)| == 1 ==> r == ""
  {
    var parts := EmailParts(email);
    if |parts| > 1 then parts[1] else ""
  }

  /** An address `first.last@domain` greets `first` `last`, whatever the domain holds. */
  lemma {:induction false} NameOfDottedAddress(first: string, last: string, domain: string)
    requires first != ""
    requires '.' !in first && '@' !in first && '.' !in last && '@' !in last
    ensures FirstName(first + "." + last + "@" + domain) == first
    ensures LastName(first + "." + last + "@" + domain) == last
  {
    var local := first + "." + last;
    assert '@' !in local by {
      assert forall i :: 0 <= i < |local| ==> local[i] == (if i < |first| then first[i] else if i == |first| then '.' else last[i - |first| - 1]);
    }
    assert first + "." + last + "@" + domain == local + ['@'] + domain;
    SplitFirstPieceIs(local, '@', domain);
    assert Join([first, last], '.') == local;
    SplitJoin([first, last], '.');
  }

  /** A local part without a dot is the whole first name (or "User" when empty), with no last name. */
  lemma {:induction false} NameOfUndottedAddress(local: string, domain: string)
    requires '.' !in local && '@' !in local
    ensures FirstName(local + "@" + domain) == if local == "" then "User" else local
    ensures LastName(local + "@" + domain) == ""
  {
    assert local + "@" + domain == local + ['@'] + domain;
    SplitFirstPieceIs(local, '@', domain);
    assert Join([local], '.') == local;
    SplitJoin([local], '.');
  }
}
