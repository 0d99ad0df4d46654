/**
 Strings and optional values as the portal's JavaScript sees them.

 A JSON field that may be missing is an `Option`; a string is a `seq<char>`.
 The helpers here are the few `String.prototype` methods the components use
 (`trim`, `toLowerCase`, `includes`, `split`, `padStart`) and JavaScript's
 notion of a "truthy" string, each stated against an independent description.
 */
module Text {

  datatype Option<+T> = None | Some(value: T) {
    function GetOr(default: T): T {
      match this
      case Some(v) => v
      case None => default
    }
  }

  /** A possibly missing string field is truthy iff it is present and non-empty. */
  predicate Truthy(o: Option<string>) {
    o.Some? && o.value != ""
  }

  /** `a || b` on two possibly missing strings. */
  function OrElse(a: Option<string>, b: Option<string>): (r: Option<string>)
    ensures Truthy(a) ==> r == a
    ensures !Truthy(a) ==> r == b
  {
    if Truthy(a) then a else b
  }

  /** `a || d` where the default `d` is a plain string. */
  function OrDefault(a: Option<string>, d: string): (r: string)
    ensures Truthy(a) ==> r == a.value
    ensures !Truthy(a) ==> r == d
  {
    if Truthy(a) then a.value else d
  }

  /** How a template literal renders a possibly missing value: `${x}`. */
  function Render(o: Option<string>): string {
    match o
    case Some(s) => s
    case None => "undefined"
  }

  // ---------------------------------------------------------------------------
  // Whitespace and trim

  /** The characters JavaScript's `\s` and `String.prototype.trim` treat as white space. */
  predicate IsSpace(c: char) {
    || c == ' ' || c == '\t' || c == '\n' || c == '\U{000B}' || c == '\U{000C}' || c == '\r'
    || c == '\U{00A0}' || c == '\U{1680}' || ('\U{2000}' <= c <= '\U{200A}')
    || c == '\U{2028}' || c == '\U{2029}' || c == '\U{202F}' || c == '\U{205F}'
    || c == '\U{3000}' || c == '\U{FEFF}'
  }

  /** A string that `trim()` reduces to "". */
  predicate IsBlank(s: string) {
    forall i :: 0 <= i < |s| ==> IsSpace(s[i])
  }

  function TrimStart(s: string): (r: string)
    ensures |r| <= |s| && r == s[|s| - |r|..]
    ensures IsBlank(s[..|s| - |r|])
    ensures r == [] || !IsSpace(r[0])
  {
    if |s| > 0 && IsSpace(s[0]) then TrimStart(s[1..]) else s
  }

  function TrimEnd(s: string): (r: string)
    ensures |r| <= |s| && r == s[..|r|]
    ensures IsBlank(s[|r|..])
    ensures r == [] || !IsSpace(r[|r| - 1])
  {
    if |s| > 0 && IsSpace(s[|s| - 1]) then
      var t := s[..|s| - 1];
      var r := TrimEnd(t);
      assert s[..|r|] == t[..|r|];
      assert s[|r|..] == t[|r|..] + [s[|s| - 1]];
      r
    else s
  }

  /** `s.trim()`: the longest slice of `s` that neither starts nor ends with white space. */
  function Trim(s: string): (r: string)
    ensures exists i, j :: 0 <= i <= j <= |s| && r == s[i..j] && IsBlank(s[..i]) && IsBlank(s[j..])
    ensures r == [] || (!IsSpace(r[0]) && !IsSpace(r[|r| - 1]))
  {
    var t := TrimStart(s);
    var r := TrimEnd(t);
    assert r == s[|s| - |t|..|s| - |t| + |r|];
    assert s[|s| - |t| + |r|..] == t[|r|..];
    r
  }

  /** A string is its trimmed text with white space before and after it. */
  lemma TrimSplits(s: string)
    ensures exists a, b :: IsBlank(a) && IsBlank(b) && s == a + Trim(s) + b
  {
    var i, j :| 0 <= i <= j <= |s| && Trim(s) == s[i..j] && IsBlank(s[..i]) && IsBlank(s[j..]);
    assert s == s[..i] + s[i..j] + s[j..];
  }

  /** `!s.trim()` holds exactly for the strings made only of white space. */
  lemma TrimEmptyIffBlank(s: string)
    ensures Trim(s) == [] <==> IsBlank(s)
  {
    var i, j :| 0 <= i <= j <= |s| && Trim(s) == s[i..j] && IsBlank(s[..i]) && IsBlank(s[j..]);
    if Trim(s) == [] {
      forall k | 0 <= k < |s| ensures IsSpace(s[k]) {
        if k < i { assert s[..i][k] == s[k]; } else { assert s[j..][k - j] == s[k]; }
      }
    } else {
      assert !IsSpace(s[i]);
    }
  }

  /** Leading white space in front of a word is what `trimStart` removes. */
  lemma {:induction false} TrimStartOfPadded(a: string, x: string)
    requires IsBlank(a) && x != [] && !IsSpace(x[0])
    ensures TrimStart(a + x) == x
  {
    if a == [] {
      assert a + x == x;
    } else {
      assert (a + x)[1..] == a[1..] + x;
      TrimStartOfPadded(a[1..], x);
    }
  }

  /** Trailing white space after a word is what `trimEnd` removes. */
  lemma {:induction false} TrimEndOfPadded(x: string, b: string)
    requires IsBlank(b) && x != [] && !IsSpace(x[|x| - 1])
    ensures TrimEnd(x + b) == x
  {
    if b == [] {
      assert x + b == x;
    } else {
      assert (x + b)[..|x + b| - 1] == x + b[..|b| - 1];
      TrimEndOfPadded(x, b[..|b| - 1]);
    }
  }

  /** `trim` recovers a word from any white space around it: the converse of `Trim`'s contract. */
  lemma TrimOfPadded(a: string, m: string, b: string)
    requires IsBlank(a) && IsBlank(b)
    requires m != [] && !IsSpace(m[0]) && !IsSpace(m[|m| - 1])
    ensures Trim(a + m + b) == m
  {
    assert a + m + b == a + (m + b);
    TrimStartOfPadded(a, m + b);
    TrimEndOfPadded(m, b);
  }

  // ---------------------------------------------------------------------------
  // Case

  function LowerChar(c: char): (r: char)
    ensures 'A' <= c <= 'Z' ==> 'a' <= r <= 'z' && r as int - c as int == 32
    ensures !('A' <= c <= 'Z') ==> r == c
  {
    if 'A' <= c <= 'Z' then (c as int + 32) as char else c
  }

  /** `s.toLowerCase()` on the ASCII letters; every other character is kept. */
  function Lower(s: string): (r: string)
    ensures |r| == |s|
    ensures forall i :: 0 <= i < |s| ==> r[i] == LowerChar(s[i])
  {
    if s == [] then [] else [LowerChar(s[0])] + Lower(s[1..])
  }

  lemma LowerIdempotent(s: string)
    ensures Lower(Lower(s)) == Lower(s)
  {
  }

  // ---------------------------------------------------------------------------
  // includes

  /** `t` occurs in `s` at position `i`. */
  predicate OccursAt(s: string, t: string, i: int) {
    0 <= i && i + |t| <= |s| && s[i..i + |t|] == t
  }

  /** `s.includes(t)`, computed by trying each starting position in turn. */
  function Includes(s: string, t: string): (r: bool)
    ensures r <==> exists i :: OccursAt(s, t, i)
    decreases |s|
  {
    if |t| <= |s| && s[..|t|] == t then
      assert OccursAt(s, t, 0);
      true
    else if s == [] then
      assert forall i :: !OccursAt(s, t, i);
      false
    else
      var r := Includes(s[1..], t);
      assert forall i :: OccursAt(s[1..], t, i) ==> OccursAt(s, t, i + 1) by {
        forall i | OccursAt(s[1..], t, i) ensures OccursAt(s, t, i + 1) {
          assert s[i + 1..i + 1 + |t|] == s[1..][i..i + |t|];
        }
      }
      assert forall i :: OccursAt(s, t, i) ==> i == 0 || OccursAt(s[1..], t, i - 1) by {
        forall i | OccursAt(s, t, i) && i != 0 ensures OccursAt(s[1..], t, i - 1) {
          assert s[1..][i - 1..i - 1 + |t|] == s[i..i + |t|];
        }
      }
      r
  }

  /** A string includes its own trimmed text. */
  lemma TrimIsIncluded(s: string)
    ensures Includes(s, Trim(s))
  {
    var i, j :| 0 <= i <= j <= |s| && Trim(s) == s[i..j] && IsBlank(s[..i]) && IsBlank(s[j..]);
    assert OccursAt(s, Trim(s), i);
  }

  /** Every string includes the empty string. */
  lemma IncludesEmpty(s: string)
    ensures Includes(s, "")
  {
    assert OccursAt(s, "", 0);
  }

  // ---------------------------------------------------------------------------
  // split / join on one separator character

  /** `s.split(sep)` for a one-character separator: never empty, pieces free of `sep`. */
  function Split(s: string, sep: char): (r: seq<string>)
    ensures |r| >= 1
    ensures forall k :: 0 <= k < |r| ==> sep !in r[k]
    ensures Join(r, sep) == s
    decreases |s|
  {
    if s == [] then [[]]
    else
      var rest := Split(s[1..], sep);
      if s[0] == sep then [[]] + rest
      else [[s[0]] + rest[0]] + rest[1..]
  }

  /** `parts.join(sep)`. */
  function Join(parts: seq<string>, sep: char): string
    requires |parts| >= 1
  {
    if |parts| == 1 then parts[0] else parts[0] + [sep] + Join(parts[1..], sep)
  }

  /** Joining one more piece appends the separator and that piece. */
  lemma {:induction false} JoinAppend(parts: seq<string>, x: string, sep: char)
    requires |parts| >= 1
    ensures Join(parts + [x], sep) == Join(parts, sep) + [sep] + x
    decreases |parts|
  {
    if |parts| > 1 {
      assert (parts + [x])[1..] == parts[1..] + [x];
      JoinAppend(parts[1..], x, sep);
    }
  }

  /** Splitting the join of separator-free pieces gives the pieces back. */
  lemma {:induction false} SplitJoin(parts: seq<string>, sep: char)
    requires |parts| >= 1
    requires forall k :: 0 <= k < |parts| ==> sep !in parts[k]
    ensures Split(Join(parts, sep), sep) == parts
    decreases |parts|, |parts[0]|
  {
    var s := Join(parts, sep);
    if parts[0] == [] {
      if |parts| == 1 {
      } else {
        assert s == [sep] + Join(parts[1..], sep);
        assert s[1..] == Join(parts[1..], sep);
        SplitJoin(parts[1..], sep);
      }
    } else {
      var c := parts[0][0];
      var tail := [parts[0][1..]] + parts[1..];
      assert tail[1..] == parts[1..];
      assert Join(tail, sep) == s[1..] by {
        if |parts| == 1 {
        } else {
          assert s == parts[0] + [sep] + Join(parts[1..], sep);
        }
      }
      SplitJoin(tail, sep);
      assert s[0] == c != sep;
      assert [c] + tail[0] == parts[0];
      assert [[c] + tail[0]] + tail[1..] == parts;
    }
  }

  /** The piece before the first separator is a prefix of `s`, followed by the separator if anything follows it. */
  lemma SplitFirstPiece(s: string, sep: char)
    ensures |Split(s, sep)[0]| <= |s| && s[..|Split(s, sep)[0]|] == Split(s, sep)[0]
    ensures |Split(s, sep)[0]| < |s| ==> s[|Split(s, sep)[0]|] == sep
    ensures |Split(s, sep)| == 1 ==> Split(s, sep)[0] == s
  {
    var parts := Split(s, sep);
    if |parts| > 1 {
      assert s == parts[0] + [sep] + Join(parts[1..], sep);
    }
  }

  /** When `s` is `pre`, a separator, then anything, the first piece of the split is `pre`. */
  lemma {:induction false} SplitFirstPieceIs(pre: string, sep: char, rest: string)
    requires sep !in pre
    ensures Split(pre + [sep] + rest, sep)[0] == pre
    decreases |pre|
  {
    var s := pre + [sep] + rest;
    if pre != [] {
      assert s[1..] == pre[1..] + [sep] + rest;
      SplitFirstPieceIs(pre[1..], sep, rest);
      assert [pre[0]] + pre[1..] == pre;
    }
  }

  /** Element `k` of an array, `undefined` past its end. */
  function At(xs: seq<string>, k: nat): Option<string> {
    if k < |xs| then Some(xs[k]) else None
  }

  // ---------------------------------------------------------------------------
  // Decimal numerals

  function DigitChar(d: nat): (c: char)
    requires d < 10
    ensures '0' <= c <= '9'
  {
    ('0' as int + d) as char
  }

  predicate IsDigit(c: char) {
    '0' <= c <= '9'
  }

  predicate AllDigits(s: string) {
    forall i :: 0 <= i < |s| ==> IsDigit(s[i])
  }

  /** `String(n)` for a non-negative integer: its shortest decimal numeral. */
  function Decimal(n: nat): (r: string)
    ensures |r| >= 1 && AllDigits(r)
    ensures r[0] == '0' ==> n == 0
    decreases n
  {
    if n < 10 then [DigitChar(n)] else Decimal(n / 10) + [DigitChar(n % 10)]
  }

  /** The value of a string of decimal digits. */
  function DecimalValue(s: string): nat
    requires AllDigits(s)
  {
    if s == [] then 0 else 10 * DecimalValue(s[..|s| - 1]) + (s[|s| - 1] as int - '0' as int)
  }

  lemma {:induction false} DecimalRoundTrip(n: nat)
    ensures DecimalValue(Decimal(n)) == n
    decreases n
  {
    if n >= 10 {
      var s := Decimal(n);
      assert s[..|s| - 1] == Decimal(n / 10);
      DecimalRoundTrip(n / 10);
    }
  }

  /** The longest prefix of `s` made of decimal digits. */
  function DigitPrefix(s: string): (r: string)
    ensures AllDigits(r) && |r| <= |s| && r == s[..|r|]
    ensures |r| < |s| ==> !IsDigit(s[|r|])
  {
    if s != [] && IsDigit(s[0]) then [s[0]] + DigitPrefix(s[1..]) else []
  }

  /** What follows an optional leading `+` or `-`. */
  function Unsigned(t: string): (r: string)
    ensures r == t || (t != [] && t[0] in "+-" && r == t[1..])
  {
    if t != [] && t[0] in "+-" then t[1..] else t
  }

  /**
   `parseInt(s, 10)`: leading white space, an optional sign, then as many
   digits as there are; `NaN` (here `None`) when there are none. The value
   is that digit run's, negated after a minus sign; `-0` reads as 0.
   */
  function ParseInt(s: string): (r: Option<int>)
    ensures r.None? <==> DigitPrefix(Unsigned(TrimStart(s))) == []
    ensures r.Some? ==> TrimStart(s) != []
    ensures r.Some? ==> r.value == (if TrimStart(s)[0] == '-' then -1 else 1) * DecimalValue(DigitPrefix(Unsigned(TrimStart(s))))
  {
    var t := TrimStart(s);
    var negative := t != [] && t[0] == '-';
    var digits := DigitPrefix(Unsigned(t));
    var v: int := if digits == [] then 0 else DecimalValue(digits);
    if digits == [] then None else Some(if negative then -v else v)
  }

  /** The digits at the head of a string are exactly a leading run of digits followed by anything else. */
  lemma {:induction false} DigitPrefixOfDigitsThen(a: string, rest: string)
    requires AllDigits(a)
    requires rest == [] || !IsDigit(rest[0])
    ensures DigitPrefix(a + rest) == a
  {
    if a != [] {
      assert (a + rest)[1..] == a[1..] + rest;
      DigitPrefixOfDigitsThen(a[1..], rest);
    } else {
      assert a + rest == rest;
    }
  }

  /** Leading white space is exactly what `TrimStart` drops. */
  lemma {:induction false} TrimStartOfBlankThen(ws: string, x: string)
    requires IsBlank(ws)
    requires x == [] || !IsSpace(x[0])
    ensures TrimStart(ws + x) == x
    decreases |ws|
  {
    if ws == [] {
      assert ws + x == x;
    } else {
      assert (ws + x)[1..] == ws[1..] + x;
      TrimStartOfBlankThen(ws[1..], x);
    }
  }

  /**
   `parseInt` of white space, a sign, a digit run and anything that does not
   start with a digit is the run's value with that sign; so " 12abc" reads
   12 and "+007" reads 7.
   */
  lemma ParseIntReadsLeadingDigits(ws: string, sign: string, d: string, rest: string)
    requires IsBlank(ws) && (sign == "" || sign == "+" || sign == "-")
    requires d != [] && AllDigits(d)
    requires rest == [] || !IsDigit(rest[0])
    ensures ParseInt(ws + sign + d + rest) == Some(if sign == "-" then -(DecimalValue(d) as int) else DecimalValue(d))
  {
    var x := sign + d + rest;
    var s := ws + x;
    assert ws + sign + d + rest == s;
    SignedDigitsThen(sign, d, rest);
    TrimStartOfBlankThen(ws, x);
    assert TrimStart(s) == x;
    ParseIntOfTrimmed(s, d);
  }

  /** `parseInt` once the white space is gone: the sign, then the digit run. */
  lemma ParseIntOfTrimmed(s: string, d: string)
    requires d != [] && AllDigits(d) && DigitPrefix(Unsigned(TrimStart(s))) == d
    ensures ParseInt(s) == Some(if TrimStart(s)[0] == '-' then -(DecimalValue(d) as int) else DecimalValue(d))
  {
  }

  /** After the white space: the sign is dropped and the digit run is read. */
  lemma SignedDigitsThen(sign: string, d: string, rest: string)
    requires sign == "" || sign == "+" || sign == "-"
    requires d != [] && AllDigits(d)
    requires rest == [] || !IsDigit(rest[0])
    ensures var x := sign + d + rest;
      x != [] && !IsSpace(x[0]) && (x[0] == '-' <==> sign == "-") && DigitPrefix(Unsigned(x)) == d
  {
    var x := sign + d + rest;
    if sign == "" {
      assert x == d + rest;
    } else {
      assert x[0] == sign[0] && x[1..] == d + rest;
    }
    DigitPrefixOfDigitsThen(d, rest);
  }

  /** A non-empty run of digits is its own longest digit prefix. */
  lemma DigitPrefixOfDigits(s: string)
    requires AllDigits(s)
    ensures DigitPrefix(s) == s
  {
  }

  /** `parseInt` reads back what `String(n)` prints, with or without a minus sign. */
  lemma ParseIntReadsDecimal(n: nat)
    ensures ParseInt(Decimal(n)) == Some(n)
    ensures ParseInt("-" + Decimal(n)) == Some(-(n as int))
  {
    var d := Decimal(n);
    DecimalRoundTrip(n);
    DigitPrefixOfDigits(d);
    assert !IsSpace(d[0]);
    assert TrimStart(d) == d;
    var m := "-" + d;
    assert m[1..] == d;
    assert TrimStart(m) == m;
  }

  /** `replace(/\D/g, "")`: the ASCII digits of `s`, in order. */
  function KeepDigits(s: string): (r: string)
    ensures AllDigits(r)
    ensures |r| <= |s|
    ensures multiset(r) <= multiset(s)
    ensures AllDigits(s) ==> r == s
  {
    if s == [] then []
    else
      assert s == [s[0]] + s[1..];
      if IsDigit(s[0]) then [s[0]] + KeepDigits(s[1..]) else KeepDigits(s[1..])
  }

  /** Digits are kept in their order: the filter distributes over concatenation. */
  lemma {:induction false} KeepDigitsConcat(a: string, b: string)
    ensures KeepDigits(a + b) == KeepDigits(a) + KeepDigits(b)
  {
    if a == [] {
      assert a + b == b;
    } else {
      assert (a + b)[1..] == a[1..] + b;
      KeepDigitsConcat(a[1..], b);
    }
  }

  /** `s.padStart(2, "0")`. */
  function PadStart2(s: string): (r: string)
    ensures |s| >= 2 ==> r == s
    ensures |s| < 2 ==> |r| == 2 && r[2 - |s|..] == s && r[..2 - |s|] == seq(2 - |s|, _ => '0')
  {
    if |s| >= 2 then s else seq(2 - |s|, _ => '0') + s
  }
}
