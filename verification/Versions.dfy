/**
 Stable contract versions, compared twice in the repository: once by the controller through unsigned
 64-bit components, and once by the browser through unbounded integers behind a length guard.
 */
module Versions {
  import opened Products
  import opened Decimals

  const MAX_UINT64: nat := 0xFFFF_FFFF_FFFF_FFFF

  /** One component: zero, or digits without a leading zero. */
  predicate Component(s: string)
  {
    s == "0" || (|s| > 0 && s[0] != '0' && forall c :: c in s ==> IsDigit(c))
  }

  function DigitValue(c: char): nat
    requires IsDigit(c)
  {
    (c as int) - ('0' as int)
  }

  function Value(s: string): nat
    requires forall c :: c in s ==> IsDigit(c)
  {
    if s == "" then 0 else 10 * Value(s[..|s| - 1]) + DigitValue(s[|s| - 1])
  }

  function Split(s: string, separator: char): (parts: seq<string>)
    ensures |parts| > 0
    decreases |s|
  {
    if s == "" then [""]
    else
      var rest := Split(s[1..], separator);
      if s[0] == separator then [""] + rest else [[s[0]] + rest[0]] + rest[1..]
  }

  /** The three components of a stable version, when the text is one. */
  function Stable(s: string): (parts: Option<(string, string, string)>)
    ensures parts.Some? ==>
              Component(parts.value.0) && Component(parts.value.1) && Component(parts.value.2)
  {
    if s == "" || s[0] != 'v' then None
    else
      var parts := Split(s[1..], '.');
      if |parts| == 3 && Component(parts[0]) && Component(parts[1]) && Component(parts[2])
      then Some((parts[0], parts[1], parts[2]))
      else None
  }

  type Triple = (nat, nat, nat)

  /** Component-wise order of the parsed versions, most significant first. */
  predicate AtLeast(a: Triple, m: Triple)
  {
    a.0 > m.0 || (a.0 == m.0 && (a.1 > m.1 || (a.1 == m.1 && a.2 >= m.2)))
  }

  function ParseUint(s: string): Option<nat>
    requires Component(s)
  {
    if Value(s) <= MAX_UINT64 then Some(Value(s)) else None
  }

  function ParseSemantic(s: string): Option<Triple>
  {
    match Stable(s)
    case None => None
    case Some((major, minor, patch)) =>
      match (ParseUint(major), ParseUint(minor), ParseUint(patch))
      case (Some(x), Some(y), Some(z)) => Some((x, y, z))
      case _ => None
  }

  /** The controller's decision: same-major upgrades, exact text before version one. */
  predicate CompatibleVersion(actual: string, minimum: string)
  {
    if Stable(actual).None? || Stable(minimum).None? then false
    else
      match ParseSemantic(actual)
      case None => false
      case Some(a) =>
        match ParseSemantic(minimum)
        case None => false
        case Some(m) =>
          if a.0 != m.0 then false
          else if a.0 == 0 then actual == minimum
          else AtLeast(a, m)
  }

  /** The browser bounds the text of every component before it converts any of them. */
  function BrowserParts(s: string): Option<Triple>
  {
    match Stable(s)
    case None => None
    case Some((major, minor, patch)) =>
      if |major| > 20 || |minor| > 20 || |patch| > 20 then None
      else
        var numbers := (Value(major), Value(minor), Value(patch));
        if numbers.0 <= MAX_UINT64 && numbers.1 <= MAX_UINT64 && numbers.2 <= MAX_UINT64
        then Some(numbers)
        else None
  }

  predicate BrowserCompatible(actual: string, minimum: string)
  {
    match (BrowserParts(actual), BrowserParts(minimum))
    case (Some(a), Some(m)) =>
      if a.0 != m.0 then false
      else if a.0 == 0 then actual == minimum
      else a.1 > m.1 || (a.1 == m.1 && a.2 >= m.2)
    case _ => false
  }

  /** A numeral whose first digit is not zero is at least the power of ten of its length. */
  lemma {:induction false} LeadingDigit(s: string)
    requires |s| > 0 && s[0] != '0' && forall c :: c in s ==> IsDigit(c)
    ensures Value(s) >= Pow10(|s| - 1)
    decreases |s|
  {
    if |s| > 1 {
      var front := s[..|s| - 1];
      assert front[0] == s[0];
      LeadingDigit(front);
    } else {
      assert Value(s[..0]) == 0;
      assert s[0] in s;
    }
  }

  lemma {:induction false} LongComponentOverflows(s: string)
    requires Component(s) && |s| > 20
    ensures Value(s) > MAX_UINT64
  {
    LeadingDigit(s);
    Pow10Grows(20, |s| - 1);
    assert Pow10(5) == 100_000;
    assert Pow10(10) == 100_000 * Pow10(5);
    assert Pow10(15) == 100_000 * Pow10(10);
    assert Pow10(20) == 100_000 * Pow10(15);
  }

  lemma {:induction false} PartsAgree(s: string)
    ensures BrowserParts(s) == ParseSemantic(s)
  {
    if Stable(s).Some? {
      var (major, minor, patch) := Stable(s).value;
      if |major| > 20 { LongComponentOverflows(major); }
      if |minor| > 20 { LongComponentOverflows(minor); }
      if |patch| > 20 { LongComponentOverflows(patch); }
    }
  }

  /** The browser and the controller decide every pair of version texts alike. */
  lemma {:induction false} BrowserAgreesWithController(actual: string, minimum: string)
    ensures BrowserCompatible(actual, minimum) == CompatibleVersion(actual, minimum)
  {
    PartsAgree(actual);
    PartsAgree(minimum);
  }
}
