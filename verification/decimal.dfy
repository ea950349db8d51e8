/** Decimal rendering of non-negative integers, as JavaScript's template literals print them. */
module Decimal {
  import opened JsValues

  function DigitChar(d: nat): (c: char)
    requires d < 10
    ensures '0' <= c <= '9'
  {
    "0123456789"[d]
  }

  function DigitValue(c: char): (d: nat)
    requires '0' <= c <= '9'
    ensures d < 10 && DigitChar(d) == c
  {
    (c as int - '0' as int) as nat
  }

  predicate AllDigits(s: string)
  {
    forall k :: 0 <= k < |s| ==> '0' <= s[k] <= '9'
  }

  /** The shortest decimal spelling of n (no sign, no leading zeros). */
  function NatToString(n: nat): (s: string)
    ensures |s| >= 1 && AllDigits(s)
    ensures |s| > 1 ==> s[0] != '0'
  {
    if n < 10 then [DigitChar(n)] else NatToString(n / 10) + [DigitChar(n % 10)]
  }

  /** Reads a string of decimal digits back as a number; `None` for an empty string or a non-digit. */
  function ParseNat(s: string): (r: Option<nat>)
    ensures r.Some? <==> |s| > 0 && AllDigits(s)
  {
    if |s| == 0 then None
    else if !('0' <= s[|s| - 1] <= '9') then None
    else if |s| == 1 then Some(DigitValue(s[0]))
    else match ParseNat(s[..|s| - 1])
      case None => None
      case Some(v) => Some(v * 10 + DigitValue(s[|s| - 1]))
  }

  /** Reading back the decimal spelling of n gives n. */
  lemma {:induction false} ParseNatToString(n: nat)
    ensures ParseNat(NatToString(n)) == Some(n)
  {
    if n >= 10 {
      ParseNatToString(n / 10);
      SpellingSplits(n);
      ParseNatStep(NatToString(n));
      assert (n / 10) * 10 + n % 10 == n;
    }
  }

  /** The spelling of n ≥ 10 is the spelling of n / 10 followed by the last digit. */
  lemma {:induction false} SpellingSplits(n: nat)
    requires n >= 10
    ensures var s := NatToString(n);
      |s| > 1 && s[..|s| - 1] == NatToString(n / 10) && DigitValue(s[|s| - 1]) == n % 10
  {
  }

  /** Reading a digit string of length ≥ 2: the prefix's value times ten plus the last digit. */
  lemma {:induction false} ParseNatStep(s: string)
    requires |s| > 1 && '0' <= s[|s| - 1] <= '9' && ParseNat(s[..|s| - 1]).Some?
    ensures ParseNat(s) == Some(ParseNat(s[..|s| - 1]).value * 10 + DigitValue(s[|s| - 1]))
  {
  }
}
