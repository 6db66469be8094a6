/**
 * Unsigned 64-bit integers as Rust's `u64::from_str` reads them from text
 * and its `Display` writes them out.
 */
module Decimal {

  /** Largest value of a 64-bit unsigned integer. */
  const U64_MAX: int := 0xFFFF_FFFF_FFFF_FFFF

  type u64 = x: int | 0 <= x <= U64_MAX

  datatype Option<+T> = None | Some(value: T)

  predicate IsDigit(c: char) {
    '0' <= c <= '9'
  }

  predicate AllDigits(s: string) {
    forall i :: 0 <= i < |s| ==> IsDigit(s[i])
  }

  function DigitValue(c: char): (d: nat)
    requires IsDigit(c)
    ensures d < 10
  {
    (c as int) - ('0' as int)
  }

  function DigitChar(d: nat): (c: char)
    requires d < 10
    ensures IsDigit(c) && DigitValue(c) == d
  {
    ('0' as int + d) as char
  }

  /** The number a string of decimal digits denotes, most significant first. */
  function DigitsValue(s: string): nat
    requires AllDigits(s)
    decreases |s|
  {
    if s == [] then 0 else DigitsValue(s[..|s| - 1]) * 10 + DigitValue(s[|s| - 1])
  }

  /** The digits after an optional leading '+'. */
  function Unsigned(s: string): string {
    if s != [] && s[0] == '+' then s[1..] else s
  }

  /**
   * `u64::from_str`: ASCII decimal digits, optionally preceded by one '+';
   * the empty string, a lone sign, '-', any other character and any value
   * above U64_MAX are rejected.
   */
  function ParseU64(s: string): (r: Option<u64>)
    ensures r.Some? ==> s != [] && Unsigned(s) != [] && AllDigits(Unsigned(s))
  {
    var digits := Unsigned(s);
    if digits != [] && AllDigits(digits) && DigitsValue(digits) <= U64_MAX then
      Some(DigitsValue(digits))
    else
      None
  }

  /** Shortest decimal rendering of `n`, as `Display` writes an integer. */
  function ShowNat(n: nat): (r: string)
    ensures r != [] && AllDigits(r)
    ensures |r| > 1 ==> r[0] != '0'
    decreases n
  {
    if n < 10 then [DigitChar(n)] else ShowNat(n / 10) + [DigitChar(n % 10)]
  }

  lemma {:induction false} ShowNatValue(n: nat)
    ensures DigitsValue(ShowNat(n)) == n
    decreases n
  {
    if n >= 10 {
      var s := ShowNat(n / 10);
      var t := s + [DigitChar(n % 10)];
      assert t[..|t| - 1] == s;
      ShowNatValue(n / 10);
    }
  }

  /**
   * Reading back what `Display` wrote gives the number again exactly when it
   * fits in 64 bits, and a rejection otherwise (overflow).
   */
  lemma {:induction false} ParseShow(n: nat)
    ensures ParseU64(ShowNat(n)) == if n <= U64_MAX then Some(n) else None
  {
    ShowNatValue(n);
    assert IsDigit(ShowNat(n)[0]);
  }

  /** One leading '+' is accepted and does not change the value. */
  lemma {:induction false} ParsePlusShow(n: nat)
    ensures ParseU64("+" + ShowNat(n)) == if n <= U64_MAX then Some(n) else None
  {
    assert Unsigned("+" + ShowNat(n)) == ShowNat(n);
    ShowNatValue(n);
  }

  lemma {:induction false} LeadingZeroValue(s: string)
    requires AllDigits(s)
    ensures AllDigits("0" + s) && DigitsValue("0" + s) == DigitsValue(s)
    decreases |s|
  {
    var t := "0" + s;
    assert AllDigits(t) by {
      forall i | 0 <= i < |t| ensures IsDigit(t[i]) {
        if i > 0 { assert t[i] == s[i - 1]; }
      }
    }
    if s != [] {
      var p := s[..|s| - 1];
      assert t[..|t| - 1] == "0" + p;
      LeadingZeroValue(p);
    }
  }

  /** Leading zeros are accepted and do not change the value. */
  lemma {:induction false} ParseLeadingZero(s: string)
    requires s == [] || s[0] != '+'
    ensures s != [] ==> ParseU64("0" + s) == ParseU64(s)
    ensures s == [] ==> ParseU64("0" + s) == Some(0)
  {
    var t := "0" + s;
    assert Unsigned(t) == t;
    if AllDigits(s) {
      LeadingZeroValue(s);
    } else {
      var i :| 0 <= i < |s| && !IsDigit(s[i]);
      assert t[i + 1] == s[i];
    }
  }

  /**
   * A character that is neither a digit nor the one optional leading '+'
   * (a space, a '-', a letter) makes the whole string unreadable.
   */
  lemma ParseRejectsNonDigit(s: string, i: nat)
    requires i < |s| && !IsDigit(s[i])
    requires i > 0 || s[0] != '+'
    ensures ParseU64(s) == None
  {
  }

  /** The empty string, a lone '+' and anything starting with '-' are rejected. */
  lemma ParseRejectsSigns(t: string)
    ensures ParseU64("") == None
    ensures ParseU64("+") == None
    ensures ParseU64("-" + t) == None
  {
  }
}
