/** Decimal text of integers, as Rust's `format!("{}")` writes an `i64`,
    and the matching reader. */
module Decimal {
  import opened Results

  predicate IsDigit(c: char) {
    '0' <= c <= '9'
  }

  predicate AllDigits(s: string) {
    forall i :: 0 <= i < |s| ==> IsDigit(s[i])
  }

  function DigitChar(d: nat): (c: char)
    requires d < 10
    ensures IsDigit(c) && DigitValue(c) == d
  {
    ('0' as int + d) as char
  }

  function DigitValue(c: char): nat
    requires IsDigit(c)
  {
    c as int - '0' as int
  }

  /** Decimal digits of `n`, most significant first, without leading zeros. */
  function NatText(n: nat): (s: string)
    ensures |s| > 0 && AllDigits(s)
    ensures s[0] == '0' <==> n == 0
  {
    if n < 10 then [DigitChar(n)] else NatText(n / 10) + [DigitChar(n % 10)]
  }

  /** Rust's `Display` for a signed integer: a '-' before the magnitude of a
      negative number, nothing before a non-negative one. */
  function IntText(n: int): (s: string)
    ensures |s| > 0 && (s[0] == '-' <==> n < 0)
    ensures n < 0 ==> AllDigits(s[1..])
    ensures n >= 0 ==> AllDigits(s)
  {
    if n < 0 then "-" + NatText(-n) else NatText(n)
  }

  /** The value of a string of digits, most significant first. */
  function DigitsValue(s: string): nat
    requires AllDigits(s)
  {
    if s == [] then 0 else 10 * DigitsValue(s[..|s| - 1]) + DigitValue(s[|s| - 1])
  }

  /** The length of the longest prefix of `s` made of digits. */
  function DigitSpan(s: string): (k: nat)
    ensures k <= |s| && AllDigits(s[..k])
    ensures k < |s| ==> !IsDigit(s[k])
  {
    if s != [] && IsDigit(s[0]) then 1 + DigitSpan(s[1..]) else 0
  }

  /** Reads an unsigned decimal at the start of `s`: its value and the
      number of characters read. */
  function ParseNat(s: string): (r: Option<(nat, nat)>)
    ensures r.Some? ==> 0 < r.value.1 <= |s|
    ensures r.None? <==> (s == [] || !IsDigit(s[0]))
  {
    var k := DigitSpan(s);
    if k == 0 then None else Some((DigitsValue(s[..k]), k))
  }

  /** Reads an optionally negative decimal at the start of `s`. */
  function ParseInt(s: string): (r: Option<(int, nat)>)
    ensures r.Some? ==> 0 < r.value.1 <= |s|
  {
    if s != [] && s[0] == '-' then
      match ParseNat(s[1..])
      case None => None
      case Some((v, k)) => var negated := -(v as int); Some((negated, k + 1))
    else
      match ParseNat(s)
      case None => None
      case Some((v, k)) => Some((v, k))
  }

  lemma {:induction false} DigitsValueOfNatText(n: nat)
    ensures DigitsValue(NatText(n)) == n
  {
    if n >= 10 {
      DigitsValueOfNatText(n / 10);
      var s := NatText(n);
      assert s[..|s| - 1] == NatText(n / 10);
    }
  }

  /** The digit span of `digits + rest` stops where `digits` ends when
      `rest` does not begin with a digit. */
  lemma DigitSpanOfPrefix(digits: string, rest: string)
    requires AllDigits(digits)
    requires rest == [] || !IsDigit(rest[0])
    ensures DigitSpan(digits + rest) == |digits|
  {
    var s := digits + rest;
    var k := DigitSpan(s);
    assert forall i :: 0 <= i < |digits| ==> IsDigit(s[i]);
    assert |digits| < |s| ==> !IsDigit(s[|digits|]);
  }

  lemma ParseNatText(n: nat, rest: string)
    requires rest == [] || !IsDigit(rest[0])
    ensures ParseNat(NatText(n) + rest) == Some((n, |NatText(n)|))
  {
    var digits := NatText(n);
    DigitsValueOfNatText(n);
    DigitSpanOfPrefix(digits, rest);
    assert (digits + rest)[..|digits|] == digits;
  }

  lemma ParseIntNegative(s: string, v: nat, k: nat)
    requires s != [] && s[0] == '-' && ParseNat(s[1..]) == Some((v, k))
    ensures ParseInt(s) == Some((-(v as int), k + 1))
  {
  }

  lemma ParseIntUnsigned(s: string, v: nat, k: nat)
    requires s != [] && s[0] != '-' && ParseNat(s) == Some((v, k))
    ensures ParseInt(s) == Some((v, k))
  {
  }

  /** Reading back a minus sign and the digits of a positive number. */
  lemma ParseSignedText(m: nat, rest: string)
    requires rest == [] || !IsDigit(rest[0])
    ensures ParseInt("-" + NatText(m) + rest) == Some((-(m as int), |NatText(m)| + 1))
  {
    var digits := NatText(m);
    var s := "-" + digits + rest;
    assert s[1..] == digits + rest;
    ParseNatText(m, rest);
    ParseIntNegative(s, m, |digits|);
  }

  /** Reading back the digits of a number with no sign in front. */
  lemma ParseUnsignedText(m: nat, rest: string)
    requires rest == [] || !IsDigit(rest[0])
    ensures ParseInt(NatText(m) + rest) == Some((m as int, |NatText(m)|))
  {
    ParseNatText(m, rest);
    ParseIntUnsigned(NatText(m) + rest, m, |NatText(m)|);
  }

  /** Reading back the text of any integer, followed by anything that is not
      a digit, yields the integer and the length of its text. */
  lemma ParseIntText(n: int, rest: string)
    requires rest == [] || !IsDigit(rest[0])
    ensures ParseInt(IntText(n) + rest) == Some((n, |IntText(n)|))
  {
    if n < 0 {
      ParseSignedText(-n, rest);
      assert IntText(n) + rest == "-" + NatText(-n) + rest;
    } else {
      ParseUnsignedText(n, rest);
    }
  }
}
