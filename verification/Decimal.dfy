/** Decimal printing, and the two ways the programs read decimals back. */
module Decimal {

  datatype Option<+T> = None | Some(value: T)

  predicate IsDigit(c: char) {
    '0' <= c <= '9'
  }

  predicate AllDigits(s: string) {
    forall i :: 0 <= i < |s| ==> IsDigit(s[i])
  }

  function DigitChar(d: nat): (c: char)
    requires d < 10
    ensures IsDigit(c)
  {
    '0' + d as char
  }

  function DigitValue(c: char): (d: nat)
    requires IsDigit(c)
    ensures d < 10
  {
    (c - '0') as nat
  }

  /** `std::to_string`, `operator<<` and Python's formatting of a non-negative integer. */
  function PrintNat(n: nat): (s: string)
    ensures s != [] && AllDigits(s)
  {
    if n < 10 then [DigitChar(n)] else PrintNat(n / 10) + [DigitChar(n % 10)]
  }

  function PrintInt(n: int): string {
    if n < 0 then "-" + PrintNat(-n) else PrintNat(n)
  }

  function Value(s: string): nat
    requires AllDigits(s)
  {
    if s == "" then 0 else 10 * Value(s[..|s| - 1]) + DigitValue(s[|s| - 1])
  }

  predicate IsSpace(c: char) {
    c == ' ' || '\t' <= c <= '\r'
  }

  /** A sign and decimal digits, nothing else. */
  function SignedValue(s: string): Option<int> {
    if s != "" && s[0] == '-' then
      if |s| > 1 && AllDigits(s[1..]) then Some(-(Value(s[1..]) as int)) else None
    else if s != "" && s[0] == '+' then
      if |s| > 1 && AllDigits(s[1..]) then Some(Value(s[1..])) else None
    else if s != "" && AllDigits(s) then Some(Value(s))
    else None
  }

  function LStrip(s: string): (r: string)
    ensures |r| <= |s|
  {
    if s != "" && IsSpace(s[0]) then LStrip(s[1..]) else s
  }

  function RStrip(s: string): (r: string)
    ensures |r| <= |s|
  {
    if s != "" && IsSpace(s[|s| - 1]) then RStrip(s[..|s| - 1]) else s
  }

  /** Python's `int(s.strip())`; a value error is None. */
  function PyInt(s: string): Option<int> {
    SignedValue(RStrip(LStrip(s)))
  }

  /** The longest prefix of digits. */
  function DigitPrefix(s: string): (r: string)
    ensures AllDigits(r)
  {
    if s != "" && IsDigit(s[0]) then [s[0]] + DigitPrefix(s[1..]) else ""
  }

  const INT_MAX: int := 0x7FFF_FFFF
  const INT_MIN: int := -0x8000_0000

  function InRange(v: int): Option<int> {
    if INT_MIN <= v <= INT_MAX then Some(v) else None
  }

  /** C++'s `std::stoi`; either exception is None.  What follows the digits is ignored. */
  function Stoi(s: string): Option<int> {
    var t := LStrip(s);
    var negative := t != "" && t[0] == '-';
    var digits := DigitPrefix(if t != "" && (t[0] == '-' || t[0] == '+') then t[1..] else t);
    if digits == "" then None
    else
      var v := if negative then -(Value(digits) as int) else Value(digits);
      InRange(v)
  }

  // ---- Reading inverts printing ----

  lemma {:induction false} ValueOfPrint(n: nat)
    ensures Value(PrintNat(n)) == n
  {
    if n < 10 {
      assert [DigitChar(n)][..0] == "";
      assert Value([DigitChar(n)]) == DigitValue(DigitChar(n));
    } else {
      var s := PrintNat(n / 10) + [DigitChar(n % 10)];
      assert s[..|s| - 1] == PrintNat(n / 10);
      ValueOfPrint(n / 10);
    }
  }

  /** Digit by digit: the last one is the remainder, in front of it stands the quotient. */
  lemma DigitsSpelledOut(n: nat, d: nat)
    requires d < 10
    ensures PrintNat(d) == ["0123456789"[d]]
    ensures n > 0 ==> PrintNat(10 * n + d) == PrintNat(n) + ["0123456789"[d]]
    ensures PrintInt(-1) == "-1"
  {
    assert DigitChar(d) == "0123456789"[d];
    assert (10 * n + d) / 10 == n && (10 * n + d) % 10 == d;
  }

  /** No leading zeros. */
  lemma {:induction false} PrintLead(n: nat)
    requires n > 0
    ensures PrintNat(n)[0] != '0'
  {
    if n >= 10 {
      PrintLead(n / 10);
    }
  }

  lemma {:induction false} DigitPrefixAll(s: string)
    requires AllDigits(s)
    ensures DigitPrefix(s) == s
  {
    if s != "" {
      DigitPrefixAll(s[1..]);
    }
  }

  lemma PyIntOfPrint(n: nat)
    ensures PyInt(PrintNat(n) + "\r\n") == Some(n)
  {
    var p := PrintNat(n);
    var s := p + "\r\n";
    ValueOfPrint(n);
    assert IsDigit(s[0]);
    assert LStrip(s) == s;
    assert s[..|s| - 1] == p + "\r" && (p + "\r")[..|p|] == p;
    assert RStrip(s) == RStrip(p + "\r") == RStrip(p) == p;
    assert IsDigit(p[0]);
  }

  /** Far fewer digits than the number itself. */
  lemma {:induction false} PrintShort(n: nat)
    ensures |PrintNat(n)| <= 1 + n / 10
  {
    if n >= 10 {
      PrintShort(n / 10);
    }
  }

  /** Digits as `std::stoi` reads them. */
  lemma StoiOfDigits(p: string)
    requires p != "" && AllDigits(p)
    ensures Stoi(p) == InRange(Value(p))
  {
    assert IsDigit(p[0]);
    assert LStrip(p) == p;
    DigitPrefixAll(p);
  }

  lemma StoiOfNegative(s: string)
    requires |s| > 1 && s[0] == '-' && AllDigits(s[1..])
    ensures Stoi(s) == InRange(-(Value(s[1..]) as int))
  {
    assert LStrip(s) == s;
    DigitPrefixAll(s[1..]);
  }

  /** Every int printed by `std::to_string` is read back by `std::stoi`. */
  lemma StoiOfPrint(n: int)
    requires INT_MIN <= n <= INT_MAX
    ensures Stoi(PrintInt(n)) == Some(n)
  {
    var m: nat := if n < 0 then -n else n;
    ValueOfPrint(m);
    if n < 0 {
      assert PrintInt(n)[1..] == PrintNat(m);
      StoiOfNegative(PrintInt(n));
    } else {
      StoiOfDigits(PrintNat(m));
    }
  }

  /** Beyond INT_MAX reading a printed number throws. */
  lemma StoiTooBig(n: nat)
    requires n > INT_MAX
    ensures Stoi(PrintNat(n)) == None
  {
    ValueOfPrint(n);
    StoiOfDigits(PrintNat(n));
  }

  lemma PrintIntInjective(m: int, n: int)
    requires PrintInt(m) == PrintInt(n)
    ensures m == n
  {
    var pm, pn := PrintNat(if m < 0 then -m else m), PrintNat(if n < 0 then -n else n);
    ValueOfPrint(if m < 0 then -m else m);
    ValueOfPrint(if n < 0 then -n else n);
    assert IsDigit(pm[0]) && IsDigit(pn[0]);
    assert m < 0 ==> PrintInt(m)[1..] == pm && PrintInt(m)[0] == '-';
    assert n < 0 ==> PrintInt(n)[1..] == pn && PrintInt(n)[0] == '-';
  }
}
