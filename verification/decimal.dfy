/**
 * Decimal numerals over ASCII digits: Python's `int(s)` on the digit runs the
 * selector grammar captures, and `str(n)` for device indices and host ports.
 */
module Decimal {
  import opened Wrappers

  predicate IsDigit(c: char) {
    '0' <= c <= '9'
  }

  predicate IsDigits(s: string) {
    forall i :: 0 <= i < |s| ==> IsDigit(s[i])
  }

  /** What `\d+` matches when restricted to ASCII: a non-empty digit run, leading zeros allowed. */
  predicate IsNumeral(s: string) {
    s != [] && IsDigits(s)
  }

  function DigitValue(c: char): (d: nat)
    requires IsDigit(c)
    ensures d < 10
  {
    c as int - '0' as int
  }

  function DigitChar(d: nat): (c: char)
    requires d < 10
    ensures IsDigit(c) && DigitValue(c) == d
  {
    ('0' as int + d) as char
  }

  /** `int(s)` for a run of ASCII digits, read most significant digit first. */
  function Value(s: string): nat
    requires IsDigits(s)
  {
    if s == [] then 0 else Value(s[..|s| - 1]) * 10 + DigitValue(s[|s| - 1])
  }

  /** A numeral as `str` writes it: no leading zero, except for `0` itself. */
  predicate IsCanonical(s: string) {
    IsNumeral(s) && (s[0] == '0' ==> s == "0")
  }

  /** Reads a canonical numeral back; the inverse of `Show`. */
  function ParseNat(s: string): Option<nat> {
    if IsCanonical(s) then Some(Value(s)) else None
  }

  /** Reads a canonical, optionally signed numeral back (`-0` is refused); the inverse of `ShowInt`. */
  function ParseInt(s: string): Option<int> {
    if |s| > 0 && s[0] == '-' then
      (match ParseNat(s[1..])
       case Some(n) => if n == 0 then None else Some(0 - n as int)
       case None => None)
    else
      (match ParseNat(s)
       case Some(n) => Some(n as int)
       case None => None)
  }

  /** `str(n)` for n >= 0: canonical decimal, no leading zero except for 0 itself. */
  function Show(n: nat): (r: string)
    ensures IsNumeral(r) && Value(r) == n
    ensures ParseNat(r) == Some(n)
    ensures r[0] == '0' ==> r == "0"
  {
    if n < 10 then
      [DigitChar(n)]
    else
      var r := Show(n / 10) + [DigitChar(n % 10)];
      assert r[..|r| - 1] == Show(n / 10);
      r
  }

  /** `str(n)` for any int: a minus sign, then the digits of |n|. */
  function ShowInt(n: int): (r: string)
    ensures ParseInt(r) == Some(n)
  {
    if n < 0 then
      var r := "-" + Show(-n);
      assert r[1..] == Show(-n);
      r
    else
      Show(n)
  }

  /** A numeral with a non-zero leading digit denotes a positive number. */
  lemma {:induction false} ValuePositive(s: string)
    requires IsNumeral(s) && s[0] != '0'
    ensures Value(s) >= 1
  {
    if |s| > 1 {
      var init := s[..|s| - 1];
      assert init[0] == s[0];
      ValuePositive(init);
    }
  }

  /** A canonical numeral is the decimal form of its own value. */
  lemma {:induction false} ShowValue(s: string)
    requires IsCanonical(s)
    ensures Show(Value(s)) == s
  {
    if |s| > 1 {
      var init, d := s[..|s| - 1], DigitValue(s[|s| - 1]);
      assert init[0] == s[0] != '0';
      ValuePositive(init);
      ShowValue(init);
      var n := Value(s);
      assert n == Value(init) * 10 + d;
      assert n / 10 == Value(init) && n % 10 == d;
      assert DigitChar(d) == s[|s| - 1];
      assert Show(n) == init + [s[|s| - 1]];
    } else {
      assert DigitChar(DigitValue(s[0])) == s[0];
    }
  }

  /** Only the decimal form of n reads back as n: no padded or signed variant does. */
  lemma ParseNatOnlyShow(s: string, n: nat)
    ensures ParseNat(s) == Some(n) <==> s == Show(n)
  {
    if ParseNat(s) == Some(n) {
      ShowValue(s);
    }
  }

  /** Only the decimal form of n reads back as n, for any integer n. */
  lemma ParseIntOnlyShowInt(s: string, n: int)
    ensures ParseInt(s) == Some(n) <==> s == ShowInt(n)
  {
    if ParseInt(s) == Some(n) {
      if |s| > 0 && s[0] == '-' {
        ParseNatOnlyShow(s[1..], -n);
        assert s == "-" + s[1..];
      } else {
        ParseNatOnlyShow(s, n);
      }
    }
  }
}
