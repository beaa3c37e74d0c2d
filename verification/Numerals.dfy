/** Decimal numerals: the digits of a number and the number at the front of a text. */
module Numerals {

  function Digit(d: int): (c: char)
    requires 0 <= d < 10
  {
    "0123456789"[d]
  }

  function Digits(n: nat): (s: string)
    ensures s != ""
  {
    if n < 10 then [Digit(n)] else Digits(n / 10) + [Digit(n % 10)]
  }

  predicate IsDigit(c: char) {
    '0' <= c <= '9'
  }

  function DigitRun(s: string): (n: nat)
    ensures n <= |s|
    ensures forall i :: 0 <= i < n ==> IsDigit(s[i])
    ensures n < |s| ==> !IsDigit(s[n])
  {
    if s == "" || !IsDigit(s[0]) then 0 else 1 + DigitRun(s[1..])
  }

  function NumberOf(s: string): (n: int)
    requires forall i :: 0 <= i < |s| ==> IsDigit(s[i])
    ensures n >= 0
  {
    if s == "" then 0
    else
      assert IsDigit(s[|s| - 1]);
      10 * NumberOf(s[..|s| - 1]) + (s[|s| - 1] as int - '0' as int)
  }

  lemma {:induction false} DigitsAreDigits(n: nat)
    ensures forall i :: 0 <= i < |Digits(n)| ==> IsDigit(Digits(n)[i])
    ensures NumberOf(Digits(n)) == n
  {
    var s := Digits(n);
    if n < 10 {
      assert s[..0] == "";
    } else {
      DigitsAreDigits(n / 10);
      assert s[..|s| - 1] == Digits(n / 10);
    }
  }

  lemma {:induction false} RunOf(s: string, rest: string)
    requires forall i :: 0 <= i < |s| ==> IsDigit(s[i])
    requires rest == "" || !IsDigit(rest[0])
    ensures DigitRun(s + rest) == |s|
  {
    if s == "" {
      assert s + rest == rest;
    } else {
      RunOf(s[1..], rest);
      assert (s + rest)[1..] == s[1..] + rest;
    }
  }

  function Pow10(n: nat): (r: int)
    ensures r >= 1
  {
    if n == 0 then 1 else 10 * Pow10(n - 1)
  }

  /** The last digits of a number, with zeros in front. */
  function Padded(n: nat, width: nat): (s: string)
    ensures |s| == width && forall i :: 0 <= i < width ==> IsDigit(s[i])
  {
    if width == 0 then "" else Padded(n / 10, width - 1) + [Digit(n % 10)]
  }

  /** Digits in front of others count for their place. */
  lemma {:induction false} NumberInFront(s: string, n: nat, width: nat)
    requires (forall i :: 0 <= i < |s| ==> IsDigit(s[i])) && n < Pow10(width)
    ensures var t := s + Padded(n, width); forall i :: 0 <= i < |t| ==> IsDigit(t[i])
    ensures NumberOf(s + Padded(n, width)) == NumberOf(s) * Pow10(width) + n
    decreases width
  {
    hide NumberOf;
    if width == 0 {
      assert s + Padded(n, width) == s;
    } else {
      var front := s + Padded(n / 10, width - 1);
      NumberInFront(s, n / 10, width - 1);
      LastDigit(front, n % 10);
      assert s + Padded(n, width) == front + [Digit(n % 10)];
      TenTimes(NumberOf(s), Pow10(width - 1));
    }
  }

  lemma LastDigit(s: string, d: int)
    requires (forall i :: 0 <= i < |s| ==> IsDigit(s[i])) && 0 <= d < 10
    ensures var t := s + [Digit(d)]; (forall i :: 0 <= i < |t| ==> IsDigit(t[i])) && NumberOf(t) == 10 * NumberOf(s) + d
  {
    var t := s + [Digit(d)];
    assert t[..|t| - 1] == s;
  }

  lemma TenTimes(a: int, b: int)
    ensures a * (10 * b) == 10 * (a * b)
  {
  }

  /** The value of a hexadecimal digit, or -1. */
  function HexDigit(c: char): (r: int)
    ensures -1 <= r < 16
  {
    if IsDigit(c) then c as int - '0' as int
    else if 'A' <= c <= 'F' then c as int - 'A' as int + 10
    else if 'a' <= c <= 'f' then c as int - 'a' as int + 10
    else -1
  }

  /** The upper-case hexadecimal digit of a value. */
  function UpperHex(n: nat): (c: char)
    requires n < 16
    ensures HexDigit(c) == n
    ensures '0' <= c <= '9' || 'A' <= c <= 'F'
  {
    "0123456789ABCDEF"[n]
  }
}
