/** Decimal rendering and parsing of integers, as the program uses them:
    `fmt.Sprintf("%d", n)`, the right-aligned `%7d` verb, and
    `strconv.ParseInt(s, 10, 64)`. */
module Decimal {
  import opened Basics

  predicate IsDigit(c: char) {
    '0' <= c <= '9'
  }

  predicate AllDigits(s: string) {
    forall i :: 0 <= i < |s| ==> IsDigit(s[i])
  }

  function DigitValue(c: char): (d: nat)
    requires IsDigit(c)
    ensures d < 10
  {
    c as int - '0' as int
  }

  function DigitChar(d: nat): (c: char)
    requires d < 10
    ensures IsDigit(c) && DigitValue(c) == d
  {
    (d + '0' as int) as char
  }

  function Pow10(k: nat): (p: nat)
    ensures p >= 1
  {
    if k == 0 then 1 else 10 * Pow10(k - 1)
  }

  lemma {:induction false} Pow10Monotone(i: nat, j: nat)
    requires i <= j
    ensures Pow10(i) <= Pow10(j)
    decreases j - i
  {
    if i < j {
      Pow10Monotone(i, j - 1);
    }
  }

  /** `%d` of a non-negative number: the shortest decimal digit string. */
  function NatToString(n: nat): (r: string)
    ensures 1 <= |r| && AllDigits(r)
    ensures n == 0 ==> r == "0"
    ensures n > 0 ==> r[0] != '0'
    decreases n
  {
    if n < 10 then [DigitChar(n)] else NatToString(n / 10) + [DigitChar(n % 10)]
  }

  /** `%d` of any integer: a minus sign for negative values, then the digits. */
  function IntToString(n: int): (r: string)
    ensures 1 <= |r|
    ensures r[0] == '-' <==> n < 0
  {
    if n < 0 then "-" + NatToString(-n) else NatToString(n)
  }

  /** The number a digit string denotes, read left to right. */
  function DigitsValue(s: string): nat
    requires AllDigits(s)
    decreases |s|
  {
    if |s| == 0 then 0 else DigitsValue(s[..|s| - 1]) * 10 + DigitValue(s[|s| - 1])
  }

  lemma {:induction false} DigitsValueOfNatToString(n: nat)
    ensures DigitsValue(NatToString(n)) == n
    decreases n
  {
    if n >= 10 {
      DigitsValueOfNatToString(n / 10);
      var t := NatToString(n);
      assert t[..|t| - 1] == NatToString(n / 10);
    }
  }

  /** Rendering is injective: distinct numbers never print alike. */
  lemma IntToStringInjective(a: int, b: int)
    ensures IntToString(a) == IntToString(b) ==> a == b
  {
    if IntToString(a) == IntToString(b) {
      if a < 0 {
        DigitsValueOfNatToString(-a);
        DigitsValueOfNatToString(-b);
        assert NatToString(-a) == IntToString(a)[1..];
        assert NatToString(-b) == IntToString(b)[1..];
      } else {
        DigitsValueOfNatToString(a);
        DigitsValueOfNatToString(b);
      }
    }
  }

  /** A positive number has k digits exactly when it lies in [10^(k-1), 10^k). */
  lemma {:induction false} NatToStringMagnitude(n: nat)
    requires n > 0
    ensures Pow10(|NatToString(n)| - 1) <= n < Pow10(|NatToString(n)|)
    decreases n
  {
    if n >= 10 {
      NatToStringMagnitude(n / 10);
      var k := |NatToString(n / 10)|;
      assert |NatToString(n)| == k + 1;
      assert Pow10(k) == 10 * Pow10(k - 1);
      assert Pow10(k + 1) == 10 * Pow10(k);
      assert Pow10(k - 1) <= n / 10 < Pow10(k);
      assert 10 * (n / 10) <= n < 10 * (n / 10) + 10;
    }
  }

  lemma NatToStringLength(n: nat, k: nat)
    requires n > 0 && k >= 1
    ensures |NatToString(n)| == k <==> Pow10(k - 1) <= n < Pow10(k)
  {
    NatToStringMagnitude(n);
    var len := |NatToString(n)|;
    if Pow10(k - 1) <= n < Pow10(k) {
      if len < k {
        Pow10Monotone(len, k - 1);
      } else if len > k {
        Pow10Monotone(k, len - 1);
      }
    }
  }

  /** `strconv.ParseInt(s, 10, 64)`: an optional `+` or `-`, then one or more
      decimal digits (leading zeros allowed), denoting a value in the int64
      range. Anything else — the empty string, a bare sign, a non-digit,
      an out-of-range value — is rejected. */
  function ParseInt64(s: string): (r: Option<int64>)
    ensures r.Some? ==> 1 <= |s| && (s[0] == '-' || s[0] == '+' || IsDigit(s[0]))
    ensures r.Some? && r.value < 0 ==> s[0] == '-'
    ensures |s| == 1 && (s[0] == '+' || s[0] == '-') ==> r.None?
  {
    if |s| == 0 then None
    else
      var digits := if s[0] == '-' || s[0] == '+' then s[1..] else s;
      if |digits| == 0 || !AllDigits(digits) then None
      else
        var v: int := if s[0] == '-' then -(DigitsValue(digits) as int) else DigitsValue(digits) as int;
        if MinInt64 <= v <= MaxInt64 then Some(v) else None
  }

  /** Every int64 survives printing and parsing back. */
  lemma ParseInt64RoundTrip(n: int64)
    ensures ParseInt64(IntToString(n)) == Some(n)
  {
    ParseInt64OfRendering(n);
  }

  /** Parsing the rendering of any integer recovers it, subject to the range check. */
  lemma ParseInt64OfRendering(n: int)
    ensures ParseInt64(IntToString(n)) == if MinInt64 <= n <= MaxInt64 then Some(n) else None
  {
    var s := IntToString(n);
    if n < 0 {
      var d := NatToString(-n);
      DigitsValueOfNatToString(-n);
      assert s == "-" + d;
      assert s[1..] == d;
      assert s[0] == '-';
    } else {
      var d := NatToString(n);
      DigitsValueOfNatToString(n);
      assert s == d;
      assert IsDigit(s[0]);
    }
  }

  /** The rendering of a number outside the int64 range does not parse. */
  lemma ParseInt64RejectsOverflow(n: int)
    requires n < MinInt64 || MaxInt64 < n
    ensures ParseInt64(IntToString(n)) == None
  {
    ParseInt64OfRendering(n);
  }

  /** A character after the optional sign that is not a digit makes the parse fail. */
  lemma ParseInt64RejectsNonDigit(s: string, i: nat)
    requires 0 < i < |s| && !IsDigit(s[i])
    ensures ParseInt64(s) == None
  {
    if s[0] == '-' || s[0] == '+' {
      assert s[1..][i - 1] == s[i];
    }
  }

  function Spaces(k: nat): (r: string)
    ensures |r| == k
    ensures forall i :: 0 <= i < k ==> r[i] == ' '
  {
    seq(k, _ => ' ')
  }

  /** The width part of fmt's `%<w>d`: right-align `s` in a field of width `w`. */
  function PadLeft(s: string, w: nat): (r: string)
    ensures |r| == if |s| >= w then |s| else w
    ensures r[|r| - |s|..] == s
    ensures forall i :: 0 <= i < |r| - |s| ==> r[i] == ' '
  {
    if |s| >= w then s else Spaces(w - |s|) + s
  }
}
