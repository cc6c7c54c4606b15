/** Decimal digits of natural numbers, and reading them back. */
module Decimal {

  predicate IsDigit(c: char) {
    '0' <= c <= '9'
  }

  predicate AllDigits(s: string) {
    forall k :: 0 <= k < |s| ==> IsDigit(s[k])
  }

  function DigitChar(d: nat): (c: char)
    requires d < 10
    ensures IsDigit(c)
  {
    ('0' as int + d) as char
  }

  function DigitValue(c: char): (d: nat)
    requires IsDigit(c)
    ensures d < 10
  {
    c as int - '0' as int
  }

  /** The shortest decimal text of n. */
  function Dec(n: nat): (s: string)
    ensures s != "" && AllDigits(s)
  {
    if n < 10 then [DigitChar(n)] else Dec(n / 10) + [DigitChar(n % 10)]
  }

  /** The number a text of digits denotes; leading zeros are allowed. */
  function Undec(s: string): nat
    requires AllDigits(s)
  {
    if s == "" then 0 else 10 * Undec(s[..|s| - 1]) + DigitValue(s[|s| - 1])
  }

  lemma {:induction false} DecRoundTrip(n: nat)
    ensures Undec(Dec(n)) == n
  {
    if n >= 10 {
      DecRoundTrip(n / 10);
      assert Dec(n)[..|Dec(n)| - 1] == Dec(n / 10);
    } else {
      assert Dec(n)[..0] == "";
    }
  }

  function Zeros(n: nat): (s: string)
    ensures |s| == n && forall k :: 0 <= k < n ==> s[k] == '0'
  {
    seq(n, _ => '0')
  }

  lemma {:induction false} LeadingZeros(n: nat, s: string)
    requires AllDigits(s)
    ensures AllDigits(Zeros(n) + s) && Undec(Zeros(n) + s) == Undec(s)
  {
    var t := Zeros(n) + s;
    if s != "" {
      assert t[..|t| - 1] == Zeros(n) + s[..|s| - 1];
      LeadingZeros(n, s[..|s| - 1]);
    } else if n > 0 {
      assert t[..n - 1] == Zeros(n - 1) + s;
      LeadingZeros(n - 1, s);
    }
  }

  function Pow10(n: nat): (p: nat)
    ensures p > 0
  {
    if n == 0 then 1 else 10 * Pow10(n - 1)
  }

  /** n has at most k digits exactly when it is below the k-th power of ten. */
  lemma {:induction false} DecLength(n: nat, k: nat)
    requires k > 0
    ensures |Dec(n)| <= k <==> n < Pow10(k)
    decreases n
  {
    if n >= 10 {
      if k > 1 {
        DecLength(n / 10, k - 1);
      } else {
        assert Pow10(1) == 10 * Pow10(0);
      }
    }
  }

  /** At least width digits: zeros are put in front where needed. */
  function Padded(n: nat, width: nat): (s: string)
    ensures AllDigits(s)
  {
    var d := Dec(n);
    if |d| < width then Zeros(width - |d|) + d else d
  }

  lemma PaddedRoundTrip(n: nat, width: nat)
    ensures Undec(Padded(n, width)) == n
  {
    DecRoundTrip(n);
    if |Dec(n)| < width {
      LeadingZeros(width - |Dec(n)|, Dec(n));
    }
  }

  /** The padded text has exactly the wanted width unless the number is too large. */
  lemma PaddedLength(n: nat, width: nat)
    requires width > 0
    ensures |Padded(n, width)| == width <==> n < Pow10(width)
  {
    DecLength(n, width);
  }

  /** The longest run of digits a text starts with. */
  function DigitPrefix(s: string): (d: string)
    ensures d <= s && AllDigits(d)
    ensures |d| < |s| ==> !IsDigit(s[|d|])
  {
    if s == "" || !IsDigit(s[0]) then "" else [s[0]] + DigitPrefix(s[1..])
  }

  /** The longest run of digits a text ends with. */
  function DigitSuffix(s: string): (d: string)
    ensures |d| <= |s| && s[|s| - |d|..] == d && AllDigits(d)
    ensures |d| < |s| ==> !IsDigit(s[|s| - |d| - 1])
  {
    if s == "" || !IsDigit(s[|s| - 1]) then "" else DigitSuffix(s[..|s| - 1]) + [s[|s| - 1]]
  }

  lemma {:induction false} DigitPrefixOf(d: string, rest: string)
    requires AllDigits(d) && rest != "" && !IsDigit(rest[0])
    ensures DigitPrefix(d + rest) == d
  {
    if d != "" {
      DigitPrefixOf(d[1..], rest);
      assert (d + rest)[1..] == d[1..] + rest;
    }
  }

  lemma {:induction false} DigitSuffixOf(front: string, d: string)
    requires AllDigits(d) && front != "" && !IsDigit(front[|front| - 1])
    ensures DigitSuffix(front + d) == d
  {
    if d != "" {
      var s, init := front + d, d[..|d| - 1];
      DigitSuffixOf(front, init);
      assert s[..|s| - 1] == front + init;
    } else {
      assert front + d == front;
    }
  }
}
