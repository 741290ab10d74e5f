/**
 * The string operations the stores use: decimal rendering of numbers inside template
 * literals, `toLowerCase` on user names, and `substring(0, n)` truncation.
 */
module Text {

  predicate IsDigit(c: char) {
    '0' <= c <= '9'
  }

  function DigitChar(d: nat): (c: char)
    requires d < 10
    ensures IsDigit(c) && c as int - '0' as int == d
  {
    ('0' as int + d) as char
  }

  /** Decimal rendering of a natural number, as `${n}` prints it. */
  function NatToString(n: nat): (s: string)
    ensures |s| >= 1 && forall c <- s :: IsDigit(c)
    decreases n
  {
    if n < 10 then [DigitChar(n)] else NatToString(n / 10) + [DigitChar(n % 10)]
  }

  /** `${i}` for any integer: a minus sign before the digits of a negative number. */
  function IntToString(i: int): (s: string)
    ensures |s| >= 1
  {
    if i < 0 then "-" + NatToString(-i) else NatToString(i)
  }

  /** The value of a string of decimal digits (the inverse of NatToString). */
  function DigitsValue(s: string): int {
    if s == [] then 0 else DigitsValue(s[..|s| - 1]) * 10 + (s[|s| - 1] as int - '0' as int)
  }

  /** Rendering then reading back gives the number; no leading zero except for 0 itself. */
  lemma {:induction false} NatToStringRoundTrip(n: nat)
    ensures DigitsValue(NatToString(n)) == n
    ensures n > 0 ==> NatToString(n)[0] != '0'
    decreases n
  {
    if n >= 10 {
      NatToStringRoundTrip(n / 10);
      var s := NatToString(n);
      assert s[..|s| - 1] == NatToString(n / 10);
    }
  }

  /** Distinct numbers render as distinct strings, so generated names never collide. */
  lemma NatToStringInjective(m: nat, n: nat)
    requires NatToString(m) == NatToString(n)
    ensures m == n
  {
    NatToStringRoundTrip(m);
    NatToStringRoundTrip(n);
  }

  /** `toLowerCase` restricted to ASCII letters; every other character is kept. */
  function LowerChar(c: char): (d: char)
    ensures !('A' <= d <= 'Z')
    ensures !('A' <= c <= 'Z') ==> d == c
  {
    if 'A' <= c <= 'Z' then (c as int + 32) as char else c
  }

  function Lower(s: string): (r: string)
    ensures |r| == |s|
  {
    if s == [] then [] else [LowerChar(s[0])] + Lower(s[1..])
  }

  lemma {:induction false} LowerAt(s: string, i: nat)
    requires i < |s|
    ensures Lower(s)[i] == LowerChar(s[i])
  {
    if i > 0 {
      LowerAt(s[1..], i - 1);
    }
  }

  /** Lowercasing twice is lowercasing once. */
  lemma LowerIdempotent(s: string)
    ensures Lower(Lower(s)) == Lower(s)
  {
    forall i | 0 <= i < |s| ensures Lower(Lower(s))[i] == Lower(s)[i] {
      LowerAt(s, i);
      LowerAt(Lower(s), i);
    }
  }

  /** Two names that differ only in the case of ASCII letters have the same lowercase key. */
  predicate SameIgnoringCase(a: string, b: string) {
    |a| == |b| && forall i :: 0 <= i < |a| ==> LowerChar(a[i]) == LowerChar(b[i])
  }

  lemma LowerKeyIff(a: string, b: string)
    ensures Lower(a) == Lower(b) <==> SameIgnoringCase(a, b)
  {
    if |a| == |b| {
      forall i | 0 <= i < |a| ensures Lower(a)[i] == LowerChar(a[i]) && Lower(b)[i] == LowerChar(b[i]) {
        LowerAt(a, i);
        LowerAt(b, i);
      }
    }
  }

  /** `s.substring(0, n)`: the first `n` characters, or all of `s` when shorter. */
  function Truncate(s: string, n: nat): (r: string)
    ensures |r| <= n && r <= s
    ensures |s| <= n ==> r == s
    ensures |s| > n ==> r == s[..n]
  {
    if |s| <= n then s else s[..n]
  }
}
