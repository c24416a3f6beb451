/** Decimal rendering of integers, as a JavaScript template literal prints an
    integral number (`${h}`), and the matching parser. */
module Decimal {
  import opened Values

  predicate IsDigit(c: char) {
    '0' <= c <= '9'
  }

  predicate AllDigits(s: string) {
    forall i :: 0 <= i < |s| ==> IsDigit(s[i])
  }

  function Digit(d: nat): (c: char)
    requires d < 10
    ensures IsDigit(c)
  {
    (48 + d) as char
  }

  function DigitValue(c: char): (d: nat)
    requires IsDigit(c)
    ensures d < 10 && Digit(d) == c
  {
    c as int - 48
  }

  /** Base-10 digits of `n`, most significant first, without leading zeros. */
  function NatToString(n: nat): (s: string)
    ensures |s| >= 1 && AllDigits(s)
    ensures |s| > 1 ==> s[0] != '0'
    decreases n
  {
    if n < 10 then [Digit(n)] else NatToString(n / 10) + [Digit(n % 10)]
  }

  /** The value of a string of digits. */
  function StringToNat(s: string): nat
    requires AllDigits(s)
    decreases |s|
  {
    if |s| == 0 then 0 else 10 * StringToNat(s[..|s| - 1]) + DigitValue(s[|s| - 1])
  }

  /** Reading back the digits of `n` gives `n`. */
  lemma {:induction false} NatStringRoundTrip(n: nat)
    ensures StringToNat(NatToString(n)) == n
    decreases n
  {
    var s := NatToString(n);
    if n >= 10 {
      NatStringRoundTrip(n / 10);
      assert s[..|s| - 1] == NatToString(n / 10);
    }
  }

  /** `${i}` for an integral number: an optional minus sign, then digits. */
  function IntToString(i: int): (s: string)
    ensures |s| >= 1
    ensures forall k :: 0 <= k < |s| ==> s[k] == '-' || IsDigit(s[k])
  {
    if i < 0 then "-" + NatToString(-i) else NatToString(i)
  }

  /** The digit strings `NatToString` produces: at least one digit, and no
      leading zero unless the string is `0` itself. */
  predicate Canonical(s: string) {
    |s| >= 1 && AllDigits(s) && (|s| > 1 ==> s[0] != '0')
  }

  /** A digit string that does not start with `0` has a positive value. */
  lemma {:induction false} NonZeroLeadPositive(s: string)
    requires |s| >= 1 && AllDigits(s) && s[0] != '0'
    ensures StringToNat(s) >= 1
    decreases |s|
  {
    if |s| > 1 {
      var p := s[..|s| - 1];
      assert p[0] == s[0];
      NonZeroLeadPositive(p);
    }
  }

  /** A canonical digit string is the rendering of its value: reading and
      printing back gives the same characters. */
  lemma {:induction false} CanonicalIsRendering(s: string)
    requires Canonical(s)
    ensures NatToString(StringToNat(s)) == s
    decreases |s|
  {
    if |s| > 1 {
      var p := s[..|s| - 1];
      assert p[0] == s[0];
      assert Canonical(p);
      CanonicalIsRendering(p);
      NonZeroLeadPositive(p);
      var n := StringToNat(s);
      var d := DigitValue(s[|s| - 1]);
      assert n == 10 * StringToNat(p) + d;
      assert n / 10 == StringToNat(p) && n % 10 == d;
      assert s == p + [s[|s| - 1]];
    }
  }

  /** Parses the printed form of an integer: an optional minus sign followed
      by canonical digits, rejecting leading zeros and `-0`. Only strings
      `IntToString` can produce are accepted. */
  function ParseInt(s: string): (r: Opt<int>)
    ensures r.Present? ==> IntToString(r.value) == s
  {
    if |s| >= 2 && s[0] == '-' && Canonical(s[1..]) && s[1..] != "0" then
      CanonicalIsRendering(s[1..]);
      NonZeroLeadPositive(s[1..]);
      assert s == "-" + s[1..];
      Present(-(StringToNat(s[1..]) as int))
    else if Canonical(s) then
      CanonicalIsRendering(s);
      Present(StringToNat(s))
    else Absent
  }

  /** The printing of a natural number is canonical, and it is `0` only
      for zero. */
  lemma RenderingCanonical(k: nat)
    ensures Canonical(NatToString(k))
    ensures k > 0 ==> NatToString(k) != "0"
  {
    if k > 0 && |NatToString(k)| == 1 {
      assert NatToString(k) == [Digit(k)];
    }
  }

  /** Rendering then parsing an integer gives it back. */
  lemma IntStringRoundTrip(i: int)
    ensures ParseInt(IntToString(i)) == Present(i)
  {
    RenderingCanonical(if i < 0 then -i else i);
    if i < 0 {
      var d := NatToString(-i);
      var s := IntToString(i);
      assert s[0] == '-' && s[1..] == d;
      NatStringRoundTrip(-i);
    } else {
      NatStringRoundTrip(i);
    }
  }
}
