/**
 * ASCII decimal digits, as the ISO date parser and the BigDecimal string
 * constructor read them, and the zero-padded decimal rendering used by the
 * formatters that the round-trip lemmas start from.
 */
module Digits {

  predicate IsDigit(c: char) {
    '0' <= c <= '9'
  }

  predicate AllDigits(s: string) {
    forall i :: 0 <= i < |s| ==> IsDigit(s[i])
  }

  function DigitValue(c: char): (d: nat)
    requires IsDigit(c)
    ensures d < 10
  {
    c as int - '0' as int
  }

  function DigitChar(d: nat): (c: char)
    requires d < 10
    ensures IsDigit(c) && DigitValue(c) == d
  {
    ('0' as int + d) as char
  }

  function Pow10(k: nat): (p: nat)
    ensures p >= 1
  {
    if k == 0 then 1 else 10 * Pow10(k - 1)
  }

  /** The number a string of digits denotes, most significant digit first. */
  function DigitsValue(s: string): nat
    requires AllDigits(s)
  {
    if |s| == 0 then 0 else DigitsValue(s[..|s| - 1]) * 10 + DigitValue(s[|s| - 1])
  }

  /** The length of the longest prefix of s made of digits. */
  function DigitRun(s: string): (n: nat)
    ensures n <= |s|
  {
    if |s| == 0 || !IsDigit(s[0]) then 0 else 1 + DigitRun(s[1..])
  }

  /** The digit run is all digits, and what follows it is not a digit. */
  lemma {:induction false} DigitRunIsLongest(s: string)
    ensures AllDigits(s[..DigitRun(s)])
    ensures DigitRun(s) < |s| ==> !IsDigit(s[DigitRun(s)])
  {
    if |s| > 0 && IsDigit(s[0]) {
      DigitRunIsLongest(s[1..]);
      var m := DigitRun(s[1..]);
      assert s[..1 + m] == [s[0]] + s[1..][..m];
    }
  }

  /** n in decimal, left-padded with zeros to at least width digits. */
  function NatToDigits(n: nat, width: nat): (s: string)
    ensures AllDigits(s)
    ensures |s| >= 1 && |s| >= width
    decreases n + width
  {
    if n < 10 && width <= 1 then [DigitChar(n)]
    else NatToDigits(n / 10, if width == 0 then 0 else width - 1) + [DigitChar(n % 10)]
  }

  /** Reading back a rendered number gives the number. */
  lemma {:induction false} NatToDigitsValue(n: nat, width: nat)
    ensures DigitsValue(NatToDigits(n, width)) == n
    decreases n + width
  {
    if !(n < 10 && width <= 1) {
      var w' := if width == 0 then 0 else width - 1;
      var p := NatToDigits(n / 10, w');
      NatToDigitsValue(n / 10, w');
      var s := NatToDigits(n, width);
      assert s[..|s| - 1] == p;
    }
  }

  /** Rendering the value of a string of digits at its own width gives the
      string back, leading zeros included. */
  lemma {:induction false} DigitsValueText(t: string)
    requires AllDigits(t) && |t| >= 1
    ensures NatToDigits(DigitsValue(t), |t|) == t
    decreases |t|
  {
    var n := DigitsValue(t);
    var p := t[..|t| - 1];
    var c := t[|t| - 1];
    if |t| == 1 {
      assert p == [];
      assert t == [c];
    } else {
      assert n / 10 == DigitsValue(p) && n % 10 == DigitValue(c);
      DigitsValueText(p);
      assert t == p + [c];
    }
  }

  /** Below 10^k, and with a width of at most k, a rendering has at most k digits. */
  lemma {:induction false} NatToDigitsLength(n: nat, width: nat, k: nat)
    requires 1 <= k && width <= k && n < Pow10(k)
    ensures |NatToDigits(n, width)| <= k
    decreases n + width
  {
    if !(n < 10 && width <= 1) {
      var w' := if width == 0 then 0 else width - 1;
      NatToDigitsLength(n / 10, w', k - 1);
    }
  }

  /** The digit run of a string of digits followed by a non-digit is that string. */
  lemma {:induction false} DigitRunOfPrefix(a: string, b: string)
    requires AllDigits(a)
    requires |b| == 0 || !IsDigit(b[0])
    ensures DigitRun(a + b) == |a|
  {
    if |a| > 0 {
      assert (a + b)[1..] == a[1..] + b;
      DigitRunOfPrefix(a[1..], b);
    } else {
      assert a + b == b;
    }
  }
}
