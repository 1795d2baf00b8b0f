/**
 itoa() of the ZeroVM runtime: digits from the lowest up, then a reversal in
 place that swaps characters with exclusive or.
 */
module Integers {
  import opened Text
  import opened Arithmetic

  // ---------- the swap ----------

  function Pow2(n: nat): nat {
    if n == 0 then 1 else 2 * Pow2(n - 1)
  }

  /** Exclusive or of two numbers of `n` bits, bit by bit. */
  function XorBits(a: nat, b: nat, n: nat): (r: nat)
    requires a < Pow2(n) && b < Pow2(n)
    ensures r < Pow2(n)
  {
    if n == 0 then 0 else 2 * XorBits(a / 2, b / 2, n - 1) + if a % 2 == b % 2 then 0 else 1
  }

  /** Applied twice, exclusive or gives back either operand. */
  lemma {:induction false} XorCancels(a: nat, b: nat, n: nat)
    requires a < Pow2(n) && b < Pow2(n)
    ensures XorBits(b, XorBits(a, b, n), n) == a && XorBits(XorBits(a, b, n), a, n) == b
  {
    if n > 0 {
      var x := XorBits(a, b, n);
      assert x / 2 == XorBits(a / 2, b / 2, n - 1);
      XorCancels(a / 2, b / 2, n - 1);
    }
  }

  /** The C operator ^ on two characters. */
  function Xor(a: char, b: char): (r: char)
    requires a as int < 256 && b as int < 256
    ensures r as int < 256
  {
    assert Pow2(8) == 256;
    XorBits(a as int, b as int, 8) as char
  }

  lemma SecondXor(a: char, b: char)
    requires a as int < 256 && b as int < 256
    ensures Xor(b, Xor(a, b)) == a
  {
    assert Pow2(8) == 256;
    XorCancels(a as int, b as int, 8);
  }

  lemma ThirdXor(a: char, b: char)
    requires a as int < 256 && b as int < 256
    ensures Xor(Xor(a, b), a) == b
  {
    assert Pow2(8) == 256;
    XorCancels(a as int, b as int, 8);
  }

  // ---------- strrev ----------

  function Reversed(s: string): (r: string)
    ensures |r| == |s| && forall i | 0 <= i < |s| :: r[i] == s[|s| - 1 - i]
  {
    seq(|s|, i requires 0 <= i < |s| => s[|s| - 1 - i])
  }

  ghost predicate Ascii(s: string) {
    forall i | 0 <= i < |s| :: 0 < s[i] as int < 128
  }

  /** One step of the reversal. */
  method SwapChars(a: array<char>, i: nat, j: nat)
    requires i < j < a.Length && a[i] as int < 256 && a[j] as int < 256
    modifies a
    ensures a[i] == old(a[j]) && a[j] == old(a[i])
    ensures forall k | 0 <= k < a.Length && k != i && k != j :: a[k] == old(a[k])
  {
    SecondXor(a[i], a[j]);
    ThirdXor(a[i], a[j]);
    a[i] := Xor(a[i], a[j]);
    a[j] := Xor(a[j], a[i]);
    a[i] := Xor(a[i], a[j]);
  }

  /** The swapping loop of strrev(). */
  method SwapAll(str: array<char>, ghost s: string, last: nat)
    requires |s| == last + 1 < str.Length && Ascii(s) && forall k | 0 <= k < |s| :: str[k] == s[k]
    modifies str
    ensures forall k | 0 <= k < |s| :: str[k] == s[|s| - 1 - k]
    ensures forall k | |s| <= k < str.Length :: str[k] == old(str[k])
  {
    var p1, p2 := 0, last;
    while p2 > p1
      invariant 0 <= p1 <= p2 + 1 <= |s| && p1 + p2 == last
      invariant forall k | 0 <= k < p1 :: str[k] == s[last - k]
      invariant forall k | p1 <= k <= p2 :: str[k] == s[k]
      invariant forall k | p2 < k <= last :: str[k] == s[last - k]
      invariant forall k | |s| <= k < str.Length :: str[k] == old(str[k])
    {
      SwapChars(str, p1, p2);
      p1, p2 := p1 + 1, p2 - 1;
    }
  }

  /** strrev() */
  method StrRev(str: array<char>, ghost s: string)
    requires HoldsAt(str, 0, s) && Ascii(s)
    modifies str
    ensures HoldsAt(str, 0, Reversed(s))
    ensures forall k | |s| <= k < str.Length :: str[k] == old(str[k])
  {
    HoldsEach(str, 0, s);
    if str[0] == '\0' {
      return;
    }
    var n := 0;
    while str[n] != '\0'
      invariant 0 <= n <= |s|
      decreases |s| - n
    {
      n := n + 1;
    }
    SwapAll(str, s, n - 1);
    assert str[0..0 + |s|] == Reversed(s);
  }

  // ---------- itoa ----------

  function Digit(d: nat): (c: char)
    requires d < 36
    ensures 0 < c as int < 128
  {
    if d < 10 then ('0' as int + d) as char else ('a' as int + d - 10) as char
  }

  /** The table digits[]. */
  lemma DigitIs(d: nat)
    requires d < 36
    ensures Digit(d) == "0123456789abcdefghijklmnopqrstuvwxyz"[d]
  {
  }

  function DigitValue(c: char): int {
    if '0' <= c <= '9' then c as int - '0' as int else c as int - 'a' as int + 10
  }

  /** n / b and n % b, by repeated subtraction. */
  function Quot(n: nat, b: nat): (q: nat)
    requires b >= 2
    ensures q <= n && (n > 0 ==> q < n)
  {
    if n < b then 0 else 1 + Quot(n - b, b)
  }

  function Rem(n: nat, b: nat): (r: nat)
    requires b >= 2
    ensures r < b
  {
    if n < b then n else Rem(n - b, b)
  }

  lemma {:induction false} QuotRem(n: nat, b: nat)
    requires b >= 2
    ensures n == Rem(n, b) + b * Quot(n, b)
  {
    if n >= b {
      QuotRem(n - b, b);
      assert b * Quot(n, b) == b * Quot(n - b, b) + b;
    }
  }

  lemma QuotIsDiv(n: nat, b: nat)
    requires b >= 2
    ensures Quot(n, b) == n / b && Rem(n, b) == n % b
  {
    QuotRem(n, b);
    DivUnique(n, b, Quot(n, b), Rem(n, b));
  }

  /** From its `k`-th character on, `d` is the digits of `n`, lowest first. */
  ghost predicate DigitsDue(d: string, k: nat, n: nat, b: nat)
    requires 2 <= b <= 36
    decreases n
  {
    k < |d| && d[k] == Digit(Rem(n, b)) && if Quot(n, b) == 0 then k + 1 == |d| else DigitsDue(d, k + 1, Quot(n, b), b)
  }

  /** The digits of `n`, lowest first. */
  function LowDigits(n: nat, b: nat): (d: string)
    requires 2 <= b <= 36
    ensures d != "" && Ascii(d)
    decreases n
  {
    QuotIsDiv(n, b);
    [Digit(n % b)] + if n / b == 0 then "" else LowDigits(n / b, b)
  }

  lemma LowDigitsNext(n: nat, b: nat)
    requires 2 <= b <= 36
    ensures LowDigits(n, b) == [Digit(Rem(n, b))] + if Quot(n, b) == 0 then "" else LowDigits(Quot(n, b), b)
  {
    QuotIsDiv(n, b);
  }

  lemma {:induction false} LowDigitsDue(d: string, k: nat, n: nat, b: nat)
    requires 2 <= b <= 36 && k <= |d| && d[k..] == LowDigits(n, b)
    ensures DigitsDue(d, k, n, b)
    decreases n
  {
    LowDigitsNext(n, b);
    if Quot(n, b) != 0 {
      assert d[k + 1..] == d[k..][1..];
      LowDigitsDue(d, k + 1, Quot(n, b), b);
    }
  }

  /** What itoa() leaves: the digits highest first, after a minus sign if the number is negative. */
  function IntText(n: int, b: nat): string
    requires 2 <= b <= 36
  {
    Reversed(LowDigits(if n < 0 then -n else n, b) + if n < 0 then "-" else "")
  }

  /** The loop of itoa(). */
  method FillDigits(s: array<char>, n0: nat, b: nat, ghost d: string) returns (i: nat)
    requires 2 <= b <= 36 && DigitsDue(d, 0, n0, b) && |d| < s.Length
    modifies s
    ensures i == |d| && s[..i] == d
  {
    var n: nat := n0;
    i := 0;
    QuotIsDiv(n, b);
    s[i] := Digit(n % b);
    i := i + 1;
    n := n / b;
    while n > 0
      invariant 0 < i <= |d| && s[..i] == d[..i]
      invariant if n == 0 then i == |d| else DigitsDue(d, i, n, b)
      decreases n
    {
      QuotIsDiv(n, b);
      s[i] := Digit(n % b);
      i := i + 1;
      n := n / b;
    }
  }

  /** itoa(), for every int but the smallest; the buffer must have room for the text and its terminator. */
  method Itoa(n: int, s: array<char>, b: nat)
    requires -0x8000_0000 < n < 0x8000_0000 && 2 <= b <= 36
    requires |IntText(n, b)| < s.Length
    modifies s
    ensures HoldsAt(s, 0, IntText(n, b))
  {
    var abs := if n < 0 then -n else n;
    ghost var d := LowDigits(abs, b);
    assert d[0..] == d;
    LowDigitsDue(d, 0, abs, b);
    var i := FillDigits(s, abs, b, d);
    ghost var e := d + if n < 0 then "-" else "";
    if n < 0 {
      s[i] := '-';
      i := i + 1;
    }
    s[i] := '\0';
    assert s[0..|e|] == e;
    StrRev(s, e);
  }

  // ---------- reading the text back ----------

  /** The value of the digits d[k..], lowest first. */
  function LowValue(d: string, k: nat, b: nat): int
    requires k <= |d|
    decreases |d| - k
  {
    if k == |d| then 0 else DigitValue(d[k]) + b * LowValue(d, k + 1, b)
  }

  lemma {:induction false} LowValueIs(d: string, k: nat, n: nat, b: nat)
    requires 2 <= b <= 36 && DigitsDue(d, k, n, b)
    ensures LowValue(d, k, b) == n
    decreases n
  {
    QuotRem(n, b);
    if Quot(n, b) != 0 {
      LowValueIs(d, k + 1, Quot(n, b), b);
    }
  }

  /** The value of t[lo..k], read from left to right in base b. */
  function ReadDigits(t: string, lo: nat, k: nat, b: nat): int
    requires lo <= k <= |t|
  {
    if k == lo then 0 else ReadDigits(t, lo, k - 1, b) * b + DigitValue(t[k - 1])
  }

  function ReadInt(t: string, b: nat): int {
    if t != "" && t[0] == '-' then -ReadDigits(t, 1, |t|, b) else ReadDigits(t, 0, |t|, b)
  }

  /** Reading from the left gives the value of the digits taken from the right. */
  lemma {:induction false} ReadReversed(d: string, t: string, lo: nat, k: nat, b: nat)
    requires lo <= k <= |t| == lo + |d| && forall i | lo <= i < |t| :: t[i] == d[|t| - 1 - i]
    ensures ReadDigits(t, lo, k, b) == LowValue(d, |t| - k, b)
    decreases k
  {
    if k > lo {
      ReadReversed(d, t, lo, k - 1, b);
      assert t[k - 1] == d[|t| - k];
    }
  }

  /** Parsing what itoa() leaves gives the number back. */
  lemma IntReadsBack(n: int, b: nat)
    requires 2 <= b <= 36
    ensures ReadInt(IntText(n, b), b) == n
  {
    var abs := if n < 0 then -n else n;
    var d := LowDigits(abs, b);
    assert d[0..] == d;
    LowDigitsDue(d, 0, abs, b);
    LowValueIs(d, 0, abs, b);
    NoMinus(abs, b);
    SignReads(d, n < 0, b);
  }

  /** Digits and a sign, reversed, are read as the digits with that sign. */
  lemma SignReads(d: string, negative: bool, b: nat)
    requires d != "" && '-' !in d
    ensures ReadInt(Reversed(d + if negative then "-" else ""), b) == if negative then -LowValue(d, 0, b) else LowValue(d, 0, b)
  {
    var e := d + if negative then "-" else "";
    var t := Reversed(e);
    if negative {
      assert t[0] == e[|d|] == '-';
      ReadReversed(d, t, 1, |t|, b);
    } else {
      assert e == d && t[0] == d[|d| - 1];
      ReadReversed(d, t, 0, |t|, b);
    }
  }

  lemma {:induction false} NoMinus(n: nat, b: nat)
    requires 2 <= b <= 36
    ensures '-' !in LowDigits(n, b)
    decreases n
  {
    LowDigitsNext(n, b);
    if Quot(n, b) != 0 {
      NoMinus(Quot(n, b), b);
    }
  }

  lemma {:induction false} TopDigit(n: nat, b: nat)
    requires 2 <= b <= 36 && n > 0
    ensures var d := LowDigits(n, b); d[|d| - 1] != '0'
    decreases n
  {
    LowDigitsNext(n, b);
    QuotRem(n, b);
    if Quot(n, b) != 0 {
      TopDigit(Quot(n, b), b);
    }
  }

  /** The text has no leading zero, unless it is the text of zero. */
  lemma NoLeadingZero(n: int, b: nat)
    requires 2 <= b <= 36 && n != 0
    ensures var t := IntText(n, b); var lo := if n < 0 then 1 else 0; lo < |t| && t[lo] != '0'
  {
    TopDigit(if n < 0 then -n else n, b);
  }

  lemma {:induction false} DigitCount(n: nat, k: nat)
    requires k >= 1 && n < Power10(k)
    ensures |LowDigits(n, 10)| <= k
    decreases n
  {
    QuotIsDiv(n, 10);
    if n / 10 != 0 {
      DigitCount(n / 10, k - 1);
    }
  }

  function Power10(k: nat): nat {
    if k == 0 then 1 else 10 * Power10(k - 1)
  }

  /** In base 10 every int fits the 17 bytes of log_int(). */
  lemma DecimalFits(n: int)
    requires -0x8000_0000 < n < 0x8000_0000
    ensures |IntText(n, 10)| <= 11
  {
    assert Power10(5) == 100000;
    assert Power10(10) == 10000000000;
    DigitCount(if n < 0 then -n else n, 10);
  }
}
