/**
 isNumber(): the cursor walk against the grammar of an SQL numeric literal.
 */
module Numerals {
  import opened Text

  // ---------- the grammar, by positions in the text ----------

  /** z[i..j] is one digit or more. */
  predicate Digits(z: string, i: nat, j: nat) {
    i < j <= |z| && forall k | i <= k < j :: IsDigit(z[k])
  }

  /** z[i..j] is empty or a sign. */
  predicate Sign(z: string, i: nat, j: nat) {
    i == j <= |z| || (j == i + 1 <= |z| && (z[i] == '-' || z[i] == '+'))
  }

  /** z[i..j] is empty or a point with digits after it. */
  predicate Fraction(z: string, i: nat, j: nat) {
    i == j <= |z| || (i < |z| && z[i] == '.' && Digits(z, i + 1, j))
  }

  /** z[i..j] is empty or an exponent, whose digits start at `s`. */
  predicate Exponent(z: string, i: nat, s: nat, j: nat) {
    i == j <= |z| || (i < |z| && (z[i] == 'e' || z[i] == 'E') && Sign(z, i + 1, s) && Digits(z, s, j))
  }

  /** Optional sign, digits, optional fraction, optional exponent, and nothing else. */
  predicate Numeral(z: string, a: nat, b: nat, c: nat, s: nat) {
    Sign(z, 0, a) && Digits(z, a, b) && Fraction(z, b, c) && Exponent(z, c, s, |z|)
  }

  // ---------- the longest match ----------

  /** The end of the run of digits that starts at `i`. */
  function DigitsEnd(z: string, i: nat): (j: nat)
    requires i <= |z|
    ensures i <= j <= |z|
    ensures forall k | i <= k < j :: IsDigit(z[k])
    ensures j < |z| ==> !IsDigit(z[j])
    decreases |z| - i
  {
    if i < |z| && IsDigit(z[i]) then DigitsEnd(z, i + 1) else i
  }

  /** Skip one or more digits, or fail. */
  function Run(z: string, i: nat): (j: Option<nat>)
    requires i <= |z|
    ensures j.Some? ==> Digits(z, i, j.value)
  {
    if i < |z| && IsDigit(z[i]) then Some(DigitsEnd(z, i)) else None
  }

  /** Skip a sign, if there is one. */
  function SignEnd(z: string, i: nat): (j: nat)
    requires i <= |z|
    ensures Sign(z, i, j)
  {
    if i < |z| && (z[i] == '-' || z[i] == '+') then i + 1 else i
  }

  function FracEnd(z: string, i: nat): (j: Option<nat>)
    requires i <= |z|
    ensures j.Some? ==> Fraction(z, i, j.value)
  {
    if i < |z| && z[i] == '.' then Run(z, i + 1) else Some(i)
  }

  function ExpEnd(z: string, i: nat): (j: Option<nat>)
    requires i <= |z|
    ensures j.Some? ==> i <= j.value <= |z|
  {
    if i < |z| && (z[i] == 'e' || z[i] == 'E') then Run(z, SignEnd(z, i + 1)) else Some(i)
  }

  /** The end of the whole part, if there is one. */
  function WholeEnd(z: string): (b: Option<nat>)
    ensures b.Some? ==> 0 < b.value <= |z|
  {
    Run(z, SignEnd(z, 0))
  }

  predicate IsNum(z: string) {
    var b := WholeEnd(z);
    b.Some? &&
    var c := FracEnd(z, b.value);
    c.Some? && ExpEnd(z, c.value) == Some(|z|)
  }

  /** A fraction or an exponent follows the whole part. */
  predicate IsRealNum(z: string) {
    IsNum(z) && WholeEnd(z).value < |z|
  }

  lemma RunIs(z: string, i: nat, j: nat)
    requires Digits(z, i, j) && (j < |z| ==> !IsDigit(z[j]))
    ensures Run(z, i) == Some(j)
  {
    var e := DigitsEnd(z, i);
    if j < e {
      assert false;
    } else if e < j {
      assert false;
    }
  }

  /** Every text of the grammar is accepted, with its parts where the grammar puts them. */
  lemma NumeralIsNum(z: string, a: nat, b: nat, c: nat, s: nat)
    requires Numeral(z, a, b, c, s)
    ensures IsNum(z) && WholeEnd(z) == Some(b)
  {
    assert SignEnd(z, 0) == a;
    RunIs(z, a, b);
    if b < c {
      RunIs(z, b + 1, c);
    }
    assert FracEnd(z, b) == Some(c);
    if c < |z| {
      assert SignEnd(z, c + 1) == s;
      RunIs(z, s, |z|);
    }
  }

  /**
   isNumber() accepts exactly the grammar, and its realnum says whether a
   fraction or an exponent is there, in whatever way the text is taken apart.
   */
  lemma IsNumGrammar(z: string)
    ensures IsNum(z) <==> exists a: nat, b: nat, c: nat, s: nat :: Numeral(z, a, b, c, s)
    ensures forall a: nat, b: nat, c: nat, s: nat | Numeral(z, a, b, c, s) :: IsRealNum(z) == (b < c || c < |z|)
  {
    if IsNum(z) {
      var b := WholeEnd(z).value;
      var c := FracEnd(z, b).value;
      var s := if c < |z| then SignEnd(z, c + 1) else 0;
      assert Numeral(z, SignEnd(z, 0), b, c, s);
    }
    forall a: nat, b: nat, c: nat, s: nat | Numeral(z, a, b, c, s)
      ensures IsNum(z) && IsRealNum(z) == (b < c || c < |z|)
    {
      NumeralIsNum(z, a, b, c, s);
    }
  }

  predicate IsNumChar(c: char) {
    IsDigit(c) || c == '+' || c == '-' || c == '.' || c == 'e' || c == 'E'
  }

  /** No accepted text holds a quote, a comma, a parenthesis or any other character that could end it early. */
  lemma NumChars(z: string)
    requires IsNum(z)
    ensures z != "" && forall i | 0 <= i < |z| :: IsNumChar(z[i])
  {
    IsNumGrammar(z);
    var a: nat, b: nat, c: nat, s: nat :| Numeral(z, a, b, c, s);
  }

  // ---------- the walk ----------

  method SkipDigits(z: string, i: nat) returns (j: nat)
    requires i <= |z|
    ensures j == DigitsEnd(z, i)
  {
    j := i;
    while IsDigit(At(z, j))
      invariant i <= j <= |z| && DigitsEnd(z, j) == DigitsEnd(z, i)
      decreases |z| - j
    {
      j := j + 1;
    }
  }

  /** The optional fraction at `i`; `ok` is false where isNumber() returns 0. */
  method WalkFraction(z: string, i: nat, real0: int) returns (ok: bool, j: nat, realnum: int)
    requires i <= |z| && NulFree(z)
    ensures ok == FracEnd(z, i).Some?
    ensures ok ==> j == FracEnd(z, i).value && realnum == if i < j then 1 else real0
  {
    ok, j, realnum := true, i, real0;
    if At(z, j) == '.' {
      j := j + 1;
      if !IsDigit(At(z, j)) {
        return false, j, realnum;
      }
      j := SkipDigits(z, j);
      realnum := 1;
    }
  }

  /** The optional exponent at `i`. */
  method WalkExponent(z: string, i: nat, real0: int) returns (ok: bool, j: nat, realnum: int)
    requires i <= |z| && NulFree(z)
    ensures ok == ExpEnd(z, i).Some?
    ensures ok ==> j == ExpEnd(z, i).value && realnum == if i < j then 1 else real0
  {
    ok, j, realnum := true, i, real0;
    if At(z, j) == 'e' || At(z, j) == 'E' {
      j := j + 1;
      if At(z, j) == '+' || At(z, j) == '-' {
        j := j + 1;
      }
      if !IsDigit(At(z, j)) {
        return false, j, realnum;
      }
      j := SkipDigits(z, j);
      realnum := 1;
    }
  }

  /** isNumber(): the cursor never passes the terminator, and `realnum` is assigned whenever the answer is 1. */
  method IsNumber(z: string, realnum0: int) returns (r: bool, realnum: int)
    requires NulFree(z)
    ensures r == IsNum(z)
    ensures r ==> realnum == if IsRealNum(z) then 1 else 0
  {
    realnum := realnum0;
    var i := 0;
    if At(z, i) == '-' || At(z, i) == '+' {
      i := i + 1;
    }
    if !IsDigit(At(z, i)) {
      return false, realnum;
    }
    realnum := 0;
    var b := SkipDigits(z, i + 1);
    assert WholeEnd(z) == Some(b);
    var ok, c, d;
    ok, c, realnum := WalkFraction(z, b, realnum);
    if !ok {
      return false, realnum;
    }
    ok, d, realnum := WalkExponent(z, c, realnum);
    if !ok {
      return false, realnum;
    }
    r := At(z, d) == '\0';
  }
}
