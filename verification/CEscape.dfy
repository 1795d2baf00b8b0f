/**
 C-style escaping: output_c_string(), the tokenizer of dot-commands and
 resolve_backslashes(), which rewrites a token in place.
 */
module CEscape {
  import opened Text
  import opened Readers

  /** The characters of a C string are bytes. */
  ghost predicate Bytes(s: string) {
    forall i | 0 <= i < |s| :: 0 < s[i] as int < 256
  }

  // ---------- output_c_string ----------

  function Octal(d: nat): char
    requires d < 8
  {
    ('0' as int + d) as char
  }

  /** What output_c_string() prints for one character; octal escapes as in section 6.4.4.4 of ISO C99. */
  function EscapeChar(c: char): string {
    if c == '\\' then "\\\\"
    else if c == '\t' then "\\t"
    else if c == '\n' then "\\n"
    else if c == '\r' then "\\r"
    else if !IsPrint(c) then
      var n := c as int % 256;
      ['\\', Octal(n / 64), Octal(n / 8 % 8), Octal(n % 8)]
    else [c]
  }

  function Escaped(s: string): string {
    FlatMap(EscapeChar, s)
  }

  function CString(s: string): string {
    ['"'] + Escaped(s) + ['"']
  }

  /** The branches of output_c_string() for one character. */
  method PutEscaped(c: char, out: string) returns (out': string)
    ensures out' == out + EscapeChar(c)
  {
    if c == '\\' {
      out' := out + [c, c];
    } else if c == '\t' {
      out' := out + "\\t";
    } else if c == '\n' {
      out' := out + "\\n";
    } else if c == '\r' {
      out' := out + "\\r";
    } else if !IsPrint(c) {
      var n := c as int % 256;
      out' := out + ['\\', Octal(n / 64), Octal(n / 8 % 8), Octal(n % 8)];
    } else {
      out' := out + [c];
    }
  }

  /** output_c_string(): the text it prints. */
  method OutputCString(z: string) returns (out: string)
    ensures out == CString(z)
  {
    out := ['"'];
    var i := 0;
    while i < |z|
      invariant 0 <= i <= |z|
      invariant out == ['"'] + FlatMap(EscapeChar, z[..i])
    {
      FlatMapNext(EscapeChar, z, i);
      out := PutEscaped(z[i], out);
      i := i + 1;
    }
    assert z[..i] == z;
    out := out + ['"'];
  }

  // ---------- resolve_backslashes ----------

  predicate IsOctal(c: char) {
    '0' <= c <= '7'
  }

  /** The end of the escape sequence whose backslash is at `i`. */
  function EscapeEnd(z: string, i: nat): (j: nat)
    requires i + 1 < |z|
    ensures i + 2 <= j <= |z| && j <= i + 4
  {
    if !IsOctal(z[i + 1]) || i + 2 == |z| || !IsOctal(z[i + 2]) then i + 2
    else if i + 3 == |z| || !IsOctal(z[i + 3]) then i + 3
    else i + 4
  }

  function OctalDigit(c: char): nat
    requires IsOctal(c)
  {
    c as int - '0' as int
  }

  /** One to three octal digits. A char has 8 bits, so the value is taken modulo 256. */
  function OctalValue(z: string, i: nat): nat
    requires i + 1 < |z| && IsOctal(z[i + 1])
  {
    var a := OctalDigit(z[i + 1]);
    var j := EscapeEnd(z, i);
    if j == i + 2 then a
    else
      var b := a * 8 + OctalDigit(z[i + 2]);
      if j == i + 3 then b else (b * 8 + OctalDigit(z[i + 3])) % 256
  }

  /** The character an escape sequence stands for. */
  function EscapeValue(z: string, i: nat): char
    requires i + 1 < |z|
  {
    var c := z[i + 1];
    if c == 'n' then '\n'
    else if c == 't' then '\t'
    else if c == 'r' then '\r'
    else if IsOctal(c) then OctalValue(z, i) as char
    else c
  }

  /** The number that `n` octal digits from `i` on stand for. */
  function OctalNumber(z: string, i: nat, n: nat): nat
    requires i + n <= |z| && forall k | i <= k < i + n :: IsOctal(z[k])
  {
    if n == 0 then 0 else assert IsOctal(z[i + n - 1]); 8 * OctalNumber(z, i, n - 1) + (z[i + n - 1] as int - 48)
  }

  /** An octal escape takes as many digits as there are, but three at most, and stands for their number in 8 bits. */
  lemma OctalEscape(z: string, i: nat, n: nat)
    requires i + 1 + n <= |z| && 1 <= n <= 3 && forall k | i + 1 <= k < i + 1 + n :: IsOctal(z[k])
    requires n == 3 || i + 1 + n == |z| || !IsOctal(z[i + 1 + n])
    ensures EscapeEnd(z, i) == i + 1 + n && EscapeValue(z, i) as int == OctalNumber(z, i + 1, n) % 256
  {
    assert OctalNumber(z, i + 1, 0) == 0;
    assert OctalNumber(z, i + 1, 1) == z[i + 1] as int - 48;
    if n >= 2 {
      assert OctalNumber(z, i + 1, 2) == 8 * OctalNumber(z, i + 1, 1) + (z[i + 2] as int - 48);
    }
  }

  /** Other escapes: n, t and r are what they are in C, any other character is itself. */
  lemma LetterEscape(z: string, i: nat)
    requires i + 1 < |z| && !IsOctal(z[i + 1])
    ensures EscapeEnd(z, i) == i + 2
    ensures EscapeValue(z, i) as int ==
            if z[i + 1] == 'n' then 10 else if z[i + 1] == 't' then 9 else if z[i + 1] == 'r' then 13 else z[i + 1] as int
  {
  }

  /** What is printed: letters for tab, newline and return, two backslashes for one, visible ASCII and blanks as they are, else four characters. */
  lemma EscapesAre(c: char)
    ensures EscapeChar('\t') == "\\t" && EscapeChar('\n') == "\\n" && EscapeChar('\r') == "\\r" && EscapeChar('\\') == "\\\\"
    ensures 32 <= c as int <= 126 && c != '\\' ==> EscapeChar(c) == [c]
    ensures !(32 <= c as int <= 126) && c !in "\t\n\r" ==> |EscapeChar(c)| == 4
  {
  }

  /** No backslash is left without a character to escape. */
  predicate Paired(z: string, i: nat)
    requires i <= |z|
    decreases |z| - i
  {
    if i == |z| then true
    else if z[i] != '\\' then Paired(z, i + 1)
    else i + 1 < |z| && Paired(z, EscapeEnd(z, i))
  }

  function Resolved(z: string, i: nat): string
    requires i <= |z| && Paired(z, i)
    decreases |z| - i
  {
    if i == |z| then ""
    else if z[i] != '\\' then [z[i]] + Resolved(z, i + 1)
    else [EscapeValue(z, i)] + Resolved(z, EscapeEnd(z, i))
  }

  // ---------- escaping is undone ----------

  /** Three octal digits of a byte are read back as that byte. */
  lemma OctalReads(z: string, i: nat, a: nat, b: nat, d: nat)
    requires a < 4 && b < 8 && d < 8 && i + 4 <= |z|
    requires z[i + 1] == Octal(a) && z[i + 2] == Octal(b) && z[i + 3] == Octal(d)
    ensures EscapeEnd(z, i) == i + 4 && EscapeValue(z, i) == ((a * 8 + b) * 8 + d) as char
  {
  }

  lemma OctalDigits(n: nat)
    requires n < 256
    ensures n / 64 < 4 && n == (n / 64 * 8 + n / 8 % 8) * 8 + n % 8
  {
  }

  lemma LetterReads(z: string, i: nat, c: char)
    requires i + 2 <= |z| && |EscapeChar(c)| == 2 && z[i + 1] == EscapeChar(c)[1]
    ensures EscapeEnd(z, i) == i + 2 && EscapeValue(z, i) == c
  {
  }

  lemma PieceAt(z: string, i: nat, w: string, k: nat)
    requires i + |w| <= |z| && z[i..i + |w|] == w && k < |w|
    ensures z[i + k] == w[k]
  {
    assert z[i..i + |w|][k] == z[i + k];
  }

  /** One printed character is read back as itself, and nothing after it is taken along. */
  lemma EscapeCharReads(z: string, i: nat, c: char)
    requires 0 < c as int < 256
    requires i + |EscapeChar(c)| <= |z| && z[i..i + |EscapeChar(c)|] == EscapeChar(c)
    ensures EscapeChar(c)[0] == '\\' ==> i + 1 < |z| && EscapeEnd(z, i) == i + |EscapeChar(c)| && EscapeValue(z, i) == c
    ensures EscapeChar(c)[0] != '\\' ==> EscapeChar(c) == [c]
  {
    var w := EscapeChar(c);
    if |w| > 1 {
      PieceAt(z, i, w, 1);
      if |w| == 2 {
        LetterReads(z, i, c);
      } else {
        PieceAt(z, i, w, 2);
        PieceAt(z, i, w, 3);
        var n := c as int;
        OctalDigits(n);
        OctalReads(z, i, n / 64, n / 8 % 8, n % 8);
      }
    }
  }

  /** The escaped text at position `i` of a token resolves to the text. */
  lemma {:induction false} EscapedResolves(z: string, i: nat, s: string)
    requires Bytes(s) && i <= |z| && z[i..] == Escaped(s)
    ensures Paired(z, i) && Resolved(z, i) == s
    decreases s
  {
    if s != "" {
      var w := EscapeChar(s[0]);
      TailAfter(z, i, w, Escaped(s[1..]));
      EscapeCharReads(z, i, s[0]);
      EscapedResolves(z, i + |w|, s[1..]);
      PieceAt(z, i, w, 0);
      ResolveStep(z, i, s[0]);
      assert s == [s[0]] + s[1..];
    }
  }

  lemma ResolveStep(z: string, i: nat, c: char)
    requires var w := EscapeChar(c);
             && i + |w| <= |z| && Paired(z, i + |w|) && z[i] == w[0]
             && (w[0] == '\\' ==> i + 1 < |z| && EscapeEnd(z, i) == i + |w| && EscapeValue(z, i) == c)
             && (w[0] != '\\' ==> w == [c])
    ensures Paired(z, i) && Resolved(z, i) == [c] + Resolved(z, i + |EscapeChar(c)|)
  {
  }

  // ---------- resolve_backslashes, in place ----------

  /** From its `k`-th character on, `d` is what is still to be written when the scan is at `i`. */
  ghost predicate ResolveDue(z: string, d: string, k: nat, i: nat)
    requires i <= |z| && Paired(z, i)
    decreases |z| - i
  {
    if i == |z| then k == |d|
    else if z[i] != '\\' then k < |d| && d[k] == z[i] && ResolveDue(z, d, k + 1, i + 1)
    else k < |d| && d[k] == EscapeValue(z, i) && ResolveDue(z, d, k + 1, EscapeEnd(z, i))
  }

  lemma {:induction false} ResolvedIsDue(z: string, d: string, k: nat, i: nat)
    requires i <= |z| && Paired(z, i) && k <= |d| && d[k..] == Resolved(z, i)
    ensures ResolveDue(z, d, k, i)
    decreases |z| - i
  {
    if i < |z| {
      assert d[k + 1..] == d[k..][1..];
      ResolvedIsDue(z, d, k + 1, if z[i] != '\\' then i + 1 else EscapeEnd(z, i));
    }
  }

  /** The body of the loop for an escape sequence: its value, and the index of its last character. */
  method ReadEscape(buf: array<char>, off: nat, i: nat, ghost z: string) returns (c: char, last: nat)
    requires off + |z| < buf.Length && buf[off + |z|] == '\0' && NulFree(z)
    requires i + 1 < |z| && forall m | off + i <= m < off + |z| :: buf[m] == z[m - off]
    ensures c == EscapeValue(z, i) && last + 1 == EscapeEnd(z, i)
  {
    last := i + 1;
    c := buf[off + last];
    if c == 'n' {
      c := '\n';
    } else if c == 't' {
      c := '\t';
    } else if c == 'r' {
      c := '\r';
    } else if IsOctal(c) {
      var v := OctalDigit(c);
      if IsOctal(buf[off + last + 1]) {
        last := last + 1;
        v := v * 8 + OctalDigit(buf[off + last]);
        if IsOctal(buf[off + last + 1]) {
          last := last + 1;
          v := (v * 8 + OctalDigit(buf[off + last])) % 256;
        }
      }
      c := v as char;
    }
  }

  /** The rewriting loop: the write index never passes the read index. */
  method ResolveLoop(buf: array<char>, off: nat, ghost z: string, ghost d: string)
    requires HoldsAt(buf, off, z) && Paired(z, 0) && ResolveDue(z, d, 0, 0)
    modifies buf
    ensures |d| <= |z| && buf[off..off + |d|] == d && buf[off + |d|] == '\0'
    ensures forall m | 0 <= m < buf.Length && !(off <= m < off + |z|) :: buf[m] == old(buf[m])
  {
    HoldsEach(buf, off, z);
    var i, j := 0, 0;
    while buf[off + i] != '\0'
      invariant 0 <= j <= i <= |z| && j <= |d|
      invariant Paired(z, i) && ResolveDue(z, d, j, i)
      invariant forall m | off <= m < off + j :: buf[m] == d[m - off]
      invariant forall m | off + i <= m < off + |z| :: buf[m] == z[m - off]
      invariant buf[off + |z|] == '\0'
      invariant forall m | 0 <= m < buf.Length && !(off <= m < off + |z|) :: buf[m] == old(buf[m])
      decreases |z| - i
    {
      var c := buf[off + i];
      if c == '\\' {
        c, i := ReadEscape(buf, off, i, z);
      }
      buf[off + j] := c;
      i, j := i + 1, j + 1;
    }
    assert j == |d|;
    buf[off + j] := '\0';
    assert buf[off..off + j] == d;
  }
}
