/**
 C strings as Dafny strings: character classes, and what it means for a
 character buffer to hold a NUL-terminated string.
 */
module Text {

  /** A pointer that may be NULL. */
  datatype Option<+T> = None | Some(value: T)

  /** No terminator inside: the strings a `char *` can denote. */
  ghost predicate NulFree(s: string) {
    forall i | 0 <= i < |s| :: s[i] != '\0'
  }

  /** The bytes of `buf` from `off` on are the C string `s`, terminator included. */
  ghost predicate HoldsAt(buf: array<char>, off: nat, s: string)
    reads buf
  {
    && off + |s| < buf.Length
    && buf[off..off + |s|] == s
    && buf[off + |s|] == '\0'
    && NulFree(s)
  }

  lemma HoldsEach(buf: array<char>, off: nat, s: string)
    requires HoldsAt(buf, off, s)
    ensures forall m | off <= m < off + |s| :: buf[m] == s[m - off]
  {
    forall m | off <= m < off + |s| ensures buf[m] == s[m - off] {
      assert buf[m] == buf[off..off + |s|][m - off];
    }
  }

  /** `z[i]` of a C string: any index up to and including the terminator. */
  function At(z: string, i: nat): char
    requires i <= |z|
  {
    if i < |z| then z[i] else '\0'
  }

  /** isspace() in the C locale. */
  predicate IsSpace(c: char) {
    c == ' ' || c == '\t' || c == '\n' || c == '\r' || c == '\U{0B}' || c == '\U{0C}'
  }

  /** isdigit() */
  predicate IsDigit(c: char) {
    '0' <= c <= '9'
  }

  /** isalpha() in the C locale. */
  predicate IsAlpha(c: char) {
    'a' <= c <= 'z' || 'A' <= c <= 'Z'
  }

  /** isalnum() in the C locale. */
  predicate IsAlnum(c: char) {
    IsAlpha(c) || IsDigit(c)
  }

  /** isprint() in the C locale. */
  predicate IsPrint(c: char) {
    ' ' <= c <= '~'
  }

  /** tolower() in the C locale, as a test against one lower-case letter. */
  predicate IsLetter(c: char, lower: char)
    requires 'a' <= lower <= 'z'
  {
    c == lower || (c as int) + 32 == lower as int
  }

  /** The first position from `i` on that holds no white space. */
  function SkipSpaces(z: string, i: nat): (j: nat)
    requires i <= |z|
    ensures i <= j <= |z| && (j < |z| ==> !IsSpace(z[j]))
    decreases |z| - i
  {
    if i < |z| && IsSpace(z[i]) then SkipSpaces(z, i + 1) else i
  }

  lemma {:induction false} SkipsOnlySpaces(z: string, i: nat)
    requires i <= |z|
    ensures forall k | i <= k < SkipSpaces(z, i) :: IsSpace(z[k])
    decreases |z| - i
  {
    if i < |z| && IsSpace(z[i]) {
      SkipsOnlySpaces(z, i + 1);
    }
  }

  /** The buffer from `i` on is the rest of the line that it held. */
  ghost predicate Ahead(z: array<char>, line: string, i: nat)
    reads z
  {
    && i <= |line| < z.Length && z[|line|] == '\0' && NulFree(line)
    && forall m | i <= m < |line| :: z[m] == line[m]
  }

  /** A piece of a piece of a text. */
  lemma SubPiece(s: string, p: nat, e: nat, k: nat, n: nat)
    requires p + k + n <= e <= |s|
    ensures s[p..e][k..k + n] == s[p + k..p + k + n]
  {
    var a, b := s[p..e][k..k + n], s[p + k..p + k + n];
    forall i | 0 <= i < n ensures a[i] == b[i] {
    }
  }

  lemma Reassociate(a: string, b: string, c: string)
    ensures a + (b + c) == (a + b) + c
  {
  }

  /** A known start of the remainder of a text. */
  lemma TailAfter(s: string, j: nat, a: string, b: string)
    requires j <= |s| && s[j..] == a + b
    ensures j + |a| <= |s| && s[j..j + |a|] == a && s[j + |a|..] == b
  {
    assert s[j..j + |a|] == s[j..][..|a|];
    assert s[j + |a|..] == s[j..][|a|..];
  }

  /** The text that starts at `off`, as whoever is handed the pointer reads it. */
  method TextAt(z: array<char>, off: nat, ghost s: string) returns (t: string)
    requires HoldsAt(z, off, s)
    ensures t == s
  {
    HoldsEach(z, off, s);
    t := "";
    var i := off;
    while z[i] != '\0'
      invariant off <= i <= off + |s| && t == s[..i - off]
      decreases off + |s| - i
    {
      t := t + [z[i]];
      i := i + 1;
    }
  }
}
