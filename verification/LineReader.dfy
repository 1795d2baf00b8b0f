/**
 local_getline(): one logical line of a text file, read with fgets() into a
 buffer that grows, with the csv rule that a newline inside double quotes
 does not end the line.
 */
module LineReader {
  import opened Text

  /** Number of double quotes among the first `n` characters. */
  function Quotes(s: string, n: nat): nat
    requires n <= |s|
  {
    if n == 0 then 0 else Quotes(s, n - 1) + if s[n - 1] == '"' then 1 else 0
  }

  /** The first `n` characters end a logical line: newline last and, in csv mode, evenly many quotes. */
  predicate EndsLine(s: string, csv: bool, n: nat) {
    0 < n <= |s| && s[n - 1] == '\n' && (csv ==> Quotes(s, n) % 2 == 0)
  }

  /** The least length above `n` that ends a line, or everything. */
  function LineEnd(s: string, csv: bool, n: nat := 0): (e: nat)
    requires n <= |s|
    ensures n <= e <= |s| && (n < |s| ==> n < e)
    ensures EndsLine(s, csv, e) || e == |s|
    ensures forall m | n < m < e :: !EndsLine(s, csv, m)
    decreases |s| - n
  {
    if n == |s| || EndsLine(s, csv, n + 1) then if n == |s| then n else n + 1
    else LineEnd(s, csv, n + 1)
  }

  /** Drop the newline and one carriage return before it. */
  function StripEol(s: string): (r: string)
    requires s != "" && s[|s| - 1] == '\n'
    ensures r <= s && |s| - 2 <= |r| < |s|
  {
    if |s| > 1 && s[|s| - 2] == '\r' then s[..|s| - 2] else s[..|s| - 1]
  }

  /** What one call returns when the file still holds `s`. */
  function LineText(s: string, csv: bool): (r: string)
    ensures r <= s
  {
    var e := LineEnd(s, csv);
    if EndsLine(s, csv, e) then StripEol(s[..e]) else s
  }

  /** What one call leaves in the file. */
  function AfterLine(s: string, csv: bool): (r: string)
    ensures |r| <= |s| && r == s[|s| - |r|..]
    ensures s != "" ==> |r| < |s|
  {
    s[LineEnd(s, csv)..]
  }

  /** Any length that ends a line with no shorter one before it is where the line is cut. */
  lemma LineEndIs(s: string, csv: bool, e: nat)
    requires EndsLine(s, csv, e)
    requires forall m | 0 < m < e :: !EndsLine(s, csv, m)
    ensures LineText(s, csv) == StripEol(s[..e]) && AfterLine(s, csv) == s[e..]
  {
    assert LineEnd(s, csv) == e;
  }

  /** Without any such length the line is the whole remainder. */
  lemma NoLineEnd(s: string, csv: bool)
    requires forall m | 0 < m <= |s| :: !EndsLine(s, csv, m)
    ensures LineText(s, csv) == s && AfterLine(s, csv) == ""
  {
    assert LineEnd(s, csv) == |s|;
  }

  // ---------- the file and the method ----------

  /** Length of what one fgets() with room for `max` characters takes from `s`. */
  function ChunkLen(s: string, max: nat): (n: nat)
    ensures n <= max && n <= |s|
    ensures forall i | 0 <= i < n - 1 :: s[i] != '\n'
    ensures n < |s| && n < max ==> n > 0 && s[n - 1] == '\n'
    ensures s != "" && max > 0 ==> n > 0
  {
    if s == "" || max == 0 then 0
    else if s[0] == '\n' then 1
    else 1 + ChunkLen(s[1..], max - 1)
  }

  /** A file open for reading; `rest` is what has not been read. */
  class Stream {
    var rest: string

    constructor (text: string)
      ensures rest == text
    {
      rest := text;
    }

    /** fgets(): read at most size-1 characters, no further than a newline, and terminate them. */
    method Fgets(buf: array<char>, off: nat, size: nat) returns (ok: bool)
      requires 2 <= size && off + size <= buf.Length
      modifies this, buf
      ensures ok == (old(rest) != "")
      ensures !ok ==> rest == old(rest) && buf[..] == old(buf[..])
      ensures ok ==> var k := ChunkLen(old(rest), size - 1);
                     && rest == old(rest)[k..]
                     && buf[off..off + k] == old(rest)[..k]
                     && buf[off + k] == '\0'
      ensures buf[..off] == old(buf[..off])
    {
      ok := rest != "";
      if ok {
        var k := ChunkLen(rest, size - 1);
        forall i | 0 <= i < k {
          buf[off + i] := rest[i];
        }
        buf[off + k] := '\0';
        rest := rest[k..];
      }
    }
  }

  /** realloc(): a buffer of another size with the same first `n` characters. */
  method Realloc(buf: array<char>, n: nat, size: nat) returns (r: array<char>)
    requires n <= buf.Length && n <= size
    ensures fresh(r) && r.Length == size
    ensures r[..n] == buf[..n]
  {
    r := new char[size](i => '\0');
    forall i | 0 <= i < n {
      r[i] := buf[i];
    }
  }

  /** The closing realloc(): exactly the characters of the line and its terminator. */
  method Terminated(buf: array<char>, n: nat, ghost t: string) returns (r: array<char>)
    requires n < buf.Length && buf[..n] == t && buf[n] == '\0' && NulFree(t)
    ensures fresh(r) && r.Length == |t| + 1 && HoldsAt(r, 0, t)
  {
    r := Realloc(buf, n + 1, n + 1);
    assert r[..n + 1][..n] == r[..n] && r[..n + 1][n] == r[n];
    assert buf[..n + 1][..n] == buf[..n] && buf[..n + 1][n] == buf[n];
  }

  /** Cut the newline and one carriage return before it, and terminate what is left. */
  method CutEol(buf: array<char>, n0: nat, ghost t: string) returns (n: nat)
    requires 0 < n0 < buf.Length && buf[..n0] == t && t[n0 - 1] == '\n'
    modifies buf
    ensures n < n0 && buf[n] == '\0' && buf[..n] == StripEol(t)
  {
    assert buf[n0 - 1] == '\n';
    n := n0 - 1;
    if n > 0 && buf[n - 1] == '\r' {
      n := n - 1;
    }
    buf[n] := '\0';
  }

  /** Advance over the characters just read, up to the terminator that fgets() wrote, flipping on quotes. */
  method CountQuotes(buf: array<char>, n0: nat, q0: bool, ghost s: string, ghost k: nat) returns (n: nat, q: bool)
    requires n0 <= k <= |s| && k < buf.Length && NulFree(s)
    requires buf[..k] == s[..k] && buf[k] == '\0'
    requires q0 == (Quotes(s, n0) % 2 == 1)
    ensures n == k && q == (Quotes(s, k) % 2 == 1)
  {
    n, q := n0, q0;
    assert forall i | 0 <= i < k :: buf[i] == buf[..k][i];
    while buf[n] != '\0'
      invariant n0 <= n <= k
      invariant q == (Quotes(s, n) % 2 == 1)
      decreases k - n
    {
      if buf[n] == '"' {
        q := !q;
      }
      n := n + 1;
    }
  }

  lemma PrefixGrows(b: string, s: string, n: nat, k: nat)
    requires n + k <= |b| && n + k <= |s| && b[..n] == s[..n] && b[n..n + k] == s[n..][..k]
    ensures b[..n + k] == s[..n + k]
  {
    assert b[..n + k] == b[..n] + b[n..n + k];
    assert s[..n + k] == s[..n] + s[n..][..k];
  }

  /** One turn of the reading loop: a chunk from the file, appended at `n0` and scanned for quotes. */
  method ReadChunk(input: Stream, buf: array<char>, n0: nat, q0: bool, ghost s: string)
    returns (ok: bool, n: nat, q: bool)
    requires NulFree(s) && n0 <= |s| && n0 + 100 <= buf.Length
    requires input.rest == s[n0..] && buf[..n0] == s[..n0]
    requires q0 == (Quotes(s, n0) % 2 == 1)
    modifies input, buf
    ensures ok == (n0 < |s|)
    ensures n0 <= n <= |s| && n < buf.Length
    ensures input.rest == s[n..] && buf[..n] == s[..n]
    ensures q == (Quotes(s, n) % 2 == 1)
    ensures !ok ==> n == n0
    ensures ok ==> n0 < n && forall i | n0 <= i < n - 1 :: s[i] != '\n'
  {
    n, q := n0, q0;
    ok := input.Fgets(buf, n, buf.Length - n);
    if ok {
      ghost var k := ChunkLen(s[n0..], buf.Length - n0 - 1);
      PrefixGrows(buf[..], s, n0, k);
      assert buf[..n0 + k] == buf[..][..n0 + k];
      assert forall i | n0 <= i < n0 + k - 1 :: s[i] == s[n0..][i - n0];
      n, q := CountQuotes(buf, n, q, s, n0 + k);
    }
  }

  /** The reading loop: at least 100 free characters before every read, and the line in the buffer after the last. */
  method FillLine(input: Stream, csvFlag: bool, ghost s: string) returns (zLine: array<char>, n: nat, got: bool)
    requires NulFree(s) && input.rest == s
    modifies input
    ensures fresh(zLine) && n < zLine.Length
    ensures zLine[..n] == LineText(s, csvFlag) && zLine[n] == '\0'
    ensures got == (s != "")
    ensures input.rest == AfterLine(s, csvFlag)
  {
    var nLine := 100;
    zLine := new char[nLine];
    var inQuote, ok := false, true;
    n := 0;
    while true
      invariant fresh(zLine) && zLine.Length == nLine
      invariant n <= |s| && n < nLine
      invariant input.rest == s[n..] && zLine[..n] == s[..n]
      invariant inQuote == (Quotes(s, n) % 2 == 1)
      invariant forall m | 0 < m <= n :: !EndsLine(s, csvFlag, m)
      decreases |input.rest|
    {
      if n + 100 > nLine {
        nLine := nLine * 2 + 100;
        zLine := Realloc(zLine, n, nLine);
      }
      assert nLine - n >= 100;
      ok, n, inQuote := ReadChunk(input, zLine, n, inQuote, s);
      if !ok {
        zLine[n] := '\0';
        NoLineEnd(s, csvFlag);
        got := n > 0;
        return;
      }
      assert zLine[n - 1] == zLine[..n][n - 1] == s[n - 1];
      if n > 0 && zLine[n - 1] == '\n' && (!inQuote || !csvFlag) {
        LineEndIs(s, csvFlag, n);
        n := CutEol(zLine, n, s[..n]);
        got := true;
        return;
      }
    }
  }

  /**
   local_getline(): null exactly at end of file, otherwise a buffer of exactly
   the right size that holds the next logical line, however the reads were cut.
   */
  method LocalGetline(input: Stream, csvFlag: bool) returns (line: array?<char>)
    requires NulFree(input.rest)
    modifies input
    ensures NulFree(input.rest)
    ensures input.rest == AfterLine(old(input.rest), csvFlag)
    ensures line == null <==> old(input.rest) == ""
    ensures line != null ==> fresh(line)
    ensures line != null ==> var t := LineText(old(input.rest), csvFlag);
                             HoldsAt(line, 0, t) && line.Length == |t| + 1
  {
    ghost var s := input.rest;
    var zLine, n, got := FillLine(input, csvFlag, s);
    if !got {
      return null;
    }
    line := Terminated(zLine, n, LineText(s, csvFlag));
  }
}
