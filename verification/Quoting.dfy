/**
 The SQL quoters of the shell. Three independent loops, one specification:
 the text between quote characters, every quote character inside doubled.
 */
module Quoting {
  import opened Text
  import opened LineReader
  import opened Readers
  import opened ShellState

  function Doubled(s: string, q: char): string {
    if s == "" then "" else (if s[0] == q then [q, q] else [s[0]]) + Doubled(s[1..], q)
  }

  /** A quoted literal (q = ') or delimited identifier (q = "), subclauses 5.2 and 5.3 of SQL-92. */
  function Quoted(s: string, q: char): string {
    [q] + Doubled(s, q) + [q]
  }

  lemma {:induction false} DoubledConcat(a: string, b: string, q: char)
    ensures Doubled(a + b, q) == Doubled(a, q) + Doubled(b, q)
  {
    if a == "" {
      assert a + b == b;
    } else {
      DoubledConcat(a[1..], b, q);
      assert (a + b)[0] == a[0] && (a + b)[1..] == a[1..] + b;
      Reassociate(if a[0] == q then [q, q] else [a[0]], Doubled(a[1..], q), Doubled(b, q));
    }
  }

  /** One more character of a text that is being copied. */
  lemma DoubledNext(s: string, i: nat, q: char)
    requires i < |s|
    ensures Doubled(s[..i + 1], q) == Doubled(s[..i], q) + if s[i] == q then [q, q] else [s[i]]
  {
    assert s[..i + 1] == s[..i] + [s[i]];
    DoubledConcat(s[..i], [s[i]], q);
    assert [s[i]][1..] == "";
  }

  lemma {:induction false} DoubledPlain(s: string, q: char)
    requires q !in s
    ensures Doubled(s, q) == s
  {
    if s != "" {
      DoubledPlain(s[1..], q);
    }
  }

  /** Read the remainder of a quoted text, after its opening quote. */
  function ReadQuoted(t: string, q: char): (r: Read<string>)
    ensures r.Got? ==> |r.rest| < |t|
  {
    if t == "" then Fail
    else if t[0] == q && !(|t| > 1 && t[1] == q) then Got("", t[1..])
    else
      var r := ReadQuoted(if t[0] == q then t[2..] else t[1..], q);
      if r.Fail? then Fail else Got([t[0]] + r.value, r.rest)
  }

  /** One character of a quoted text. */
  lemma ReadOne(c: char, q: char, u: string, v: string, rest: string)
    requires ReadQuoted(u, q) == Got(v, rest)
    ensures ReadQuoted((if c == q then [q, q] else [c]) + u, q) == Got([c] + v, rest)
  {
    assert ([q, q] + u)[2..] == u && ([c] + u)[1..] == u;
  }

  /** Quoting is undone by reading, whatever follows that is not another quote: no text can end its literal early. */
  lemma QuotedReadsBack(s: string, q: char, rest: string)
    requires rest == "" || rest[0] != q
    ensures Quoted(s, q) + rest == [q] + (Doubled(s, q) + [q] + rest)
    ensures ReadQuoted(Doubled(s, q) + [q] + rest, q) == Got(s, rest)
  {
    Reassociate([q], Doubled(s, q), [q]);
    Reassociate([q], Doubled(s, q) + [q], rest);
    Reassociate(Doubled(s, q), [q], rest);
    DoubledReads(s, q, rest);
  }

  lemma {:induction false} DoubledReads(s: string, q: char, rest: string)
    requires rest == "" || rest[0] != q
    ensures ReadQuoted(Doubled(s, q) + ([q] + rest), q) == Got(s, rest)
  {
    if s == "" {
      assert Doubled(s, q) + ([q] + rest) == [q] + rest;
      assert ([q] + rest)[1..] == rest;
    } else {
      DoubledReads(s[1..], q, rest);
      ReadOne(s[0], q, Doubled(s[1..], q) + ([q] + rest), s[1..], rest);
      Reassociate(if s[0] == q then [q, q] else [s[0]], Doubled(s[1..], q), [q] + rest);
      assert s == [s[0]] + s[1..];
    }
  }

  // ---------- output_quoted_string ----------

  /** First position at or after `i` that holds a single quote or the terminator. */
  method ToNextQuote(z: string, i: nat) returns (j: nat)
    requires i <= |z|
    ensures i <= j <= |z| && '\'' !in z[i..j] && (j < |z| ==> z[j] == '\'')
  {
    j := i;
    while j < |z| && z[j] != '\''
      invariant i <= j <= |z| && '\'' !in z[i..j]
    {
      j := j + 1;
    }
  }

  /** The bytes up to the next quote go out in one piece. */
  lemma DoubledRun(z: string, i: nat, j: nat)
    requires i <= j <= |z| && '\'' !in z[i..j]
    ensures Doubled(z[..j], '\'') == Doubled(z[..i], '\'') + z[i..j]
  {
    assert z[..j] == z[..i] + z[i..j];
    DoubledConcat(z[..i], z[i..j], '\'');
    DoubledPlain(z[i..j], '\'');
  }

  /** output_quoted_string(): the text it prints. */
  method OutputQuotedString(z: string) returns (out: string)
    ensures out == Quoted(z, '\'')
  {
    var nSingle, i := 0, 0;
    while i < |z|
      invariant 0 <= i <= |z|
      invariant nSingle >= 0 && (nSingle == 0 <==> '\'' !in z[..i])
    {
      if z[i] == '\'' {
        nSingle := nSingle + 1;
      }
      i := i + 1;
    }
    if nSingle == 0 {
      assert z[..i] == z;
      DoubledPlain(z, '\'');
      out := "'" + z + "'";
    } else {
      out := QuoteChunks(z);
    }
  }

  /** The printing loop: up to the next quote in one piece, then the quote twice. */
  method QuoteChunks(z: string) returns (out: string)
    ensures out == Quoted(z, '\'')
  {
    out := ['\''];
    var k := 0;
    while k < |z|
      invariant 0 <= k <= |z|
      invariant out == ['\''] + Doubled(z[..k], '\'')
    {
      var piece;
      piece, k := NextChunk(z, k);
      out := out + piece;
    }
    assert z[..k] == z;
    out := out + ['\''];
  }

  /** One turn of the printing loop. */
  method NextChunk(z: string, k: nat) returns (piece: string, k': nat)
    requires k < |z|
    ensures k < k' <= |z| && Doubled(z[..k'], '\'') == Doubled(z[..k], '\'') + piece
  {
    var j := ToNextQuote(z, k);
    DoubledRun(z, k, j);
    if j == |z| {
      piece, k' := z[k..], j;
    } else if j == k {
      DoubledNext(z, j, '\'');
      piece, k' := "''", k + 1;
    } else {
      DoubledNext(z, j, '\'');
      Reassociate(Doubled(z[..k], '\''), z[k..j], "''");
      piece, k' := z[k..j] + "''", j + 1;
    }
  }

  // ---------- appendText ----------

  /** strlen30() of a buffer. */
  method StrLen(z: array<char>, ghost s: string) returns (n: nat)
    requires HoldsAt(z, 0, s)
    ensures n == |s|
  {
    assert forall i | 0 <= i < |s| :: z[i] == z[..|s|][i];
    n := 0;
    while z[n] != '\0'
      invariant n <= |s|
      decreases |s| - n
    {
      n := n + 1;
    }
  }

  /** The writing pass: copy `s` to position `at`, writing every quote character twice. */
  method CopyDoubled(buf: array<char>, at: nat, s: string, q: char) returns (end: nat)
    requires at + |Doubled(s, q)| <= buf.Length
    modifies buf
    ensures end == at + |Doubled(s, q)|
    ensures buf[..end] == old(buf[..at]) + Doubled(s, q)
  {
    end := at;
    var i := 0;
    while i < |s|
      invariant 0 <= i <= |s|
      invariant end == at + |Doubled(s[..i], q)|
      invariant end <= buf.Length && buf[..end] == old(buf[..at]) + Doubled(s[..i], q)
    {
      DoubledNext(s, i, q);
      DoubledFits(s, i + 1, q);
      ghost var was := buf[..end];
      buf[end] := s[i];
      end := end + 1;
      assert buf[..end] == was + [s[i]];
      if s[i] == q {
        was := buf[..end];
        buf[end] := q;
        end := end + 1;
        assert buf[..end] == was + [q];
      }
      i := i + 1;
    }
    assert s[..i] == s;
  }

  lemma DoubledFits(s: string, i: nat, q: char)
    requires i <= |s|
    ensures |Doubled(s[..i], q)| <= |Doubled(s, q)|
  {
    assert s == s[..i] + s[i..];
    DoubledConcat(s[..i], s[i..], q);
  }

  lemma {:induction false} DoubledNulFree(s: string, q: char)
    requires NulFree(s) && q != '\0'
    ensures NulFree(Doubled(s, q))
  {
    if s != "" {
      DoubledNulFree(s[1..], q);
    }
  }

  /** The counting pass: room for `s` between quotes. */
  method CountDoubled(s: string, q: char, base: nat) returns (len: nat)
    ensures len == base + |Quoted(s, q)|
  {
    len := base + |s| + 2;
    var i := 0;
    while i < |s|
      invariant 0 <= i <= |s|
      invariant len == base + 2 + |s| - i + |Doubled(s[..i], q)|
    {
      DoubledNext(s, i, q);
      if s[i] == q {
        len := len + 1;
      }
      i := i + 1;
    }
    assert s[..i] == s;
  }

  /** Quote, doubled text, quote and terminator, up to the last byte counted. */
  method WriteQuoted(z: array<char>, n: nat, s: string, quote: char)
    requires z.Length == n + |Quoted(s, quote)| + 1
    requires NulFree(s) && quote != '\0'
    modifies z
    ensures z[..z.Length - 1] == old(z[..n]) + Quoted(s, quote)
    ensures z[z.Length - 1] == '\0'
    ensures NulFree(Quoted(s, quote))
  {
    DoubledNulFree(s, quote);
    ghost var was := z[..n];
    z[n] := quote;
    assert z[..n + 1] == was + [quote];
    var csr := CopyDoubled(z, n + 1, s, quote);
    was := z[..csr];
    z[csr] := quote;
    z[csr + 1] := '\0';
    assert csr + 2 == z.Length;
    assert z[..csr + 1] == was + [quote];
  }

  /** What appendText() adds: the text as it is, or quoted. */
  function Appended(s: string, quote: char): string {
    if quote == '\0' then s else Quoted(s, quote)
  }

  /** appendText(): the counted length is exactly what the writing pass fills. */
  method AppendText(zIn: array?<char>, zAppend: string, quote: char, ghost inText: string) returns (z: array<char>)
    requires if zIn == null then inText == "" else HoldsAt(zIn, 0, inText)
    requires NulFree(zAppend)
    ensures fresh(z) && HoldsAt(z, 0, inText + Appended(zAppend, quote))
    ensures z.Length == |inText + Appended(zAppend, quote)| + 1
  {
    var nIn := 0;
    if zIn != null {
      nIn := StrLen(zIn, inText);
    }
    var len := |zAppend| + nIn + 1;
    if quote != '\0' {
      len := CountDoubled(zAppend, quote, nIn + 1);
    }
    if zIn != null {
      z := Realloc(zIn, nIn, len);
    } else {
      z := new char[len];
    }
    assert z[..nIn] == inText;
    if quote != '\0' {
      WriteQuoted(z, nIn, zAppend, quote);
    } else {
      forall i | 0 <= i < |zAppend| {
        z[nIn + i] := zAppend[i];
      }
      z[len - 1] := '\0';
      assert z[..len - 1] == inText + zAppend;
    }
  }

  // ---------- set_table_name ----------

  predicate IsNameChar(c: char) {
    IsAlnum(c) || c == '_'
  }

  /** A destination name is printed as it is when it is a plain identifier, and quoted otherwise. */
  predicate PlainName(s: string) {
    s != "" && (IsAlpha(s[0]) || s[0] == '_') && forall i | 0 <= i < |s| :: IsNameChar(s[i])
  }

  function DestName(s: string): string {
    if PlainName(s) then s else Quoted(s, '\'')
  }

  lemma {:induction false} DoubledLength(s: string, q: char)
    ensures |Doubled(s, q)| >= |s|
  {
    if s != "" {
      DoubledLength(s[1..], q);
    }
  }

  /** A name is printed as it is exactly if it is letters, digits and underscores, no digit first. */
  lemma DestNameIs(s: string)
    ensures DestName(s) == s <==>
            && s != "" && !('0' <= s[0] <= '9')
            && forall i | 0 <= i < |s| :: ('a' <= s[i] <= 'z') || ('A' <= s[i] <= 'Z') || ('0' <= s[i] <= '9') || s[i] == '_'
    ensures DestName(s) == s || DestName(s) == ['\''] + Doubled(s, '\'') + ['\'']
  {
    DoubledLength(s, '\'');
    assert PlainName(s) <==> s != "" && !('0' <= s[0] <= '9') && forall i | 0 <= i < |s| :: IsNameChar(s[i]);
  }

  /** The counting pass of set_table_name(), which also decides whether to quote. */
  method MeasureName(zName: string) returns (needQuote: bool, n: nat)
    ensures needQuote == !PlainName(zName)
    ensures n == |Doubled(zName, '\'')| + if needQuote then 2 else 0
  {
    needQuote := zName == "" || (!IsAlpha(zName[0]) && zName[0] != '_');
    n := 0;
    var i := 0;
    while i < |zName|
      invariant 0 <= i <= |zName|
      invariant n == |Doubled(zName[..i], '\'')|
      invariant needQuote == (zName == "" || (!IsAlpha(zName[0]) && zName[0] != '_') || exists k | 0 <= k < i :: !IsNameChar(zName[k]))
    {
      DoubledNext(zName, i, '\'');
      if !IsAlnum(zName[i]) && zName[i] != '_' {
        needQuote := true;
        if zName[i] == '\'' {
          n := n + 1;
        }
      }
      i, n := i + 1, n + 1;
    }
    assert zName[..i] == zName;
    if needQuote {
      n := n + 2;
    }
  }

  /** set_table_name(): the new buffer of zDestTable, null for a null name. */
  method SetTableName(zName: Option<string>) returns (zDestTable: array?<char>)
    requires zName.Some? ==> NulFree(zName.value)
    ensures zDestTable == null <==> zName.None?
    ensures zName.Some? ==> fresh(zDestTable) && HoldsAt(zDestTable, 0, DestName(zName.value))
    ensures zName.Some? ==> zDestTable.Length == |DestName(zName.value)| + 1
  {
    if zName.None? {
      return null;
    }
    var name := zName.value;
    var needQuote, size := MeasureName(name);
    var z := new char[size + 1];
    DoubledNulFree(name, '\'');
    var n := 0;
    if needQuote {
      z[n] := '\'';
      n := n + 1;
    } else {
      DoubledPlain(name, '\'');
    }
    ghost var open := if needQuote then "'" else "";
    assert z[..n] == open;
    n := CopyDoubled(z, n, name, '\'');
    ghost var was := z[..n];
    if needQuote {
      z[n] := '\'';
      n := n + 1;
    }
    z[n] := '\0';
    assert z[..n] == was + open == DestName(name);
    zDestTable := z;
  }

  /** set_table_name(): the destination of MODE_Insert. */
  method SetDestTable(p: CallbackData, zName: Option<string>)
    requires zName.Some? ==> NulFree(zName.value)
    modifies p`zDestTable
    ensures p.zDestTable == if zName.None? then None else Some(DestName(zName.value))
  {
    p.zDestTable := None;
    var z := SetTableName(zName);
    if z != null {
      var text := TextAt(z, 0, DestName(zName.value));
      p.zDestTable := Some(text);
    }
  }
}
