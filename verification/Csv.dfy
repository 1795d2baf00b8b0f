/**
 The csv dialect of the shell: output_csv() with the MODE_Csv callback, and the
 splitter and dequoter that .import applies to each record. The quoting is that
 of items 5 to 7 in section 2 of RFC 4180; records end in a newline alone.
 */
module Csv {
  import opened Text
  import opened LineReader
  import opened Quoting
  import opened Readers
  import opened ShellState

  // ---------- writing ----------

  /** The table needCsvQuote[]: control characters, space, both quotes, DEL and everything above. */
  predicate NeedCsvQuote(c: char) {
    c <= ' ' || c == '"' || c == '\'' || c >= '\U{7F}'
  }

  /**
   The test that output_csv() makes at position `i`. For separators of several
   bytes the comparison is made at the start of the field, not at `i`.
   */
  predicate Triggers(f: string, sep: string, i: nat)
    requires i < |f|
  {
    NeedCsvQuote(f[i]) || (sep != "" && f[i] == sep[0] && (|sep| == 1 || sep <= f))
  }

  predicate NeedsQuote(f: string, sep: string) {
    f == "" || exists i | 0 <= i < |f| :: Triggers(f, sep, i)
  }

  function FieldText(f: string, sep: string): string {
    if NeedsQuote(f, sep) then Quoted(f, '"') else f
  }

  /** A field that may be NULL; NULL prints as nullvalue. */
  function CellText(z: Option<string>, sep: string, nullvalue: string): string {
    if z.None? then nullvalue else FieldText(z.value, sep)
  }

  /** What is printed from column `i` on. */
  function CellsFrom(row: seq<Option<string>>, i: nat, sep: string, nullvalue: string): string
    requires i <= |row|
    decreases |row| - i
  {
    if i == |row| then "\n"
    else CellText(row[i], sep, nullvalue) + (if i < |row| - 1 then sep else "") + CellsFrom(row, i + 1, sep, nullvalue)
  }

  /** The first loop of output_csv(): quote on the first character that asks for it, or on no character at all. */
  method DecideQuote(z: string, sep: string) returns (quote: bool)
    ensures quote == NeedsQuote(z, sep)
  {
    var i := 0;
    while i < |z|
      invariant 0 <= i <= |z|
      invariant forall k | 0 <= k < i :: !Triggers(z, sep, k)
    {
      if NeedCsvQuote(z[i]) || (sep != "" && z[i] == sep[0] && (|sep| == 1 || sep <= z)) {
        assert Triggers(z, sep, i);
        i := 0;
        break;
      }
      i := i + 1;
    }
    quote := i == 0;
  }

  /** The second loop of output_csv(). */
  method QuoteField(z: string) returns (out: string)
    ensures out == Quoted(z, '"')
  {
    out := ['"'];
    var i := 0;
    while i < |z|
      invariant 0 <= i <= |z|
      invariant out == ['"'] + Doubled(z[..i], '"')
    {
      DoubledNext(z, i, '"');
      if z[i] == '"' {
        out := out + ['"'];
      }
      out := out + [z[i]];
      i := i + 1;
    }
    assert z[..i] == z;
    out := out + ['"'];
  }

  /** output_csv() */
  method OutputCsv(p: CallbackData, z: Option<string>, bSep: bool)
    modifies p`out
    ensures p.out == old(p.out) + CellText(z, p.separator, p.nullvalue) + if bSep then p.separator else ""
    ensures z.None? ==> p.out == old(p.out) + p.nullvalue + if bSep then p.separator else ""
  {
    if z.None? {
      p.out := p.out + p.nullvalue;
    } else {
      var quote := DecideQuote(z.value, p.separator);
      if quote {
        var text := QuoteField(z.value);
        p.out := p.out + text;
      } else {
        p.out := p.out + z.value;
      }
    }
    if bSep {
      p.out := p.out + p.separator;
    }
  }

  /** One line of MODE_Csv output, for a header or for a row. */
  method OutputCells(p: CallbackData, row: seq<Option<string>>)
    modifies p`out
    ensures p.out == old(p.out) + CellsFrom(row, 0, p.separator, p.nullvalue)
  {
    ghost var goal := p.out + CellsFrom(row, 0, p.separator, p.nullvalue);
    var i := 0;
    while i < |row|
      invariant 0 <= i <= |row|
      invariant p.out + CellsFrom(row, i, p.separator, p.nullvalue) == goal
    {
      OutputCsv(p, row[i], i < |row| - 1);
      i := i + 1;
    }
    p.out := p.out + "\n";
  }

  /** The column names of a header line; a missing name prints as an empty field. */
  function HeaderCells(cols: seq<Option<string>>): (r: seq<Option<string>>)
    ensures |r| == |cols|
    ensures forall i | 0 <= i < |cols| :: r[i].Some? && (if cols[i].Some? then r[i].value == cols[i].value else r[i].value == "")
  {
    seq(|cols|, i requires 0 <= i < |cols| => if cols[i].None? then Some("") else cols[i])
  }

  /** shell_callback() in MODE_Csv: a header before the first row if headers are on. */
  method CsvCallback(p: CallbackData, azArg: Option<seq<Option<string>>>, azCol: seq<Option<string>>)
    modifies p`cnt, p`out
    ensures p.cnt == old(p.cnt) + 1
    ensures p.out == old(p.out)
                     + (if old(p.cnt) == 0 && p.showHeader != 0 then CellsFrom(HeaderCells(azCol), 0, p.separator, p.nullvalue) else "")
                     + (if azArg.Some? then CellsFrom(azArg.value, 0, p.separator, p.nullvalue) else "")
  {
    var first := p.cnt == 0;
    p.cnt := p.cnt + 1;
    if first && p.showHeader != 0 {
      OutputCells(p, HeaderCells(azCol));
    }
    if azArg.None? {
      return;
    }
    OutputCells(p, azArg.value);
  }

  /** The lines of several rows, one after the other. */
  function FileCells(rows: seq<seq<Option<string>>>, sep: string, nullvalue: string): string {
    if rows == [] then "" else CellsFrom(rows[0], 0, sep, nullvalue) + FileCells(rows[1..], sep, nullvalue)
  }

  lemma FileCellsNext(rows: seq<seq<Option<string>>>, k: nat, sep: string, nullvalue: string, out: string)
    requires k < |rows|
    ensures out + FileCells(rows[k..], sep, nullvalue)
            == out + CellsFrom(rows[k], 0, sep, nullvalue) + FileCells(rows[k + 1..], sep, nullvalue)
  {
    assert rows[k..][1..] == rows[k + 1..];
    Reassociate(out, CellsFrom(rows[k], 0, sep, nullvalue), FileCells(rows[k + 1..], sep, nullvalue));
  }

  /** The lines that a query prints: its rows, after the column names if there are rows and headers are on. */
  function QueryLines(header: bool, azCol: seq<Option<string>>, rows: seq<seq<Option<string>>>): seq<seq<Option<string>>> {
    if header && rows != [] then [HeaderCells(azCol)] + rows else rows
  }

  lemma QueryNext(header: bool, azCol: seq<Option<string>>, rows: seq<seq<Option<string>>>, i: nat,
                  sep: string, nullvalue: string, out: string)
    requires i < |rows|
    ensures out + FileCells(QueryLines(header, azCol, rows[i..]), sep, nullvalue)
            == out + (if header then CellsFrom(HeaderCells(azCol), 0, sep, nullvalue) else "")
               + CellsFrom(rows[i], 0, sep, nullvalue) + FileCells(QueryLines(false, azCol, rows[i + 1..]), sep, nullvalue)
  {
    FileCellsNext(rows, i, sep, nullvalue, out);
    if header {
      var lines := QueryLines(header, azCol, rows[i..]);
      var more := out + CellsFrom(lines[0], 0, sep, nullvalue);
      assert lines[0..] == lines && lines[1..] == rows[i..];
      FileCellsNext(lines, 0, sep, nullvalue, out);
      FileCellsNext(rows, i, sep, nullvalue, more);
    } else {
      assert out + "" == out;
    }
  }

  /** The callback on every row of a query. */
  method ExportRows(p: CallbackData, azCol: seq<Option<string>>, rows: seq<seq<Option<string>>>)
    modifies p`cnt, p`out
    ensures p.cnt == old(p.cnt) + |rows|
    ensures p.out == old(p.out) + FileCells(QueryLines(old(p.cnt) == 0 && p.showHeader != 0, azCol, rows), p.separator, p.nullvalue)
  {
    ghost var goal := p.out + FileCells(QueryLines(p.cnt == 0 && p.showHeader != 0, azCol, rows), p.separator, p.nullvalue);
    assert rows[0..] == rows;
    var i := 0;
    while i < |rows|
      invariant 0 <= i <= |rows| && p.cnt == old(p.cnt) + i
      invariant p.out + FileCells(QueryLines(p.cnt == 0 && p.showHeader != 0, azCol, rows[i..]), p.separator, p.nullvalue) == goal
    {
      QueryNext(p.cnt == 0 && p.showHeader != 0, azCol, rows, i, p.separator, p.nullvalue, p.out);
      CsvCallback(p, Some(rows[i]), azCol);
      i := i + 1;
    }
    assert rows[i..] == [];
  }

  // ---------- splitting a record ----------

  /** The separator stands at position `i`. */
  predicate SepAt(s: string, sep: string, i: nat) {
    i + |sep| <= |s| && s[i..i + |sep|] == sep
  }

  /**
   The fields of a record from position `from` on, with the scan at `i` and in
   quote state `q`: separators outside quotes, left to right, not overlapping.
   */
  function Split(s: string, sep: string, from: nat, i: nat, q: bool): (fs: seq<string>)
    requires from <= i <= |s| && sep != ""
    ensures fs != []
    decreases |s| - i
  {
    if i == |s| then [s[from..]]
    else
      var q' := if s[i] == '"' then !q else q;
      if !q' && SepAt(s, sep, i) then [s[from..i]] + Split(s, sep, i + |sep|, i + |sep|, q')
      else Split(s, sep, from, i + 1, q')
  }

  function Fields(s: string, sep: string): (fs: seq<string>)
    requires sep != ""
    ensures fs != []
  {
    Split(s, sep, 0, 0, false)
  }

  // ---------- every record, also one that nobody wrote ----------

  /** With the scan at `i` in quote state `q`, a separator stands at `p` outside quotes. */
  ghost predicate Cut(s: string, sep: string, i: nat, q: bool, p: nat)
    requires i <= |s|
  {
    i <= p < |s| && SepAt(s, sep, p) && q == Odd(Quotes(s, p + 1) - Quotes(s, i))
  }

  predicate Odd(n: int) {
    n % 2 == 1
  }

  lemma CutHere(s: string, sep: string, i: nat, q: bool, q': bool)
    requires i < |s| && q' == if s[i] == '"' then !q else q
    ensures Cut(s, sep, i, q, i) <==> !q' && SepAt(s, sep, i)
  {
  }

  lemma CutLater(s: string, sep: string, i: nat, q: bool, q': bool, p: nat)
    requires i < p < |s| && q' == if s[i] == '"' then !q else q
    ensures Cut(s, sep, i, q, p) <==> Cut(s, sep, i + 1, q', p)
  {
    assert Quotes(s, i + 1) == Quotes(s, i) + if s[i] == '"' then 1 else 0;
  }

  /** The first field ends at the first separator outside quotes, and the rest is split anew behind it. */
  ghost predicate CutFirst(s: string, sep: string, from: nat, i: nat, q: bool, fs: seq<string>)
    requires from <= i <= |s| && sep != "" && fs != []
  {
    var e := from + |fs[0]|;
    && i <= e <= |s| && fs[0] == s[from..e]
    && (forall p | i <= p < e :: !Cut(s, sep, i, q, p))
    && if |fs| == 1 then e == |s| else Cut(s, sep, i, q, e) && fs[1..] == Split(s, sep, e + |sep|, e + |sep|, false)
  }

  lemma CutFirstNext(s: string, sep: string, from: nat, i: nat, q: bool, q': bool, fs: seq<string>)
    requires from <= i < |s| && sep != "" && fs != [] && q' == if s[i] == '"' then !q else q
    requires CutFirst(s, sep, from, i + 1, q', fs) && (q' || !SepAt(s, sep, i))
    ensures CutFirst(s, sep, from, i, q, fs)
  {
    CutHere(s, sep, i, q, q');
    forall p | i < p < |s| ensures Cut(s, sep, i, q, p) <==> Cut(s, sep, i + 1, q', p) {
      CutLater(s, sep, i, q, q', p);
    }
  }

  lemma {:induction false} FirstCut(s: string, sep: string, from: nat, i: nat, q: bool)
    requires from <= i <= |s| && sep != ""
    ensures CutFirst(s, sep, from, i, q, Split(s, sep, from, i, q))
    decreases |s| - i
  {
    if i < |s| {
      var q' := if s[i] == '"' then !q else q;
      var fs := Split(s, sep, from, i, q);
      if q' || !SepAt(s, sep, i) {
        FirstCut(s, sep, from, i + 1, q');
        CutFirstNext(s, sep, from, i, q, q', fs);
      } else {
        CutHere(s, sep, i, q, q');
        var more := Split(s, sep, i + |sep|, i + |sep|, false);
        assert fs == [s[from..i]] + more;
        assert fs[1..] == more;
      }
    }
  }

  function Joined(fs: seq<string>, sep: string): string {
    if fs == [] then "" else if |fs| == 1 then fs[0] else fs[0] + (sep + Joined(fs[1..], sep))
  }

  /** Whatever a record holds, its fields joined by the separator are the record. */
  lemma {:induction false} FieldsJoin(s: string, sep: string, from: nat)
    requires from <= |s| && sep != ""
    ensures Joined(Split(s, sep, from, from, false), sep) == s[from..]
    decreases |s| - from
  {
    FirstCut(s, sep, from, from, false);
    var fs := Split(s, sep, from, from, false);
    if |fs| > 1 {
      var e := from + |fs[0]|;
      FieldsJoin(s, sep, e + |sep|);
      assert s[from..] == s[from..e] + (s[e..e + |sep|] + s[e + |sep|..]);
    }
  }

  /** The dequoter, after the opening quote: a quote gives way to the character after it, and at the end to nothing. */
  function DequoteFrom(f: string, j: nat): string
    requires j <= |f|
    decreases |f| - j
  {
    if j == |f| then ""
    else if f[j] != '"' then [f[j]] + DequoteFrom(f, j + 1)
    else if j + 1 == |f| then ""
    else [f[j + 1]] + DequoteFrom(f, j + 2)
  }

  /** Only a field that starts with a quote is dequoted. */
  function Dequote(f: string): string {
    if f != "" && f[0] == '"' then DequoteFrom(f, 1) else f
  }

  lemma {:induction false} DequotePlain(a: string, f: string, j: nat)
    requires j + |a| <= |f| && f[j..j + |a|] == a && '"' !in a
    ensures DequoteFrom(f, j) == a + DequoteFrom(f, j + |a|)
    decreases |a|
  {
    if a != "" {
      assert f[j] == f[j..j + |a|][0];
      assert f[j + 1..j + 1 + |a[1..]|] == a[1..];
      DequotePlain(a[1..], f, j + 1);
    }
  }

  /** A field that starts without a quote is its own value; in a quoted one a lone quote vanishes and the character after it stays. */
  lemma DequoteAny(a: string, c: char, b: string, f: string)
    requires '"' !in a && f == ['"'] + a + ['"'] + [c] + b
    ensures Dequote(f) == a + ([c] + DequoteFrom(f, |a| + 3))
    ensures a != "" ==> Dequote(a + b) == a + b
  {
    assert f[1..1 + |a|] == a && f[|a| + 1] == '"' && f[|a| + 2] == c;
    DequotePlain(a, f, 1);
  }

  /** The values of a record. */
  function Record(s: string, sep: string): (r: seq<string>)
    requires sep != ""
    ensures |r| == |Fields(s, sep)|
  {
    Map(Dequote, Fields(s, sep))
  }

  /** The values of all records of a file. */
  function Records(s: string, sep: string): (rs: seq<seq<string>>)
    requires sep != ""
    decreases |s|
  {
    if s == "" then [] else [Record(LineText(s, true), sep)] + Records(AfterLine(s, true), sep)
  }
}
