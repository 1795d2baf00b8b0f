/**
 The column layout of .tables: names in columns of equal width, filled from top
 to bottom, as many columns as fit in 80 characters.
 */
module TablesLayout {
  import opened Text
  import opened Arithmetic

  /** Entry `j` of the result table, numbered from 1; a NULL entry prints as nothing. */
  function NameAt(names: seq<Option<string>>, j: nat): string
    requires 1 <= j <= |names|
  {
    if names[j - 1].None? then "" else names[j - 1].value
  }

  /** printf("%-*s"): blanks on the right up to the width. */
  function Pad(s: string, width: nat): (r: string)
    ensures |r| == if |s| < width then width else |s|
  {
    s + seq(if |s| < width then width - |s| else 0, _ => ' ')
  }

  lemma PadIs(s: string, width: nat)
    ensures var r := Pad(s, width); r[..|s|] == s && forall k | |s| <= k < |r| :: r[k] == ' '
  {
  }

  function ColumnCount(maxlen: nat): (c: nat)
    ensures c >= 1
  {
    if 80 / (maxlen + 2) < 1 then 1 else 80 / (maxlen + 2)
  }

  function RowCount(n: nat, cols: nat): nat
    requires cols >= 1
  {
    (n + cols - 1) / cols
  }

  predicate NoLonger(names: seq<Option<string>>, maxlen: nat) {
    forall j | 1 <= j <= |names| :: |NameAt(names, j)| <= maxlen
  }

  /** The longest name is `maxlen` long, or there is none. */
  predicate IsMaxLen(names: seq<Option<string>>, maxlen: nat) {
    && NoLonger(names, maxlen)
    && (maxlen == 0 || exists j | 1 <= j <= |names| :: |NameAt(names, j)| == maxlen)
  }

  /** What a line prints from entry `j` on, every `rows`-th entry, separated by two blanks. */
  function LineFrom(names: seq<Option<string>>, maxlen: nat, rows: nat, j: nat): string
    requires rows >= 1 && j >= 1
    decreases |names| + 1 - j
  {
    if j > |names| then ""
    else Cell(names, maxlen, rows, j) + LineFrom(names, maxlen, rows, j + rows)
  }

  function Cell(names: seq<Option<string>>, maxlen: nat, rows: nat, j: nat): string
    requires 1 <= j <= |names|
  {
    (if j <= rows then "" else "  ") + Pad(NameAt(names, j), maxlen)
  }

  /** The number of entries on a line, from entry `j` on. */
  function CountFrom(n: nat, rows: nat, j: nat): nat
    requires rows >= 1 && j >= 1
    decreases n + 1 - j
  {
    if j > n then 0 else 1 + CountFrom(n, rows, j + rows)
  }

  // ---------- arithmetic ----------

  /** k * w by repeated addition. */
  function Times(k: nat, w: nat): nat {
    if k == 0 then 0 else Times(k - 1, w) + w
  }

  lemma {:induction false} TimesIsMul(k: nat, w: nat)
    ensures Times(k, w) == k * w
  {
    if k > 0 {
      TimesIsMul(k - 1, w);
    }
  }

  /** All entries fit in the rows and columns. */
  lemma RowsSuffice(n: nat, cols: nat)
    requires cols >= 1
    ensures n <= cols * RowCount(n, cols)
    ensures RowCount(n, cols) == 0 <==> n == 0
  {
    var r := RowCount(n, cols);
    assert n + cols - 1 == cols * r + (n + cols - 1) % cols;
    if n == 0 {
      assert cols * r <= cols - 1 < 1 * cols;
      MulLess(r, 1, cols);
    }
  }

  /** There are as many columns as fit into 80 characters, but one at least. */
  lemma MostColumns(maxlen: nat)
    ensures var cols := ColumnCount(maxlen);
            (cols == 1 || cols * (maxlen + 2) <= 80) && (cols + 1) * (maxlen + 2) > 80
  {
    var w := maxlen + 2;
    assert 80 == w * (80 / w) + 80 % w;
    assert (80 / w + 1) * w == 80 / w * w + w;
  }

  /** And no more rows than these columns need. */
  lemma FewestRows(n: nat, cols: nat)
    requires cols >= 1
    ensures var rows := RowCount(n, cols); n <= cols * rows && (rows > 0 ==> cols * (rows - 1) < n)
  {
    RowsSuffice(n, cols);
    var rows := RowCount(n, cols);
    assert n + cols - 1 == cols * rows + (n + cols - 1) % cols;
    if rows > 0 {
      assert cols * (rows - 1) == cols * rows - cols;
    }
  }

  // ---------- every entry once ----------

  /** Entry `j` stands on line `i`, in column `c`, counting both from 0. */
  predicate Stands(j: nat, rows: nat, i: nat, c: nat) {
    i < rows && j == i + 1 + c * rows
  }

  /** Every entry has exactly one place, within the columns, in column-major order. */
  lemma PlacedOnce(n: nat, cols: nat, j: nat)
    requires cols >= 1 && 1 <= j <= n
    ensures var rows := RowCount(n, cols);
            && rows >= 1
            && Stands(j, rows, (j - 1) % rows, (j - 1) / rows) && (j - 1) / rows < cols
            && forall i: nat, c: nat | Stands(j, rows, i, c) :: i == (j - 1) % rows && c == (j - 1) / rows
  {
    RowsSuffice(n, cols);
    var rows := RowCount(n, cols);
    assert j - 1 == (j - 1) / rows * rows + (j - 1) % rows;
    MulLess((j - 1) / rows, cols, rows);
    forall i: nat, c: nat | Stands(j, rows, i, c)
      ensures i == (j - 1) % rows && c == (j - 1) / rows
    {
      DivUnique(j - 1, rows, c, i);
    }
  }

  // ---------- the width of a line ----------

  lemma {:induction false} CountBound(n: nat, rows: nat, j: nat)
    requires rows >= 1 && j >= 1
    ensures CountFrom(n, rows, j) > 0 ==> (CountFrom(n, rows, j) - 1) * rows + j <= n
    decreases n + 1 - j
  {
    if j <= n {
      CountBound(n, rows, j + rows);
      var m := CountFrom(n, rows, j + rows);
      assert m > 0 ==> m * rows == (m - 1) * rows + rows;
    }
  }

  /** No line is empty, and none has more entries than there are columns. */
  lemma CountAtMostColumns(n: nat, cols: nat, i: nat)
    requires cols >= 1 && i < RowCount(n, cols)
    ensures i < n && 1 <= CountFrom(n, RowCount(n, cols), i + 1) <= cols
  {
    var rows := RowCount(n, cols);
    RowsSuffice(n, cols);
    RowsAtMost(n, cols);
    CountBound(n, rows, i + 1);
    MulLess(CountFrom(n, rows, i + 1) - 1, cols, rows);
  }

  lemma RowsAtMost(n: nat, cols: nat)
    requires cols >= 1
    ensures RowCount(n, cols) <= n
  {
    var r := RowCount(n, cols);
    assert n + cols - 1 == cols * r + (n + cols - 1) % cols;
    MulMono(1, cols, n);
    assert r * cols < (n + 1) * cols by {
      assert (n + 1) * cols == n * cols + cols;
    }
    MulLess(r, n + 1, cols);
  }

  lemma CellLength(names: seq<Option<string>>, maxlen: nat, rows: nat, j: nat)
    requires NoLonger(names, maxlen) && 1 <= j <= |names|
    ensures |Cell(names, maxlen, rows, j)| == maxlen + if j <= rows then 0 else 2
  {
    assert |NameAt(names, j)| <= maxlen;
  }

  /** One entry more makes a line one column longer. */
  lemma OneMore(names: seq<Option<string>>, maxlen: nat, rows: nat, j: nat)
    requires rows >= 1 && 1 <= j <= |names| && NoLonger(names, maxlen)
    ensures |LineFrom(names, maxlen, rows, j)|
            == maxlen + (if j <= rows then 0 else 2) + |LineFrom(names, maxlen, rows, j + rows)|
    ensures Times(CountFrom(|names|, rows, j), maxlen + 2)
            == Times(CountFrom(|names|, rows, j + rows), maxlen + 2) + (maxlen + 2)
  {
    CellLength(names, maxlen, rows, j);
    assert CountFrom(|names|, rows, j) == 1 + CountFrom(|names|, rows, j + rows);
  }

  lemma {:induction false} RestLength(names: seq<Option<string>>, maxlen: nat, rows: nat, j: nat)
    requires 1 <= rows < j && NoLonger(names, maxlen)
    ensures |LineFrom(names, maxlen, rows, j)| == Times(CountFrom(|names|, rows, j), maxlen + 2)
    decreases |names| + 1 - j
  {
    if j <= |names| {
      RestLength(names, maxlen, rows, j + rows);
      OneMore(names, maxlen, rows, j);
    }
  }

  lemma LineLength(names: seq<Option<string>>, maxlen: nat, rows: nat, j: nat)
    requires 1 <= j <= rows && j <= |names| && NoLonger(names, maxlen)
    ensures |LineFrom(names, maxlen, rows, j)| + 2 == Times(CountFrom(|names|, rows, j), maxlen + 2)
  {
    RestLength(names, maxlen, rows, j + rows);
    OneMore(names, maxlen, rows, j);
  }

  lemma ColumnsFit(maxlen: nat, m: nat, len: nat)
    requires 1 <= m <= ColumnCount(maxlen) && len == m * (maxlen + 2) - 2
    ensures len <= 78 <==> maxlen <= 78
  {
    var w, cols := maxlen + 2, ColumnCount(maxlen);
    MulMono(1, m, w);
    if maxlen <= 78 {
      assert 80 == w * (80 / w) + 80 % w;
      MulMono(m, cols, w);
    }
  }

  /** Every line stays within 78 characters exactly when the longest name does. */
  lemma LinesFit(names: seq<Option<string>>, maxlen: nat, rows: nat, i: nat)
    requires IsMaxLen(names, maxlen) && rows == RowCount(|names|, ColumnCount(maxlen)) && i < rows
    ensures |LineFrom(names, maxlen, rows, i + 1)| <= 78 <==> maxlen <= 78
  {
    CountAtMostColumns(|names|, ColumnCount(maxlen), i);
    LineLength(names, maxlen, rows, i + 1);
    TimesIsMul(CountFrom(|names|, rows, i + 1), maxlen + 2);
    ColumnsFit(maxlen, CountFrom(|names|, rows, i + 1), |LineFrom(names, maxlen, rows, i + 1)|);
  }

  // ---------- where an entry is printed ----------

  /** `t` stands in `line` at position `at`. */
  predicate TextStands(line: string, at: nat, t: string) {
    at + |t| <= |line| && line[at..at + |t|] == t
  }

  lemma StandsAfter(a: string, b: string, at: nat, t: string)
    requires TextStands(b, at, t)
    ensures TextStands(a + b, |a| + at, t)
  {
  }

  lemma StandsFirst(sp: string, t: string, more: string)
    ensures TextStands(sp + t + more, |sp|, t)
  {
  }

  lemma EntryHere(names: seq<Option<string>>, maxlen: nat, rows: nat, j: nat)
    requires rows >= 1 && 1 <= j <= |names|
    ensures TextStands(LineFrom(names, maxlen, rows, j), if j <= rows then 0 else 2, Pad(NameAt(names, j), maxlen))
  {
    StandsFirst(if j <= rows then "" else "  ", Pad(NameAt(names, j), maxlen), LineFrom(names, maxlen, rows, j + rows));
  }

  lemma EntryLater(names: seq<Option<string>>, maxlen: nat, rows: nat, j: nat, at: nat, from: nat, t: string)
    requires rows >= 1 && 1 <= j <= |names| && TextStands(LineFrom(names, maxlen, rows, j + rows), at, t)
    requires from == |Cell(names, maxlen, rows, j)| + at
    ensures TextStands(LineFrom(names, maxlen, rows, j), from, t)
  {
    StandsAfter(Cell(names, maxlen, rows, j), LineFrom(names, maxlen, rows, j + rows), at, t);
  }

  /** Where the name `k` places further starts, counted from entry `j` of the line. */
  function Offset(names: seq<Option<string>>, maxlen: nat, rows: nat, j: nat, k: nat): nat
    requires j >= 1 && j + Times(k, rows) <= |names|
    decreases k
  {
    if k == 0 then if j <= rows then 0 else 2
    else |Cell(names, maxlen, rows, j)| + Offset(names, maxlen, rows, j + rows, k - 1)
  }

  lemma {:induction false} OffsetIs(names: seq<Option<string>>, maxlen: nat, rows: nat, j: nat, k: nat)
    requires rows >= 1 && j >= 1 && NoLonger(names, maxlen) && j + Times(k, rows) <= |names|
    ensures Offset(names, maxlen, rows, j, k) == Times(k, maxlen + 2) + if j <= rows then 0 else 2
    decreases k
  {
    if k > 0 {
      CellLength(names, maxlen, rows, j);
      OffsetIs(names, maxlen, rows, j + rows, k - 1);
    }
  }

  lemma {:induction false} EntryFrom(names: seq<Option<string>>, maxlen: nat, rows: nat, j: nat, k: nat, e: nat)
    requires rows >= 1 && j >= 1 && j + Times(k, rows) == e <= |names|
    ensures TextStands(LineFrom(names, maxlen, rows, j), Offset(names, maxlen, rows, j, k), Pad(NameAt(names, e), maxlen))
    decreases k
  {
    if k == 0 {
      EntryHere(names, maxlen, rows, j);
    } else {
      EntryFrom(names, maxlen, rows, j + rows, k - 1, e);
      EntryLater(names, maxlen, rows, j, Offset(names, maxlen, rows, j + rows, k - 1),
        Offset(names, maxlen, rows, j, k), Pad(NameAt(names, e), maxlen));
    }
  }

  /** Every name is printed, padded, at the place that column-major order gives it. */
  lemma EveryNamePrinted(names: seq<Option<string>>, maxlen: nat, rows: nat, j: nat, i: nat, c: nat)
    requires IsMaxLen(names, maxlen) && j <= |names| && Stands(j, rows, i, c)
    ensures TextStands(LineFrom(names, maxlen, rows, i + 1), c * (maxlen + 2), Pad(NameAt(names, j), maxlen))
  {
    var at := c * (maxlen + 2);
    TimesIsMul(c, rows);
    TimesIsMul(c, maxlen + 2);
    OffsetIs(names, maxlen, rows, i + 1, c);
    EntryAt(names, maxlen, rows, i + 1, c, j, at);
  }

  /** So the name itself stands there, with blanks behind it up to the width and, but for the first column, two before it. */
  lemma NamesStandApart(names: seq<Option<string>>, maxlen: nat, rows: nat, j: nat, i: nat, c: nat, at: nat)
    requires IsMaxLen(names, maxlen) && j <= |names| && Stands(j, rows, i, c) && at == c * (maxlen + 2)
    ensures var line, name := LineFrom(names, maxlen, rows, i + 1), if names[j - 1].Some? then names[j - 1].value else "";
            && at + maxlen <= |line| && |name| <= maxlen && line[at..at + |name|] == name
            && (forall k | at + |name| <= k < at + maxlen :: line[k] == ' ')
            && (c > 0 ==> 2 <= at && line[at - 2] == ' ' && line[at - 1] == ' ')
  {
    var line, name := LineFrom(names, maxlen, rows, i + 1), NameAt(names, j);
    EveryNamePrinted(names, maxlen, rows, j, i, c);
    assert |name| <= maxlen;
    PadStands(line, at, name, maxlen);
    if c > 0 {
      BlanksBefore(names, maxlen, rows, j, i, c, at);
      GapStands(line, at);
    }
  }

  lemma PadStands(line: string, at: nat, name: string, width: nat)
    requires |name| <= width && TextStands(line, at, Pad(name, width))
    ensures at + width <= |line| && line[at..at + |name|] == name
    ensures forall k | at + |name| <= k < at + width :: line[k] == ' '
  {
    var text := Pad(name, width);
    PadIs(name, width);
    assert line[at..at + |name|] == line[at..at + width][..|name|];
    forall k | at + |name| <= k < at + width ensures line[k] == ' ' {
      assert line[at..at + width][k - at] == line[k];
    }
  }

  lemma GapStands(line: string, at: nat)
    requires 2 <= at && TextStands(line, at - 2, "  ")
    ensures line[at - 2] == ' ' && line[at - 1] == ' '
  {
    assert line[at - 2..at][0] == line[at - 2] && line[at - 2..at][1] == line[at - 1];
  }

  lemma BlanksBefore(names: seq<Option<string>>, maxlen: nat, rows: nat, j: nat, i: nat, c: nat, at: nat)
    requires IsMaxLen(names, maxlen) && j <= |names| && Stands(j, rows, i, c) && c > 0 && at == c * (maxlen + 2)
    ensures 2 <= at && TextStands(LineFrom(names, maxlen, rows, i + 1), at - 2, "  ")
  {
    TimesIsMul(c, rows);
    TimesIsMul(c, maxlen + 2);
    MulMono(1, c, maxlen + 2);
    MulMono(1, c, rows);
    GapAt(names, maxlen, rows, i + 1, c, j, at);
  }

  lemma GapAt(names: seq<Option<string>>, maxlen: nat, rows: nat, first: nat, k: nat, j: nat, at: nat)
    requires rows >= 1 && 1 <= first <= rows && NoLonger(names, maxlen) && j == first + Times(k, rows) <= |names| && j > rows
    requires at == Times(k, maxlen + 2) && at >= 2
    ensures TextStands(LineFrom(names, maxlen, rows, first), at - 2, "  ")
  {
    GapFrom(names, maxlen, rows, first, k, j);
  }

  lemma {:induction false} GapFrom(names: seq<Option<string>>, maxlen: nat, rows: nat, j: nat, k: nat, e: nat)
    requires rows >= 1 && j >= 1 && NoLonger(names, maxlen) && j + Times(k, rows) == e <= |names| && e > rows
    ensures TextStands(LineFrom(names, maxlen, rows, j), Times(k, maxlen + 2) - if j <= rows then 2 else 0, "  ")
    decreases k
  {
    if k == 0 {
      StandsFirst("", "  ", Pad(NameAt(names, j), maxlen) + LineFrom(names, maxlen, rows, j + rows));
      Reassociate("  ", Pad(NameAt(names, j), maxlen), LineFrom(names, maxlen, rows, j + rows));
    } else {
      GapFrom(names, maxlen, rows, j + rows, k - 1, e);
      CellLength(names, maxlen, rows, j);
      EntryLater(names, maxlen, rows, j, Times(k - 1, maxlen + 2), Times(k, maxlen + 2) - (if j <= rows then 2 else 0), "  ");
    }
  }

  lemma EntryAt(names: seq<Option<string>>, maxlen: nat, rows: nat, first: nat, k: nat, j: nat, at: nat)
    requires rows >= 1 && first >= 1 && j == first + Times(k, rows) <= |names|
    requires at == Offset(names, maxlen, rows, first, k)
    ensures TextStands(LineFrom(names, maxlen, rows, first), at, Pad(NameAt(names, j), maxlen))
  {
    EntryFrom(names, maxlen, rows, first, k, j);
  }

  // ---------- the method ----------

  method LongestName(names: seq<Option<string>>) returns (maxlen: nat)
    ensures IsMaxLen(names, maxlen)
  {
    maxlen := 0;
    var i := 1;
    while i <= |names|
      invariant 1 <= i <= |names| + 1
      invariant forall j | 1 <= j < i :: |NameAt(names, j)| <= maxlen
      invariant maxlen == 0 || exists j | 1 <= j < i :: |NameAt(names, j)| == maxlen
    {
      if names[i - 1].Some? {
        var len := |names[i - 1].value|;
        if len > maxlen {
          maxlen := len;
          assert |NameAt(names, i)| == maxlen;
        }
      }
      i := i + 1;
    }
  }

  /** .tables: the lines it prints. */
  method PrintTables(names: seq<Option<string>>) returns (lines: seq<string>, maxlen: nat)
    ensures IsMaxLen(names, maxlen)
    ensures |lines| == RowCount(|names|, ColumnCount(maxlen))
    ensures forall i | 0 <= i < |lines| :: lines[i] == LineFrom(names, maxlen, |lines|, i + 1)
  {
    maxlen := LongestName(names);
    var nPrintCol := 80 / (maxlen + 2);
    if nPrintCol < 1 {
      nPrintCol := 1;
    }
    var nPrintRow := (|names| + nPrintCol - 1) / nPrintCol;
    lines := PrintRows(names, maxlen, nPrintRow);
  }

  method PrintRows(names: seq<Option<string>>, maxlen: nat, nPrintRow: nat) returns (lines: seq<string>)
    ensures |lines| == nPrintRow
    ensures forall i | 0 <= i < nPrintRow :: lines[i] == LineFrom(names, maxlen, nPrintRow, i + 1)
  {
    lines := [];
    var i := 0;
    while i < nPrintRow
      invariant 0 <= i <= nPrintRow && |lines| == i
      invariant forall k | 0 <= k < i :: lines[k] == LineFrom(names, maxlen, nPrintRow, k + 1)
    {
      var line := PrintLine(names, maxlen, nPrintRow, i);
      lines := lines + [line];
      i := i + 1;
    }
  }

  method PrintLine(names: seq<Option<string>>, maxlen: nat, nPrintRow: nat, i: nat) returns (line: string)
    requires i < nPrintRow
    ensures line == LineFrom(names, maxlen, nPrintRow, i + 1)
  {
    line := "";
    var j := i + 1;
    while j <= |names|
      invariant j >= 1 && line + LineFrom(names, maxlen, nPrintRow, j) == LineFrom(names, maxlen, nPrintRow, i + 1)
      decreases |names| + 1 - j
    {
      var sp := if j <= nPrintRow then "" else "  ";
      Reassociate(line, Cell(names, maxlen, nPrintRow, j), LineFrom(names, maxlen, nPrintRow, j + nPrintRow));
      line := line + (sp + Pad(if names[j - 1].None? then "" else names[j - 1].value, maxlen));
      j := j + nPrintRow;
    }
  }
}
