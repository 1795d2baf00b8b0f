/**
 Writing csv and reading it back: line reader, splitter and dequoter together
 undo the writer, for exactly the rows whose unquoted fields do not meet the
 separator early.
 */
module CsvRoundTrip {
  import opened Text
  import opened Quoting
  import opened Readers
  import opened LineReader
  import opened Csv

  // ---------- counting quotes through concatenation ----------

  lemma {:induction false} QuotesConcat(a: string, b: string, n: nat)
    requires n <= |a| + |b|
    ensures Quotes(a + b, n) == if n <= |a| then Quotes(a, n) else Quotes(a, |a|) + Quotes(b, n - |a|)
  {
    if n > 0 {
      QuotesConcat(a, b, n - 1);
    }
  }

  /** Quotes inside a piece of a text. */
  lemma {:induction false} QuotesPiece(s: string, p: nat, w: string, n: nat)
    requires p + |w| <= |s| && s[p..p + |w|] == w && n <= |w|
    ensures Quotes(s, p + n) == Quotes(s, p) + Quotes(w, n)
  {
    if n > 0 {
      QuotesPiece(s, p, w, n - 1);
      assert s[p + n - 1] == s[p..p + |w|][n - 1];
    }
  }

  lemma {:induction false} NoQuotes(s: string, n: nat)
    requires n <= |s| && '"' !in s
    ensures Quotes(s, n) == 0
  {
    if n > 0 {
      NoQuotes(s, n - 1);
    }
  }

  // ---------- what a written field looks like ----------

  /** Every character other than a quote stands inside quotes, and the quotes balance. */
  ghost predicate Guarded(w: string) {
    && Quotes(w, |w|) % 2 == 0
    && forall k | 0 <= k < |w| && w[k] != '"' :: Quotes(w, k + 1) % 2 == 1
  }

  ghost predicate Balanced(d: string) {
    && Quotes(d, |d|) % 2 == 0
    && forall k | 0 <= k < |d| && d[k] != '"' :: Quotes(d, k + 1) % 2 == 0
  }

  lemma BalancedJoin(a: string, b: string)
    requires Balanced(b) && (a == ['"', '"'] || (|a| == 1 && a[0] != '"'))
    ensures Balanced(a + b)
  {
    var d := a + b;
    QuotesConcat(a, b, |d|);
    assert Quotes(a, 1) == if |a| == 2 then 1 else 0;
    forall k | 0 <= k < |d| && d[k] != '"' ensures Quotes(d, k + 1) % 2 == 0 {
      QuotesConcat(a, b, k + 1);
      if k >= |a| {
        assert d[k] == b[k - |a|];
      }
    }
  }

  /** Doubling leaves every other character where the quotes before it balance. */
  lemma {:induction false} DoubledBalances(f: string)
    ensures Balanced(Doubled(f, '"'))
  {
    if f != "" {
      DoubledBalances(f[1..]);
      BalancedJoin(if f[0] == '"' then ['"', '"'] else [f[0]], Doubled(f[1..], '"'));
    }
  }

  lemma QuotedIsGuarded(f: string)
    ensures Guarded(Quoted(f, '"'))
  {
    DoubledBalances(f);
    WrappedIsGuarded(Doubled(f, '"'));
  }

  lemma WrappedIsGuarded(d: string)
    requires Balanced(d)
    ensures Guarded(['"'] + d + ['"'])
  {
    var w := ['"'] + d + ['"'];
    assert w[1..1 + |d|] == d;
    QuotesPiece(w, 1, d, |d|);
    forall k | 0 <= k < |w| && w[k] != '"' ensures Quotes(w, k + 1) % 2 == 1 {
      assert w[k] == d[k - 1];
      QuotesPiece(w, 1, d, k);
      assert Quotes(d, k - 1 + 1) % 2 == 0;
    }
  }

  /** A field written without quotes holds no quote, no newline and no carriage return. */
  lemma RawField(f: string, sep: string)
    requires !NeedsQuote(f, sep)
    ensures f != "" && '"' !in f && '\n' !in f && '\r' !in f
  {
    forall i | 0 <= i < |f| ensures !NeedCsvQuote(f[i]) {
      assert !Triggers(f, sep, i);
    }
  }

  // ---------- one record of the file ----------

  /** Newlines only inside quotes, and the quotes balance. */
  ghost predicate OneRecord(s: string) {
    && Quotes(s, |s|) % 2 == 0
    && forall k | 0 <= k < |s| && s[k] == '\n' :: Quotes(s, k + 1) % 2 == 1
  }

  lemma OneRecordConcat(a: string, b: string)
    requires OneRecord(a) && OneRecord(b)
    ensures OneRecord(a + b)
  {
    forall n | 0 <= n <= |a| + |b|
      ensures Quotes(a + b, n) == if n <= |a| then Quotes(a, n) else Quotes(a, |a|) + Quotes(b, n - |a|)
    {
      QuotesConcat(a, b, n);
    }
  }

  lemma PlainIsOneRecord(s: string)
    requires '"' !in s && '\n' !in s
    ensures OneRecord(s)
  {
    NoQuotes(s, |s|);
  }

  lemma FieldIsOneRecord(f: string, sep: string)
    ensures OneRecord(FieldText(f, sep)) && FieldText(f, sep) != ""
    ensures var w := FieldText(f, sep); w[|w| - 1] != '\r'
  {
    if NeedsQuote(f, sep) {
      QuotedIsGuarded(f);
    } else {
      RawField(f, sep);
      PlainIsOneRecord(f);
    }
  }

  /** A separator that the reader can use: not empty, without quotes and newlines. */
  predicate UsableSep(sep: string) {
    sep != "" && '"' !in sep && '\n' !in sep
  }

  /** The record of a row, without the newline that ends it. */
  function RowText(row: seq<string>, sep: string): string
    requires row != []
  {
    if |row| == 1 then FieldText(row[0], sep) else FieldText(row[0], sep) + (sep + RowText(row[1..], sep))
  }

  lemma {:induction false} RowIsOneRecord(row: seq<string>, sep: string)
    requires row != [] && UsableSep(sep)
    ensures OneRecord(RowText(row, sep)) && RowText(row, sep) != ""
    ensures var w := RowText(row, sep); w[|w| - 1] != '\r'
  {
    FieldIsOneRecord(row[0], sep);
    if |row| > 1 {
      RowIsOneRecord(row[1..], sep);
      PlainIsOneRecord(sep);
      OneRecordConcat(sep, RowText(row[1..], sep));
      OneRecordConcat(FieldText(row[0], sep), sep + RowText(row[1..], sep));
    }
  }

  /** The line reader returns one record, however many newlines its fields hold. */
  lemma RecordIsLine(w: string, rest: string)
    requires OneRecord(w) && w != "" && w[|w| - 1] != '\r'
    ensures LineText(w + "\n" + rest, true) == w && AfterLine(w + "\n" + rest, true) == rest
  {
    var s := w + "\n" + rest;
    var e := |w| + 1;
    assert s[..|w|] == w && s[|w|] == '\n';
    forall n | 0 <= n <= |w| ensures Quotes(s, n) == Quotes(w, n) {
      QuotesPiece(s, 0, w, n);
    }
    assert EndsLine(s, true, e);
    forall m | 0 < m < e ensures !EndsLine(s, true, m) {
      assert s[m - 1] == w[m - 1];
    }
    LineEndIs(s, true, e);
    assert s[..e] == w + "\n" && s[e..] == rest;
  }

  // ---------- one field of a record ----------

  /** A separator outside quotes. */
  predicate Hit(s: string, sep: string, k: nat)
    requires k < |s|
  {
    Quotes(s, k + 1) % 2 == 0 && SepAt(s, sep, k)
  }

  /** Positions of a record that hold no separator outside quotes are passed over. */
  lemma {:induction false} SkipNoHits(s: string, sep: string, from: nat, i: nat, j: nat)
    requires from <= i <= j <= |s| && sep != ""
    requires forall k | i <= k < j :: !Hit(s, sep, k)
    ensures Split(s, sep, from, i, Quotes(s, i) % 2 == 1) == Split(s, sep, from, j, Quotes(s, j) % 2 == 1)
    decreases j - i
  {
    if i < j {
      assert !Hit(s, sep, i);
      SkipNoHits(s, sep, from, i + 1, j);
    }
  }

  /** The field meets the separator before its own end, given what is printed after it. */
  predicate MeetsSep(f: string, sep: string, after: string) {
    exists i | 0 <= i < |f| :: SepAt(f + after, sep, i)
  }

  /** A field that the splitter will not cut short: quoted, or free of early separators. */
  predicate Separable(f: string, sep: string, after: string) {
    NeedsQuote(f, sep) || !MeetsSep(f, sep, after)
  }

  /** Field `f` is written at position `p` of a record; `after` is the separator, or nothing for the last field. */
  ghost predicate WrittenAt(s: string, p: nat, f: string, sep: string, after: string) {
    var w := FieldText(f, sep);
    && UsableSep(sep) && (after == "" || after == sep)
    && p + |w| + |after| <= |s|
    && s[p..p + |w|] == w
    && s[p + |w|..p + |w| + |after|] == after
    && (after == "" ==> p + |w| == |s|)
    && Quotes(s, p) % 2 == 0
  }

  lemma {:induction false} SepAtPiece(s: string, p: nat, w: string, sep: string, after: string, k: nat)
    requires p + |w| + |after| <= |s| && (after == "" || after == sep) && (after == "" ==> p + |w| == |s|)
    requires s[p..p + |w|] == w && s[p + |w|..p + |w| + |after|] == after
    requires k < |w|
    ensures SepAt(s, sep, p + k) == SepAt(w + after, sep, k)
  {
    var e := p + |w| + |after|;
    assert s[p..e] == w + after;
    if k + |sep| <= |w| + |after| {
      SubPiece(s, p, e, k, |sep|);
    }
  }

  /** No separator of a record inside a quoted field is outside quotes. */
  lemma QuotedHidesSep(s: string, p: nat, w: string, sep: string, k: nat)
    requires UsableSep(sep) && Guarded(w) && p + |w| <= |s| && s[p..p + |w|] == w && Quotes(s, p) % 2 == 0
    requires p <= k < p + |w|
    ensures !Hit(s, sep, k)
  {
    assert s[k] == s[p..p + |w|][k - p];
    QuotesPiece(s, p, w, k - p + 1);
    if SepAt(s, sep, k) {
      assert s[k..k + |sep|][0] == sep[0];
    }
  }

  lemma FieldHasNoHit(s: string, p: nat, f: string, sep: string, after: string, k: nat)
    requires WrittenAt(s, p, f, sep, after) && Separable(f, sep, after)
    requires p <= k < p + |FieldText(f, sep)|
    ensures !Hit(s, sep, k)
  {
    if NeedsQuote(f, sep) {
      QuotedIsGuarded(f);
      QuotedHidesSep(s, p, Quoted(f, '"'), sep, k);
    } else {
      SepAtPiece(s, p, f, sep, after, k - p);
    }
  }

  lemma FieldBalances(s: string, p: nat, f: string, sep: string, e: nat)
    requires e == p + |FieldText(f, sep)| <= |s| && s[p..e] == FieldText(f, sep)
    ensures Quotes(s, e) % 2 == Quotes(s, p) % 2
  {
    FieldIsOneRecord(f, sep);
    QuotesPiece(s, p, FieldText(f, sep), |FieldText(f, sep)|);
  }

  /** A separable field is passed over whole, with the quotes balanced behind it. */
  lemma FieldPassed(s: string, p: nat, f: string, sep: string, after: string, e: nat)
    requires WrittenAt(s, p, f, sep, after) && Separable(f, sep, after) && e == p + |FieldText(f, sep)|
    ensures Quotes(s, e) % 2 == 0
    ensures Split(s, sep, p, p, false) == Split(s, sep, p, e, false)
  {
    FieldBalances(s, p, f, sep, e);
    forall k | p <= k < e ensures !Hit(s, sep, k) {
      FieldHasNoHit(s, p, f, sep, after, k);
    }
    SkipNoHits(s, sep, p, p, e);
  }

  /** A separable field comes out whole, as it was written. */
  lemma LastSplits(s: string, p: nat, f: string, sep: string)
    requires WrittenAt(s, p, f, sep, "") && Separable(f, sep, "")
    ensures Split(s, sep, p, p, false) == [FieldText(f, sep)]
  {
    FieldPassed(s, p, f, sep, "", |s|);
    assert s[p..] == FieldText(f, sep);
  }

  lemma FirstSplits(s: string, p: nat, f: string, sep: string, e: nat)
    requires WrittenAt(s, p, f, sep, sep) && Separable(f, sep, sep) && e == p + |FieldText(f, sep)| + |sep|
    ensures Split(s, sep, p, p, false) == [FieldText(f, sep)] + Split(s, sep, e, e, false)
  {
    var m := p + |FieldText(f, sep)|;
    FieldPassed(s, p, f, sep, sep, m);
    SplitHere(s, p, sep, m, e);
  }

  lemma SplitHere(s: string, from: nat, sep: string, i: nat, e: nat)
    requires from <= i < e == i + |sep| <= |s| && s[i..e] == sep && sep[0] != '"'
    ensures Split(s, sep, from, i, false) == [s[from..i]] + Split(s, sep, e, e, false)
  {
    assert s[i] == s[i..e][0];
  }

  /** With a separator outside quotes ahead, the first field ends there or earlier. */
  lemma {:induction false} SplitStops(s: string, sep: string, from: nat, i: nat, k: nat)
    requires from <= i <= k < |s| && sep != "" && Hit(s, sep, k)
    ensures var f := Split(s, sep, from, i, Quotes(s, i) % 2 == 1)[0]; f <= s[from..k]
    decreases k - i
  {
    if i < k && !Hit(s, sep, i) {
      SplitStops(s, sep, from, i + 1, k);
    } else {
      assert Hit(s, sep, i) && s[from..i] <= s[from..k];
    }
  }

  /** A field that is not separable comes out cut short. */
  lemma FieldCut(s: string, p: nat, f: string, sep: string, after: string)
    requires WrittenAt(s, p, f, sep, after) && !Separable(f, sep, after)
    ensures Dequote(Split(s, sep, p, p, false)[0]) != f
  {
    var k :| 0 <= k < |f| && SepAt(f + after, sep, k);
    SepAtPiece(s, p, f, sep, after, k);
    RawField(f, sep);
    NoQuotes(f, k + 1);
    QuotesPiece(s, p, f, k + 1);
    SplitStops(s, sep, p, p, p + k);
    var g := Split(s, sep, p, p, false)[0];
    assert g <= s[p..p + k] <= s[p..p + |f|] == f;
    assert g != "" ==> g[0] == f[0];
  }

  // ---------- dequoting ----------

  lemma {:induction false} DequoteDoubled(s: string, j: nat, g: string)
    requires j <= |s| && s[j..] == Doubled(g, '"') + ['"']
    ensures DequoteFrom(s, j) == g
    decreases g
  {
    if g == "" {
      assert s[j] == s[j..][0];
    } else {
      var a := if g[0] == '"' then ['"', '"'] else [g[0]];
      var b := Doubled(g[1..], '"') + ['"'];
      assert s[j..] == a + b;
      TailAfter(s, j, a, b);
      DequoteDoubled(s, j + |a|, g[1..]);
      DequotePair(s, j, a);
      assert g == [g[0]] + g[1..];
    }
  }

  /** One written character: a pair of quotes, or anything else. */
  lemma DequotePair(s: string, j: nat, a: string)
    requires j + |a| < |s| && s[j..j + |a|] == a
    requires a == ['"', '"'] || (|a| == 1 && a[0] != '"')
    ensures DequoteFrom(s, j) == [a[0]] + DequoteFrom(s, j + |a|)
  {
    assert s[j] == s[j..j + |a|][0];
    assert |a| == 2 ==> s[j + 1] == s[j..j + |a|][1];
  }

  lemma DequoteField(f: string, sep: string)
    ensures Dequote(FieldText(f, sep)) == f
  {
    if NeedsQuote(f, sep) {
      var w := Quoted(f, '"');
      assert w[1..] == Doubled(f, '"') + ['"'];
      DequoteDoubled(w, 1, f);
    } else {
      RawField(f, sep);
    }
  }

  // ---------- rows and files ----------

  predicate SeparableRow(row: seq<string>, sep: string) {
    row == [] || (Separable(row[0], sep, if |row| == 1 then "" else sep) && SeparableRow(row[1..], sep))
  }

  /** The fields that the splitter and the dequoter find from position `p` on. */
  function FieldsFrom(s: string, sep: string, p: nat): seq<string>
    requires sep != "" && p <= |s|
  {
    Map(Dequote, Split(s, sep, p, p, false))
  }

  /** Either a field and what comes after it are read, or the first field read is another one. */
  ghost predicate FieldRead(fs: seq<string>, f: string, more: seq<string>, ok: bool) {
    if ok then fs == [f] + more else fs != [] && fs[0] != f
  }

  lemma LastField(s: string, p: nat, f: string, sep: string)
    requires WrittenAt(s, p, f, sep, "")
    ensures FieldRead(FieldsFrom(s, sep, p), f, [], Separable(f, sep, ""))
  {
    if Separable(f, sep, "") {
      LastSplits(s, p, f, sep);
      DequoteField(f, sep);
    } else {
      FieldCut(s, p, f, sep, "");
    }
  }

  lemma FirstField(s: string, p: nat, f: string, sep: string, e: nat)
    requires WrittenAt(s, p, f, sep, sep) && e == p + |FieldText(f, sep)| + |sep|
    ensures FieldRead(FieldsFrom(s, sep, p), f, FieldsFrom(s, sep, e), Separable(f, sep, sep))
  {
    if Separable(f, sep, sep) {
      FirstSplits(s, p, f, sep, e);
      DequoteField(f, sep);
      MapCons(Dequote, FieldText(f, sep), Split(s, sep, e, e, false));
    } else {
      FieldCut(s, p, f, sep, sep);
    }
  }

  /** A field and its separator leave the quotes balanced. */
  lemma FieldKeepsBalance(pre: string, f: string, sep: string)
    requires UsableSep(sep) && Quotes(pre, |pre|) % 2 == 0
    ensures var a := pre + (FieldText(f, sep) + sep); Quotes(a, |a|) % 2 == 0
  {
    var w := FieldText(f, sep);
    FieldIsOneRecord(f, sep);
    NoQuotes(sep, |sep|);
    QuotesConcat(w, sep, |w| + |sep|);
    QuotesConcat(pre, w + sep, |pre| + |w| + |sep|);
  }

  lemma FieldIsWritten(s: string, pre: string, f: string, sep: string, after: string, more: string)
    requires UsableSep(sep) && (after == sep || (after == "" && more == "")) && Quotes(pre, |pre|) % 2 == 0
    requires s == pre + (FieldText(f, sep) + after) + more
    ensures WrittenAt(s, |pre|, f, sep, after)
  {
    PieceIn(s, pre, FieldText(f, sep), after, more);
  }

  lemma PieceIn(s: string, pre: string, w: string, after: string, more: string)
    requires s == pre + (w + after) + more
    ensures |s| == |pre| + |w| + |after| + |more|
    ensures s[|pre|..|pre| + |w|] == w && s[|pre| + |w|..|pre| + |w| + |after|] == after
    ensures Quotes(s, |pre|) == Quotes(pre, |pre|)
  {
    Reassociate(pre, w + after, more);
    QuotesConcat(pre, w + after + more, |pre|);
  }

  /** The row written after `pre` in a record is read back exactly when it is separable. */
  lemma {:induction false} RowReads(s: string, pre: string, row: seq<string>, sep: string)
    requires UsableSep(sep) && row != [] && s == pre + RowText(row, sep) && Quotes(pre, |pre|) % 2 == 0
    ensures FieldsFrom(s, sep, |pre|) == row <==> SeparableRow(row, sep)
    decreases |row|
  {
    var f := row[0];
    if |row| == 1 {
      assert s == pre + (FieldText(f, sep) + "") + "";
      FieldIsWritten(s, pre, f, sep, "", "");
      LastField(s, |pre|, f, sep);
      JoinReads(FieldsFrom(s, sep, |pre|), [], row, sep);
    } else {
      var more := RowText(row[1..], sep);
      var pre' := pre + (FieldText(f, sep) + sep);
      Reassociate(FieldText(f, sep), sep, more);
      Reassociate(pre, FieldText(f, sep) + sep, more);
      FieldKeepsBalance(pre, f, sep);
      RowReads(s, pre', row[1..], sep);
      FieldIsWritten(s, pre, f, sep, sep, more);
      FirstField(s, |pre|, f, sep, |pre'|);
      JoinReads(FieldsFrom(s, sep, |pre|), FieldsFrom(s, sep, |pre'|), row, sep);
    }
  }

  lemma JoinReads(fs: seq<string>, more: seq<string>, row: seq<string>, sep: string)
    requires row != [] && FieldRead(fs, row[0], more, Separable(row[0], sep, if |row| == 1 then "" else sep))
    requires more == row[1..] <==> SeparableRow(row[1..], sep)
    ensures fs == row <==> SeparableRow(row, sep)
  {
    SameCons(row[0], more, row);
  }

  lemma SameCons<T>(x: T, ys: seq<T>, row: seq<T>)
    requires row != []
    ensures [x] + ys == row <==> x == row[0] && ys == row[1..]
  {
    assert row == [row[0]] + row[1..];
    assert ([x] + ys)[0] == x && ([x] + ys)[1..] == ys;
  }

  function NonNull(row: seq<string>): (r: seq<Option<string>>)
    ensures |r| == |row| && forall i | 0 <= i < |row| :: r[i] == Some(row[i])
  {
    Map(f => Some(f), row)
  }

  /** What the MODE_Csv callback prints for a row without NULLs. */
  lemma {:induction false} CellsAreRowText(row: seq<string>, i: nat, sep: string, nullvalue: string)
    requires i < |row|
    ensures CellsFrom(NonNull(row), i, sep, nullvalue) == RowText(row[i..], sep) + "\n"
    decreases |row| - i
  {
    if i + 1 < |row| {
      CellsAreRowText(row, i + 1, sep, nullvalue);
      assert row[i..][1..] == row[i + 1..];
    }
  }

  /** A file of rows. */
  function FileText(rows: seq<seq<string>>, sep: string): string
    requires forall i | 0 <= i < |rows| :: rows[i] != []
  {
    if rows == [] then "" else RowText(rows[0], sep) + "\n" + FileText(rows[1..], sep)
  }

  /** What a query without NULLs prints is the file of its rows. */
  lemma {:induction false} FileCellsAreText(rows: seq<seq<string>>, sep: string, nullvalue: string)
    requires forall i | 0 <= i < |rows| :: rows[i] != []
    ensures FileCells(Map(NonNull, rows), sep, nullvalue) == FileText(rows, sep)
  {
    if rows != [] {
      FileCellsAreText(rows[1..], sep, nullvalue);
      CellsAreRowText(rows[0], 0, sep, nullvalue);
      assert rows[0][0..] == rows[0];
      assert Map(NonNull, rows) == [NonNull(rows[0])] + Map(NonNull, rows[1..]);
    }
  }

  /** The row as it is read back: nullvalue in place of NULL. */
  function NullsFilled(row: seq<Option<string>>, nullvalue: string): (r: seq<string>)
    ensures |r| == |row|
    ensures forall i | 0 <= i < |row| :: if row[i].Some? then r[i] == row[i].value else r[i] == nullvalue
  {
    seq(|row|, i requires 0 <= i < |row| => if row[i].None? then nullvalue else row[i].value)
  }

  ghost predicate AllFilled(rows: seq<seq<Option<string>>>, nullvalue: string, filled: seq<seq<string>>) {
    |filled| == |rows| && forall i | 0 <= i < |filled| :: filled[i] == NullsFilled(rows[i], nullvalue) && filled[i] != []
  }

  lemma {:induction false} NullCells(row: seq<Option<string>>, i: nat, sep: string, nullvalue: string)
    requires i <= |row| && !NeedsQuote(nullvalue, sep)
    ensures CellsFrom(row, i, sep, nullvalue) == CellsFrom(NonNull(NullsFilled(row, nullvalue)), i, sep, nullvalue)
    decreases |row| - i
  {
    if i < |row| {
      NullCells(row, i + 1, sep, nullvalue);
    }
  }

  lemma {:induction false} NullFile(rows: seq<seq<Option<string>>>, sep: string, nullvalue: string, filled: seq<seq<string>>)
    requires !NeedsQuote(nullvalue, sep) && AllFilled(rows, nullvalue, filled)
    ensures FileCells(rows, sep, nullvalue) == FileText(filled, sep)
    decreases |rows|
  {
    if rows != [] {
      NullFile(rows[1..], sep, nullvalue, filled[1..]);
      NullCells(rows[0], 0, sep, nullvalue);
      CellsAreRowText(filled[0], 0, sep, nullvalue);
      assert filled[0][0..] == filled[0];
    }
  }

  /**
   With a nullvalue that is written without quotes, a file with NULLs reads back with nullvalue
   in their places if and only if the rows so filled are separable.
   */
  lemma NullsReadBack(rows: seq<seq<Option<string>>>, sep: string, nullvalue: string, filled: seq<seq<string>>)
    requires UsableSep(sep) && !NeedsQuote(nullvalue, sep) && AllFilled(rows, nullvalue, filled)
    ensures Records(FileCells(rows, sep, nullvalue), sep) == filled <==> AllSeparable(filled, sep)
  {
    NullFile(rows, sep, nullvalue, filled);
    FileReadsBack(filled, sep);
  }

  /** With a separator of one byte a field is written as it is exactly if it is not empty and all visible ASCII but quotes and the separator. */
  lemma OneByteQuoting(f: string, c: char)
    ensures FieldText(f, [c]) == f <==> f != "" && forall i | 0 <= i < |f| :: 33 <= f[i] as int <= 126 && f[i] != '"' && f[i] != '\'' && f[i] != c
  {
    forall i | 0 <= i < |f|
      ensures Triggers(f, [c], i) <==> !(33 <= f[i] as int <= 126 && f[i] != '"' && f[i] != '\'' && f[i] != c)
    {
    }
    if NeedsQuote(f, [c]) {
      DoubledLength(f, '"');
    }
  }

  lemma {:induction false} RowNulFree(row: seq<string>, sep: string)
    requires row != [] && NulFree(sep) && forall i | 0 <= i < |row| :: NulFree(row[i])
    ensures NulFree(RowText(row, sep))
  {
    DoubledNulFree(row[0], '"');
    if |row| > 1 {
      RowNulFree(row[1..], sep);
    }
  }

  lemma {:induction false} FileNulFree(rows: seq<seq<string>>, sep: string)
    requires NulFree(sep)
    requires forall i | 0 <= i < |rows| :: rows[i] != [] && forall k | 0 <= k < |rows[i]| :: NulFree(rows[i][k])
    ensures NulFree(FileText(rows, sep))
  {
    if rows != [] {
      RowNulFree(rows[0], sep);
      FileNulFree(rows[1..], sep);
    }
  }

  lemma RecordReads(row: seq<string>, sep: string)
    requires row != [] && UsableSep(sep)
    ensures Record(RowText(row, sep), sep) == row <==> SeparableRow(row, sep)
  {
    var s := RowText(row, sep);
    assert s == "" + s;
    RowReads(s, "", row, sep);
  }

  ghost predicate AllSeparable(rows: seq<seq<string>>, sep: string) {
    forall i | 0 <= i < |rows| :: SeparableRow(rows[i], sep)
  }

  lemma FirstSeparable(rows: seq<seq<string>>, sep: string)
    requires rows != []
    ensures AllSeparable(rows, sep) <==> SeparableRow(rows[0], sep) && AllSeparable(rows[1..], sep)
  {
    assert rows == [rows[0]] + rows[1..];
  }

  lemma FirstRecord(rows: seq<seq<string>>, sep: string)
    requires UsableSep(sep) && rows != [] && forall i | 0 <= i < |rows| :: rows[i] != []
    ensures Records(FileText(rows, sep), sep)
            == [Record(RowText(rows[0], sep), sep)] + Records(FileText(rows[1..], sep), sep)
  {
    RowThenRecords(rows[0], FileText(rows[1..], sep), sep);
  }

  lemma RowThenRecords(row: seq<string>, rest: string, sep: string)
    requires row != [] && UsableSep(sep)
    ensures var w := RowText(row, sep); Records(w + "\n" + rest, sep) == [Record(w, sep)] + Records(rest, sep)
  {
    RowIsOneRecord(row, sep);
    RecordIsLine(RowText(row, sep), rest);
  }

  /**
   The csv file round trip: line reader, splitter and dequoter give back exactly
   the rows that were written, in order, if and only if every row is separable.
   */
  lemma {:induction false} FileReadsBack(rows: seq<seq<string>>, sep: string)
    requires UsableSep(sep) && forall i | 0 <= i < |rows| :: rows[i] != []
    ensures Records(FileText(rows, sep), sep) == rows <==> AllSeparable(rows, sep)
  {
    if rows != [] {
      var row, more := rows[0], rows[1..];
      FileReadsBack(more, sep);
      FirstRecord(rows, sep);
      RecordReads(row, sep);
      FirstSeparable(rows, sep);
      SameCons(Record(RowText(row, sep), sep), Records(FileText(more, sep), sep), rows);
    }
  }

  /** With a separator of one byte every row is separable. */
  lemma {:induction false} OneByteSeparates(row: seq<string>, sep: string)
    requires |sep| == 1
    ensures SeparableRow(row, sep)
  {
    if row != [] {
      OneByteSeparates(row[1..], sep);
      var f := row[0];
      var after := if |row| == 1 then "" else sep;
      if !NeedsQuote(f, sep) {
        forall k | 0 <= k < |f| ensures !SepAt(f + after, sep, k) {
          assert !Triggers(f, sep, k);
          assert (f + after)[k..k + 1][0] == f[k];
        }
      }
    }
  }

  /**
   So for every one-byte separator other than the quote and the newline the round
   trip holds for all rows, with quotes, separators, carriage returns and newlines
   in their fields.
   */
  lemma OneByteFileReadsBack(rows: seq<seq<string>>, sep: string)
    requires |sep| == 1 && UsableSep(sep) && forall i | 0 <= i < |rows| :: rows[i] != []
    ensures Records(FileText(rows, sep), sep) == rows
  {
    FileReadsBack(rows, sep);
    forall i | 0 <= i < |rows| ensures SeparableRow(rows[i], sep) {
      OneByteSeparates(rows[i], sep);
    }
  }

  /** With the separator "::" the field "a::b" is written without quotes, and so the row is not read back. */
  lemma TwoByteSeparatorFails()
    ensures !NeedsQuote("a::b", "::")
    ensures Records(FileText([["a::b"]], "::"), "::") != [["a::b"]]
  {
    var f, sep := "a::b", "::";
    var rows := [[f]];
    forall i | 0 <= i < |f| ensures !Triggers(f, sep, i) {
    }
    assert (f + "")[1..1 + |sep|] == sep;
    assert SepAt(f + "", sep, 1);
    assert !Separable(rows[0][0], sep, "");
    assert !SeparableRow(rows[0], sep);
    FileReadsBack(rows, sep);
  }
}
