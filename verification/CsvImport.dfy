/**
 .import: each record is split and dequoted inside the line buffer, and the
 transaction commits only if every record of the file was accepted and stored.
 */
module CsvImport {
  import opened Text
  import opened Readers
  import opened LineReader
  import opened Csv
  import opened CsvRoundTrip
  import opened ShellState

  // ---------- the dequoter, in place ----------

  /** From its `k`-th character on, `d` is what the dequoter still has to write when it reads at `j`. */
  ghost predicate DequoteDue(f: string, d: string, k: nat, j: nat)
    requires j <= |f|
    decreases |f| - j
  {
    if j == |f| || (f[j] == '"' && j + 1 == |f|) then k == |d|
    else
      var i := if f[j] == '"' then j + 1 else j;
      k < |d| && d[k] == f[i] && DequoteDue(f, d, k + 1, i + 1)
  }

  lemma {:induction false} DequoteIsDue(f: string, d: string, k: nat, j: nat)
    requires j <= |f| && k <= |d| && d[k..] == DequoteFrom(f, j)
    ensures DequoteDue(f, d, k, j)
    decreases |f| - j
  {
    if j < |f| && !(f[j] == '"' && j + 1 == |f|) {
      assert d[k + 1..] == d[k..][1..];
      DequoteIsDue(f, d, k + 1, if f[j] == '"' then j + 2 else j + 1);
    }
  }

  lemma {:induction false} DequoteNulFree(f: string, j: nat)
    requires NulFree(f) && j <= |f|
    ensures NulFree(DequoteFrom(f, j))
    decreases |f| - j
  {
    if j < |f| && !(f[j] == '"' && j + 1 == |f|) {
      DequoteNulFree(f, if f[j] == '"' then j + 2 else j + 1);
    }
  }

  /** The dequoting loop: the write index stays behind the read index. */
  method DequoteLoop(z: array<char>, off: nat, ghost f: string, ghost d: string)
    requires HoldsAt(z, off, f) && f != "" && f[0] == '"'
    requires DequoteDue(f, d, 0, 1) && NulFree(d)
    modifies z
    ensures HoldsAt(z, off, d) && |d| < |f|
    ensures forall m | 0 <= m < z.Length && !(off <= m < off + |f|) :: z[m] == old(z[m])
  {
    HoldsEach(z, off, f);
    var j, k := 1, 0;
    while z[off + j] != '\0'
      invariant 0 <= k < j <= |f| && k <= |d|
      invariant DequoteDue(f, d, k, j)
      invariant forall m | off <= m < off + k :: z[m] == d[m - off]
      invariant forall m | off + j <= m < off + |f| :: z[m] == f[m - off]
      invariant z[off + |f|] == '\0'
      invariant forall m | 0 <= m < z.Length && !(off <= m < off + |f|) :: z[m] == old(z[m])
      decreases |f| - j
    {
      if z[off + j] == '"' {
        j := j + 1;
        if z[off + j] == '\0' {
          assert k == |d|;
          break;
        }
      }
      z[off + k] := z[off + j];
      j, k := j + 1, k + 1;
    }
    assert k == |d|;
    z[off + k] := '\0';
    assert z[off..off + k] == d;
  }

  /** The field at `off` becomes its value; nothing outside it is touched. */
  method DequoteAt(z: array<char>, off: nat, ghost f: string)
    requires HoldsAt(z, off, f)
    modifies z
    ensures HoldsAt(z, off, Dequote(f)) && |Dequote(f)| <= |f|
    ensures forall m | 0 <= m < z.Length && !(off <= m < off + |f|) :: z[m] == old(z[m])
  {
    assert f != "" ==> z[off] == z[off..off + |f|][0];
    if z[off] == '"' {
      ghost var d := DequoteFrom(f, 1);
      DequoteNulFree(f, 1);
      assert d[0..] == d;
      DequoteIsDue(f, d, 0, 1);
      DequoteLoop(z, off, f, d);
    }
  }

  // ---------- the splitter, in place ----------

  /** strncmp(&z[i], sep, nSep) == 0 */
  method SameText(z: array<char>, i: nat, sep: string, ghost s: string) returns (same: bool)
    requires |s| < z.Length && i < |s| && NulFree(sep)
    requires (forall m | i <= m < |s| :: z[m] == s[m]) && z[|s|] == '\0'
    ensures same == SepAt(s, sep, i)
  {
    var k := 0;
    while k < |sep|
      invariant 0 <= k <= |sep| && i + k <= |s|
      invariant forall m | 0 <= m < k :: s[i + m] == sep[m]
    {
      if z[i + k] != sep[k] {
        assert i + |sep| <= |s| ==> s[i..i + |sep|][k] == s[i + k];
        return false;
      }
      k := k + 1;
    }
    same := true;
  }

  /** From its `i`-th element on, `fs` is what the splitter still has to find at position `z` of the record. */
  ghost predicate SplitDue(s: string, sep: string, fs: seq<string>, i: nat, from: nat, z: nat, q: bool)
    requires from <= z <= |s| && sep != ""
    decreases |s| - z
  {
    if z == |s| then i + 1 == |fs| && fs[i] == s[from..]
    else
      var q' := if s[z] == '"' then !q else q;
      if !q' && SepAt(s, sep, z) then
        i < |fs| && fs[i] == s[from..z] && SplitDue(s, sep, fs, i + 1, z + |sep|, z + |sep|, q')
      else SplitDue(s, sep, fs, i, from, z + 1, q')
  }

  lemma {:induction false} FieldsAreDue(s: string, sep: string, fs: seq<string>, i: nat, from: nat, z: nat, q: bool)
    requires from <= z <= |s| && sep != "" && i <= |fs| && fs[i..] == Split(s, sep, from, z, q)
    ensures SplitDue(s, sep, fs, i, from, z, q)
    decreases |s| - z
  {
    if z < |s| {
      var q' := if s[z] == '"' then !q else q;
      if !q' && SepAt(s, sep, z) {
        assert fs[i + 1..] == fs[i..][1..];
        FieldsAreDue(s, sep, fs, i + 1, z + |sep|, z + |sep|, q');
      } else {
        FieldsAreDue(s, sep, fs, i, from, z + 1, q');
      }
    }
  }

  lemma {:induction false} StillDue(s: string, sep: string, fs: seq<string>, i: nat, from: nat, z: nat, q: bool)
    requires from <= z <= |s| && sep != "" && SplitDue(s, sep, fs, i, from, z, q)
    ensures i < |fs|
    decreases |s| - z
  {
    if z < |s| {
      var q' := if s[z] == '"' then !q else q;
      if q' || !SepAt(s, sep, z) {
        StillDue(s, sep, fs, i, from, z + 1, q');
      }
    }
  }

  /** Column `k` starts at cols[k], and no column reaches into the next. */
  ghost predicate Columns(z: array<char>, cols: seq<nat>, fs: seq<string>, n: nat)
    reads z
  {
    && n <= |cols| && n <= |fs|
    && (forall k | 0 <= k < n :: HoldsAt(z, cols[k], fs[k]))
    && (forall j, k | 0 <= j < n && j < k < |cols| :: cols[j] + |fs[j]| < cols[k])
  }

  /** A text that ends before the only character that changed is still there. */
  lemma StillHolds(zLine: array<char>, was: seq<char>, at: nat, s: string, z: nat)
    requires at + |s| < z < zLine.Length == |was| && zLine[..] == was[z := zLine[z]]
    requires NulFree(s) && was[at..at + |s|] == s && was[at + |s|] == '\0'
    ensures HoldsAt(zLine, at, s)
  {
    assert zLine[at..at + |s|] == zLine[..][at..at + |s|] == was[at..at + |s|];
  }

  /** Terminate the column that ends at `z`. */
  method CutColumn(zLine: array<char>, z: nat, azCol: seq<nat>, ghost fs: seq<string>, ghost i: nat)
    requires |azCol| == i + 1 && i < |fs| && Columns(zLine, azCol, fs, i)
    requires azCol[i] <= z < zLine.Length && zLine[azCol[i]..z] == fs[i] && NulFree(fs[i])
    modifies zLine
    ensures zLine[z] == '\0'
    ensures forall m | 0 <= m < zLine.Length && m != z :: zLine[m] == old(zLine[m])
    ensures Columns(zLine, azCol, fs, i + 1)
  {
    ghost var was := zLine[..];
    assert forall k | 0 <= k < i :: HoldsAt(zLine, azCol[k], fs[k]);
    zLine[z] := '\0';
    assert zLine[azCol[i]..z] == fs[i];
    forall k | 0 <= k < i ensures HoldsAt(zLine, azCol[k], fs[k]) {
      StillHolds(zLine, was, azCol[k], fs[k], z);
    }
  }

  /** The next column starts behind all columns so far. */
  lemma StartColumn(zLine: array<char>, azCol: seq<nat>, next: nat, fs: seq<string>, n: nat)
    requires n > 0 && n == |azCol| && Columns(zLine, azCol, fs, n) && azCol[n - 1] + |fs[n - 1]| < next
    ensures Columns(zLine, azCol + [next], fs, n)
  {
    var cols := azCol + [next];
    forall j, k | 0 <= j < n && j < k < |cols| ensures cols[j] + |fs[j]| < cols[k] {
      if k == n && j < n - 1 {
        assert azCol[j] + |fs[j]| < azCol[n - 1];
      }
    }
  }

  /** One character of the record: the new quote state, and whether a separator starts here. */
  method ScanChar(zLine: array<char>, z: nat, q: bool, sep: string, ghost s: string) returns (q': bool, hit: bool)
    requires |s| < zLine.Length && z < |s| && NulFree(sep) && sep != ""
    requires (forall m | z <= m < |s| :: zLine[m] == s[m]) && zLine[|s|] == '\0'
    ensures q' == if s[z] == '"' then !q else q
    ensures hit == (!q' && SepAt(s, sep, z))
  {
    q' := if zLine[z] == '"' then !q else q;
    hit := false;
    if !q' && zLine[z] == sep[0] {
      hit := SameText(zLine, z, sep, s);
    } else if z + |sep| <= |s| {
      assert s[z..z + |sep|][0] == s[z];
    }
  }

  /** Invariant while columns are still recorded. */
  ghost predicate Recording(zLine: array<char>, s: string, sep: string, fs: seq<string>,
                            azCol: seq<nat>, i: nat, z: nat, q: bool)
    reads zLine
    requires sep != ""
  {
    && Ahead(zLine, s, z)
    && |azCol| == i + 1 && azCol[i] <= z && SplitDue(s, sep, fs, i, azCol[i], z, q)
    && (forall m | azCol[i] <= m < z :: zLine[m] == s[m])
    && Columns(zLine, azCol, fs, i)
  }

  /** A separator that ends column `i`: the column is terminated, and the next one starts after it if it is wanted. */
  method EndColumn(zLine: array<char>, sep: string, azCol: seq<nat>, z: nat, q: bool, more: bool,
                   ghost s: string, ghost fs: seq<string>, ghost i: nat, ghost q0: bool)
    returns (azCol': seq<nat>, z': nat)
    requires sep != "" && Recording(zLine, s, sep, fs, azCol, i, z, q0)
    requires z < |s| && q == (if s[z] == '"' then !q0 else q0) && !q && SepAt(s, sep, z)
    modifies zLine
    ensures z < z' <= |s| && Ahead(zLine, s, z')
    ensures i + 1 < |fs|
    ensures more ==> Recording(zLine, s, sep, fs, azCol', i + 1, z', q)
  {
    assert zLine[azCol[i]..z] == fs[i];
    CutColumn(zLine, z, azCol, fs, i);
    StartColumn(zLine, azCol, z + |sep|, fs, i + 1);
    StillDue(s, sep, fs, i + 1, z + |sep|, z + |sep|, q);
    azCol', z' := azCol, z;
    if more {
      azCol' := azCol + [z + |sep|];
      z' := z' + |sep| - 1;
    }
    z' := z' + 1;
  }

  /**
   The splitting loop. It stops recording columns after nCol but goes on counting,
   and so it tells exactly whether the record has nCol fields.
   */
  method SplitLoop(zLine: array<char>, sep: string, nCol: nat, ghost s: string, ghost fs: seq<string>)
    returns (azCol: seq<nat>, i: nat)
    requires HoldsAt(zLine, 0, s) && NulFree(sep) && sep != "" && nCol > 0
    requires SplitDue(s, sep, fs, 0, 0, 0, false)
    modifies zLine
    ensures i + 1 == nCol <==> |fs| == nCol
    ensures i + 1 == nCol ==> |azCol| == nCol && Columns(zLine, azCol, fs, nCol)
  {
    HoldsEach(zLine, 0, s);
    azCol, i := [0], 0;
    var z, inQuote, hit := 0, false, false;
    while zLine[z] != '\0'
      invariant 0 <= z && Ahead(zLine, s, z)
      invariant i < nCol ==> Recording(zLine, s, sep, fs, azCol, i, z, inQuote)
      invariant i >= nCol ==> |fs| > nCol
      decreases |s| - z
    {
      ghost var q0 := inQuote;
      inQuote, hit := ScanChar(zLine, z, inQuote, sep, s);
      if !hit {
        z := z + 1;
      } else if i < nCol {
        azCol, z := EndColumn(zLine, sep, azCol, z, inQuote, i + 1 < nCol, s, fs, i, q0);
        i := i + 1;
      } else {
        zLine[z] := '\0';
        i, z := i + 1, z + 1;
      }
    }
    if i < nCol {
      LastColumn(zLine, z, azCol, s, sep, fs, i, inQuote);
    } else {
      zLine[z] := '\0';
    }
  }

  /** The end of the record ends the last column. */
  method LastColumn(zLine: array<char>, z: nat, azCol: seq<nat>,
                    ghost s: string, ghost sep: string, ghost fs: seq<string>, ghost i: nat, ghost q: bool)
    requires sep != "" && z < zLine.Length && zLine[z] == '\0' && Recording(zLine, s, sep, fs, azCol, i, z, q)
    modifies zLine
    ensures i + 1 == |fs| && Columns(zLine, azCol, fs, i + 1)
  {
    assert zLine[azCol[i]..z] == fs[i];
    CutColumn(zLine, z, azCol, fs, i);
  }

  // ---------- one record ----------

  /** Columns before `n` hold their values, the others still hold their fields. */
  ghost predicate Dequoted(z: array<char>, cols: seq<nat>, fs: seq<string>, n: nat)
    reads z
  {
    && n <= |cols| == |fs|
    && (forall k | 0 <= k < n :: HoldsAt(z, cols[k], Dequote(fs[k])) && |Dequote(fs[k])| <= |fs[k]|)
    && (forall k | n <= k < |fs| :: HoldsAt(z, cols[k], fs[k]))
    && (forall j, k | 0 <= j < k < |cols| :: cols[j] + |fs[j]| < cols[k])
  }

  /** The next column of a record is dequoted and the others stay as they are. */
  method DequoteColumn(z: array<char>, cols: seq<nat>, n: nat, ghost fs: seq<string>)
    requires n < |cols| && Dequoted(z, cols, fs, n)
    modifies z
    ensures Dequoted(z, cols, fs, n + 1)
  {
    DequoteAt(z, cols[n], fs[n]);
    forall k | 0 <= k < n ensures HoldsAt(z, cols[k], Dequote(fs[k])) {
      ghost var d := Dequote(fs[k]);
      assert old(HoldsAt(z, cols[k], d));
      assert z[cols[k]..cols[k] + |d|] == old(z[cols[k]..cols[k] + |d|]);
    }
    forall k | n < k < |fs| ensures HoldsAt(z, cols[k], fs[k]) {
      assert old(HoldsAt(z, cols[k], fs[k]));
      assert z[cols[k]..cols[k] + |fs[k]|] == old(z[cols[k]..cols[k] + |fs[k]|]);
    }
  }

  /** Split one line in place and take its values, if it has exactly nCol fields. */
  method ReadRecord(zLine: array<char>, sep: string, nCol: nat, ghost s: string) returns (ok: bool, row: seq<string>)
    requires HoldsAt(zLine, 0, s) && NulFree(sep) && sep != "" && nCol > 0
    modifies zLine
    ensures ok <==> |Fields(s, sep)| == nCol
    ensures ok ==> row == Record(s, sep)
  {
    ghost var fs := Fields(s, sep);
    assert fs[0..] == fs;
    FieldsAreDue(s, sep, fs, 0, 0, 0, false);
    var azCol, i := SplitLoop(zLine, sep, nCol, s, fs);
    ok, row := i + 1 == nCol, [];
    if ok {
      row := TakeColumns(zLine, azCol, fs);
    }
  }

  /** Dequote every column, then read them all. */
  method TakeColumns(z: array<char>, cols: seq<nat>, ghost fs: seq<string>) returns (row: seq<string>)
    requires |cols| == |fs| && Columns(z, cols, fs, |fs|)
    modifies z
    ensures row == Map(Dequote, fs)
  {
    var i := 0;
    while i < |cols|
      invariant 0 <= i <= |cols| && Dequoted(z, cols, fs, i)
    {
      DequoteColumn(z, cols, i, fs);
      i := i + 1;
    }
    row, i := [], 0;
    while i < |cols|
      invariant 0 <= i <= |cols| && |row| == i && Dequoted(z, cols, fs, |cols|)
      invariant forall k | 0 <= k < i :: row[k] == Dequote(fs[k])
    {
      var t := TextAt(z, cols[i], Dequote(fs[i]));
      row := row + [t];
      i := i + 1;
    }
  }

  // ---------- the whole file ----------

  /** How the transaction around the import ended; NotBegun when the import never began one. */
  datatype Ending = NotBegun | Commit | Rollback

  /** Binding, stepping and resetting the INSERT statement: a result code, given the rows stored before. */
  type Store = (seq<seq<string>>, seq<string>) -> int

  /** Record `k` has the right number of fields and is stored without error. */
  predicate Accepted(rs: seq<seq<string>>, k: nat, nCol: nat, store: Store)
    requires k < |rs|
  {
    |rs[k]| == nCol && store(rs[..k], rs[k]) == 0
  }

  /** The rows stored so far are the first records, and each was accepted. */
  ghost predicate Taken(rs: seq<seq<string>>, nCol: nat, store: Store, rows: seq<seq<string>>) {
    rows <= rs && forall k | 0 <= k < |rows| :: Accepted(rs, k, nCol, store)
  }

  lemma TakenNext(rs: seq<seq<string>>, nCol: nat, store: Store, rows: seq<seq<string>>, row: seq<string>)
    requires Taken(rs, nCol, store, rows) && |rows| < |rs| && row == rs[|rows|] && Accepted(rs, |rows|, nCol, store)
    ensures Taken(rs, nCol, store, rows + [row])
  {
  }

  /** The rows stored are the accepted records up to the first that is not. */
  ghost predicate Imported(rs: seq<seq<string>>, nCol: nat, store: Store, rows: seq<seq<string>>, ending: Ending) {
    && Taken(rs, nCol, store, rows)
    && (|rows| < |rs| ==> !Accepted(rs, |rows|, nCol, store))
    && ending == if |rows| == |rs| then Commit else Rollback
  }

  /** COMMIT exactly when every record of the file is accepted. */
  lemma CommitMeansAll(rs: seq<seq<string>>, nCol: nat, store: Store, rows: seq<seq<string>>, ending: Ending)
    requires Imported(rs, nCol, store, rows, ending)
    ensures ending == Commit <==> forall k | 0 <= k < |rs| :: Accepted(rs, k, nCol, store)
    ensures ending == Commit ==> rows == rs
    ensures ending == Rollback ==> exists k | 0 <= k < |rs| :: !Accepted(rs, k, nCol, store)
  {
  }

  /** The records still in the file, after `n` of them were read. */
  ghost predicate Remaining(s: string, sep: string, rs: seq<seq<string>>, n: nat)
    requires sep != ""
  {
    NulFree(s) && n <= |rs| && Records(s, sep) == rs[n..]
  }

  lemma NextRecord(s: string, sep: string, rs: seq<seq<string>>, n: nat)
    requires sep != "" && Remaining(s, sep, rs, n)
    ensures n == |rs| <==> s == ""
    ensures s != "" ==> rs[n] == Record(LineText(s, true), sep) && Remaining(AfterLine(s, true), sep, rs, n + 1)
  {
    if s != "" {
      assert rs[n] == rs[n..][0];
      assert rs[n + 1..] == rs[n..][1..];
    }
  }

  /** One turn of the loop: the next record, accepted and stored or not; `more` is false at end of file. */
  method ImportRecord(input: Stream, sep: string, nCol: nat, store: Store, rows: seq<seq<string>>, ghost rs: seq<seq<string>>)
    returns (more: bool, ok: bool, row: seq<string>)
    requires sep != "" && NulFree(sep) && nCol > 0
    requires Remaining(input.rest, sep, rs, |rows|) && rows <= rs
    modifies input
    ensures more == (|rows| < |rs|)
    ensures more ==> ok == Accepted(rs, |rows|, nCol, store) && Remaining(input.rest, sep, rs, |rows| + 1)
    ensures more ==> |input.rest| < |old(input.rest)|
    ensures more && ok ==> row == rs[|rows|]
  {
    ghost var s := input.rest;
    NextRecord(s, sep, rs, |rows|);
    var zLine := LocalGetline(input, true);
    more, row := zLine != null, [];
    ok := more;
    if more {
      ok, row := ReadRecord(zLine, sep, nCol, LineText(s, true));
      if ok {
        assert rs[..|rows|] == rows;
        var rc := store(rows, row);
        ok := rc == 0;
      }
    }
  }

  /** What the engine says about the table: the code of preparing SELECT, its columns, and the code of preparing INSERT. */
  datatype Table = Table(select: int, nCol: nat, insert: int)

  /** The import gets as far as its transaction; `open` tells whether the file could be opened. */
  predicate Begins(sep: string, table: Table, open: bool) {
    sep != "" && table.select == 0 && table.nCol > 0 && table.insert == 0 && open
  }

  /** .import of a file, null if it cannot be opened. */
  method Import(input: Stream?, sep: string, table: Table, store: Store)
    returns (rc: int, ending: Ending, rows: seq<seq<string>>)
    requires NulFree(sep) && (input != null ==> NulFree(input.rest))
    modifies input
    ensures !Begins(sep, table, input != null) ==>
              && ending == NotBegun && rows == [] && (input != null ==> input.rest == old(input.rest))
              && rc == if sep != "" && table.select == 0 && table.nCol == 0 then 0 else 1
    ensures Begins(sep, table, input != null) ==>
              && Imported(Records(old(input.rest), sep), table.nCol, store, rows, ending)
              && rc == if ending == Commit then 0 else 1
  {
    rows := [];
    if sep == "" {
      return 1, NotBegun, [];
    }
    if table.select != 0 {
      return 1, NotBegun, [];
    }
    if table.nCol == 0 {
      return 0, NotBegun, [];
    }
    if table.insert != 0 {
      return 1, NotBegun, [];
    }
    if input == null {
      return 1, NotBegun, [];
    }
    rc, ending, rows := ImportFile(input, sep, table.nCol, store);
  }

  /** The transaction of .import. */
  method ImportFile(input: Stream, sep: string, nCol: nat, store: Store)
    returns (rc: int, ending: Ending, rows: seq<seq<string>>)
    requires NulFree(input.rest) && NulFree(sep) && sep != "" && nCol > 0
    modifies input
    ensures Imported(Records(old(input.rest), sep), nCol, store, rows, ending)
    ensures rc == if ending == Commit then 0 else 1
  {
    rows := [];
    ghost var rs := Records(input.rest, sep);
    rc, ending := 0, Commit;
    while true
      invariant Taken(rs, nCol, store, rows) && Remaining(input.rest, sep, rs, |rows|)
      decreases |input.rest|
    {
      var more, ok, row := ImportRecord(input, sep, nCol, store, rows, rs);
      if !more {
        break;
      }
      if !ok {
        rc, ending := 1, Rollback;
        break;
      }
      TakenNext(rs, nCol, store, rows, row);
      rows := rows + [row];
    }
  }

  // ---------- export and import ----------

  /** The engine takes the rows, each after those before it. */
  ghost predicate AllStored(rows: seq<seq<string>>, store: Store) {
    forall k | 0 <= k < |rows| :: store(rows[..k], rows[k]) == 0
  }

  /**
   What was exported is imported: all rows arrive and are committed exactly when
   every row is separable and the engine takes all of them.
   */
  lemma ExportImports(rows0: seq<seq<string>>, sep: string, nCol: nat, store: Store, rows: seq<seq<string>>, ending: Ending)
    requires UsableSep(sep) && nCol > 0 && forall i | 0 <= i < |rows0| :: |rows0[i]| == nCol
    requires Imported(Records(FileText(rows0, sep), sep), nCol, store, rows, ending)
    ensures ending == Commit && rows == rows0 <==> AllSeparable(rows0, sep) && AllStored(rows0, store)
  {
    var rs := Records(FileText(rows0, sep), sep);
    FileReadsBack(rows0, sep);
    CommitMeansAll(rs, nCol, store, rows, ending);
    if rs == rows0 {
      forall k | 0 <= k < |rs| ensures Accepted(rs, k, nCol, store) <==> store(rows0[..k], rows0[k]) == 0 {
      }
    }
  }

  /** The column names as a header line shows them. */
  function Names(azCol: seq<Option<string>>): (r: seq<string>)
    ensures |r| == |azCol| && NonNull(r) == HeaderCells(azCol)
  {
    var r := seq(|azCol|, i requires 0 <= i < |azCol| => if azCol[i].None? then "" else azCol[i].value);
    assert NonNull(r) == HeaderCells(azCol);
    r
  }

  /** The records of an exported query: its rows, after the column names if headers are on. */
  function Exported(header: bool, azCol: seq<Option<string>>, rows: seq<seq<string>>): seq<seq<string>> {
    if header && rows != [] then [Names(azCol)] + rows else rows
  }

  lemma ExportedText(header: bool, azCol: seq<Option<string>>, rows: seq<seq<string>>, nCol: nat, sep: string, nullvalue: string)
    requires |azCol| == nCol > 0 && forall i | 0 <= i < |rows| :: |rows[i]| == nCol
    ensures FileCells(QueryLines(header, azCol, Map(NonNull, rows)), sep, nullvalue) == FileText(Exported(header, azCol, rows), sep)
  {
    var recs := Exported(header, azCol, rows);
    FileCellsAreText(recs, sep, nullvalue);
    assert QueryLines(header, azCol, Map(NonNull, rows)) == Map(NonNull, recs);
  }

  /** The names and values of a query hold no NUL, and every row has all the columns. */
  ghost predicate Exportable(azCol: seq<Option<string>>, rows: seq<seq<string>>, nCol: nat) {
    && |azCol| == nCol > 0
    && (forall i | 0 <= i < nCol :: azCol[i].Some? ==> NulFree(azCol[i].value))
    && (forall i | 0 <= i < |rows| :: |rows[i]| == nCol && forall k | 0 <= k < nCol :: NulFree(rows[i][k]))
  }

  /** What a query adds to the output in csv mode. */
  method ExportText(p: CallbackData, azCol: seq<Option<string>>, rows: seq<seq<string>>, ghost nCol: nat) returns (text: string)
    requires NulFree(p.separator) && Exportable(azCol, rows, nCol) && p.cnt == 0
    modifies p`cnt, p`out
    ensures text == FileText(Exported(p.showHeader != 0, azCol, rows), p.separator) && NulFree(text)
  {
    var start := |p.out|;
    ExportRows(p, azCol, Map(NonNull, rows));
    ExportedText(p.showHeader != 0, azCol, rows, nCol, p.separator, p.nullvalue);
    text := p.out[start..];
    FileNulFree(Exported(p.showHeader != 0, azCol, rows), p.separator);
  }

  /**
   A query is written in csv mode to a file, and the file is imported. The table then
   holds exactly the records of the query, committed, if and only if each is separable
   and the engine takes all of them.
   */
  method ExportImport(p: CallbackData, azCol: seq<Option<string>>, rows0: seq<seq<string>>, table: Table, store: Store)
    returns (rc: int, ending: Ending, rows: seq<seq<string>>)
    requires UsableSep(p.separator) && NulFree(p.separator) && Exportable(azCol, rows0, table.nCol)
    requires table.select == 0 && table.insert == 0 && p.cnt == 0
    modifies p`cnt, p`out
    ensures var recs := Exported(p.showHeader != 0, azCol, rows0);
            && (ending == Commit && rows == recs <==> AllSeparable(recs, p.separator) && AllStored(recs, store))
            && rc == if ending == Commit then 0 else 1
  {
    ghost var recs := Exported(p.showHeader != 0, azCol, rows0);
    var text := ExportText(p, azCol, rows0, table.nCol);
    var input := new Stream(text);
    rc, ending, rows := Import(input, p.separator, table, store);
    ExportImports(recs, p.separator, table.nCol, store, rows, ending);
  }
}
