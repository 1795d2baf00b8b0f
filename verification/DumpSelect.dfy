/**
 The query that .dump builds for a table: names are quoted with double quotes,
 and the table name once more, quotes and all, as a text literal.
 */
module DumpSelect {
  import opened Text
  import opened Readers
  import opened Quoting

  /** Letters and digits, a letter first: such a name goes into the INSERT as it is. So does an empty one. */
  predicate RawName(t: string) {
    t == "" || (IsAlpha(t[0]) && forall i | 0 <= i < |t| :: IsAlnum(t[i]))
  }

  function IdentText(t: string): string {
    if RawName(t) then t else Quoted(t, '"')
  }

  const HEAD := "SELECT 'INSERT INTO ' || "
  const VALUES := " || ' VALUES(' || "
  const TAIL := " || ')' FROM  "

  function ColumnText(c: string): string {
    "quote(" + (Quoted(c, '"') + ")")
  }

  /** Columns after the first are set off by a blank. */
  function ColumnTexts(cols: seq<string>): seq<string> {
    seq(|cols|, i requires 0 <= i < |cols| => (if i == 0 then "" else " ") + ColumnText(cols[i]))
  }

  function SelectText(t: string, cols: seq<string>): string
    requires cols != []
  {
    HEAD + (Quoted(IdentText(t), '\'') + (VALUES + (PrintItems(ColumnTexts(cols), TAIL) + Quoted(t, '"'))))
  }

  // ---------- reading the query ----------

  /** A quoted text, from its opening quote on. */
  function ReadText(s: string, q: char): (r: Read<string>)
    ensures r.Got? ==> |r.rest| < |s|
  {
    var o := Expect(s, [q]);
    if o.Fail? then Fail else ReadQuoted(o.rest, q)
  }

  lemma TextReadsBack(s: string, q: char, rest: string)
    requires rest == "" || rest[0] != q
    ensures ReadText(Quoted(s, q) + rest, q) == Got(s, rest)
  {
    QuotedReadsBack(s, q, rest);
    ExpectFinds([q], Doubled(s, q) + [q] + rest);
  }

  /** A name as it stands in an INSERT: between double quotes, or as it is. */
  function ReadIdent(s: string): Option<string> {
    if s != "" && s[0] == '"' then
      var r := ReadText(s, '"');
      if r.Got? && r.rest == "" then Some(r.value) else None
    else Some(s)
  }

  /** Quoting a name with double quotes and the result with single quotes is undone by two readings, for every name. */
  lemma NestedReadsBack(t: string, rest: string)
    requires rest == "" || rest[0] != '\''
    ensures var r := ReadText(Quoted(IdentText(t), '\'') + rest, '\''); r == Got(IdentText(t), rest) && ReadIdent(r.value) == Some(t)
  {
    TextReadsBack(IdentText(t), '\'', rest);
    if !RawName(t) {
      TextReadsBack(t, '"', "");
      assert Quoted(t, '"') + "" == Quoted(t, '"');
    }
  }

  function ReadColumn(s: string): (r: Read<string>)
    ensures r.Got? ==> |r.rest| < |s|
  {
    var a := Expect(if " " <= s then s[1..] else s, "quote(");
    if a.Fail? then Fail else
    var c := ReadText(a.rest, '"');
    if c.Fail? then Fail else
    var b := Expect(c.rest, ")");
    if b.Fail? then Fail else Got(c.value, b.rest)
  }

  /** What the query is about. */
  datatype Query = Query(insertInto: string, columns: seq<string>, from: string)

  function ReadSelect(s: string): Option<Query> {
    var a := Expect(s, "SELECT 'INSERT INTO ' || ");
    if a.Fail? then None else
    var name := ReadText(a.rest, '\'');
    if name.Fail? || ReadIdent(name.value).None? then None else
    var b := Expect(name.rest, " || ' VALUES(' || ");
    if b.Fail? then None else
    var cols := ReadItems(b.rest, ReadColumn, " || ')' FROM  ");
    if cols.Fail? then None else
    var from := ReadText(cols.rest, '"');
    if from.Fail? || from.rest != "" then None else Some(Query(ReadIdent(name.value).value, cols.value, from.value))
  }

  lemma ColumnReadsBack(c: string, sp: string, rest: string)
    requires sp == "" || sp == " "
    ensures ReadColumn(sp + ColumnText(c) + rest) == Got(c, rest)
  {
    var u := Quoted(c, '"') + (")" + rest);
    var t := sp + ColumnText(c) + rest;
    assert t == sp + ("quote(" + u);
    assert (if " " <= t then t[1..] else t) == "quote(" + u by {
      if sp == "" {
        assert t[0] == 'q';
      } else {
        assert t[1..] == "quote(" + u;
      }
    }
    ExpectFinds("quote(", u);
    TextReadsBack(c, '"', ")" + rest);
    ExpectFinds(")", rest);
  }

  lemma ColumnsReadBack(cols: seq<string>, rest: string)
    requires cols != []
    ensures ReadItems(PrintItems(ColumnTexts(cols), TAIL) + rest, ReadColumn, TAIL) == Got(cols, rest)
  {
    var good := seq(|cols|, i requires 0 <= i < |cols| => true);
    var ws := ColumnTexts(cols);
    forall i | 0 <= i < |cols| ensures ItemReads(ReadColumn, cols[i], ws[i], good[i], TAIL) {
      forall r: string | r != "" && (r[0] == ',' || TAIL <= r) ensures Verdict(ReadColumn(ws[i] + r), cols[i], r, good[i]) {
        ColumnReadsBack(cols[i], if i == 0 then "" else " ", r);
      }
    }
    ItemsReadBack(cols, ws, good, rest, ReadColumn, TAIL);
  }

  /** The query names the table, twice, and its columns, whatever characters are in the names. */
  lemma SelectReadsBack(t: string, cols: seq<string>)
    requires cols != []
    ensures ReadSelect(SelectText(t, cols)) == Some(Query(t, cols, t))
  {
    var d := Quoted(t, '"');
    var c := PrintItems(ColumnTexts(cols), TAIL) + d;
    var b := VALUES + c;
    var a := Quoted(IdentText(t), '\'') + b;
    ExpectFinds(HEAD, a);
    NestedReadsBack(t, b);
    ExpectFinds(VALUES, c);
    ColumnsReadBack(cols, d);
    TextReadsBack(t, '"', "");
    assert d + "" == d;
  }

  /** The table name goes into the INSERT as it is exactly if it is empty or letters and digits, a letter first. */
  lemma IdentIs(t: string)
    ensures IdentText(t) == t <==>
            t == "" || ((('a' <= t[0] <= 'z') || ('A' <= t[0] <= 'Z'))
                        && forall i | 0 <= i < |t| :: ('a' <= t[i] <= 'z') || ('A' <= t[i] <= 'Z') || ('0' <= t[i] <= '9'))
  {
    if IdentText(t) == t && t != "" {
      if !RawName(t) {
        DoubledLength(t, '"');
        assert false;
      }
    }
  }

  // ---------- building the query ----------

  /** The text that follows the columns, after the blank that the last of them adds. */
  const FROM := "|| ')' FROM  "

  /** What appendText() still adds for the columns from `i` on, and the text after them. */
  function ColumnsFrom(cols: seq<string>, i: nat, from: string): string
    requires i <= |cols|
    decreases |cols| - i
  {
    if i == |cols| then from
    else "quote(" + Quoted(cols[i], '"') + (if i + 1 == |cols| then ") " else "), ") + ColumnsFrom(cols, i + 1, from)
  }

  lemma {:induction false} ColumnsFromIs(cols: seq<string>, i: nat)
    requires i < |cols|
    ensures PrintItems(ColumnTexts(cols)[i..], TAIL) == (if i == 0 then "" else " ") + ColumnsFrom(cols, i, FROM)
    decreases |cols| - i
  {
    var ws := ColumnTexts(cols);
    var sp := if i == 0 then "" else " ";
    assert ws[i..][0] == sp + ColumnText(cols[i]);
    if i + 1 < |cols| {
      ColumnsFromIs(cols, i + 1);
      assert ws[i..][1..] == ws[i + 1..];
      MidColumn(sp, Quoted(cols[i], '"'), ColumnsFrom(cols, i + 1, FROM));
    } else {
      LastColumn(sp, Quoted(cols[i], '"'));
    }
  }

  lemma MidColumn(sp: string, w: string, more: string)
    ensures sp + ("quote(" + (w + ")")) + ("," + (" " + more)) == sp + ("quote(" + w + "), " + more)
  {
    assert ")" + ("," + (" " + more)) == "), " + more;
  }

  lemma LastColumn(sp: string, w: string)
    ensures sp + ("quote(" + (w + ")")) + TAIL == sp + ("quote(" + w + ") " + FROM)
  {
    assert ")" + TAIL == ") " + FROM;
  }

  /** The test that decides between the raw name and quotes. */
  method IdentQuote(zTable: string) returns (q: char)
    ensures q == if RawName(zTable) then '\0' else '"'
  {
    var kk := 0;
    if zTable != "" && IsAlpha(zTable[0]) {
      kk := 1;
      while kk < |zTable| && IsAlnum(zTable[kk])
        invariant 1 <= kk <= |zTable| && forall i | 0 <= i < kk :: IsAlnum(zTable[i])
      {
        kk := kk + 1;
      }
    }
    q := if kk < |zTable| then '"' else '\0';
  }

  /** One column: three calls of appendText(). */
  method AddColumn(z: array<char>, col: string, last: bool, ghost text: string) returns (z': array<char>, ghost text': string)
    requires HoldsAt(z, 0, text) && NulFree(col)
    ensures fresh(z') && HoldsAt(z', 0, text')
    ensures text' == text + ("quote(" + Quoted(col, '"') + if last then ") " else "), ")
  {
    z' := AppendText(z, "quote(", '\0', text);
    text' := text + "quote(";
    z' := AppendText(z', col, '"', text');
    text' := text' + Quoted(col, '"');
    if last {
      z' := AppendText(z', ") ", '\0', text');
      text' := text' + ") ";
    } else {
      z' := AppendText(z', "), ", '\0', text');
      text' := text' + "), ";
    }
  }

  /** The query up to the columns. */
  method BeginSelect(head: string, zTable: string, values: string) returns (z: array<char>)
    requires NulFree(head) && NulFree(zTable) && NulFree(values)
    ensures fresh(z) && HoldsAt(z, 0, head + Quoted(IdentText(zTable), '\'') + values)
  {
    z := FirstText(head, '\0');
    var q := IdentQuote(zTable);
    var zTmp := FirstText(zTable, q);
    var tmp := TextAt(zTmp, 0, IdentText(zTable));
    z := AppendText(z, tmp, '\'', head);
    z := AppendText(z, values, '\0', head + Quoted(tmp, '\''));
  }

  /** appendText() to a null pointer. */
  method FirstText(s: string, quote: char) returns (z: array<char>)
    requires NulFree(s)
    ensures fresh(z) && HoldsAt(z, 0, Appended(s, quote)) && NulFree(Appended(s, quote))
  {
    z := AppendText(null, s, quote, "");
    assert "" + Appended(s, quote) == Appended(s, quote);
  }

  /** The loop over the columns, and the text after them. */
  method AddColumns(z0: array<char>, cols: seq<string>, from: string, ghost start: string) returns (z: array<char>)
    requires HoldsAt(z0, 0, start) && NulFree(from) && forall i | 0 <= i < |cols| :: NulFree(cols[i])
    ensures fresh(z) && HoldsAt(z, 0, start + ColumnsFrom(cols, 0, from))
  {
    z := z0;
    ghost var text := start;
    var i := 0;
    while i < |cols|
      invariant 0 <= i <= |cols| && HoldsAt(z, 0, text)
      invariant text + ColumnsFrom(cols, i, from) == start + ColumnsFrom(cols, 0, from)
    {
      Regroup(text, "quote(" + Quoted(cols[i], '"'), if i + 1 == |cols| then ") " else "), ", ColumnsFrom(cols, i + 1, from));
      z, text := AddColumn(z, cols[i], i + 1 == |cols|, text);
      i := i + 1;
    }
    z := AppendText(z, from, '\0', text);
  }

  lemma Regroup(a: string, b: string, c: string, d: string)
    ensures a + (b + c + d) == a + (b + c) + d
  {
  }

  lemma LiteralsNulFree()
    ensures NulFree(HEAD) && NulFree(VALUES) && NulFree(FROM)
  {
  }

  /** The part of dump_callback() that builds the query for a table; without columns there is none. */
  method BuildSelect(zTable: string, cols: seq<string>) returns (z: array?<char>)
    requires NulFree(zTable) && forall i | 0 <= i < |cols| :: NulFree(cols[i])
    ensures z == null <==> cols == []
    ensures cols != [] ==> HoldsAt(z, 0, SelectText(zTable, cols))
  {
    if cols == [] {
      return null;
    }
    LiteralsNulFree();
    var zSelect := BeginSelect(HEAD, zTable, VALUES);
    ghost var start := HEAD + Quoted(IdentText(zTable), '\'') + VALUES;
    zSelect := AddColumns(zSelect, cols, FROM, start);
    zSelect := AppendText(zSelect, zTable, '"', start + ColumnsFrom(cols, 0, FROM));
    SelectIs(zTable, cols);
    z := zSelect;
  }

  lemma SelectIs(zTable: string, cols: seq<string>)
    requires cols != []
    ensures HEAD + Quoted(IdentText(zTable), '\'') + VALUES + ColumnsFrom(cols, 0, FROM) + Quoted(zTable, '"')
            == SelectText(zTable, cols)
  {
    ColumnsFromIs(cols, 0);
    assert ColumnTexts(cols)[0..] == ColumnTexts(cols);
    Associate(HEAD, Quoted(IdentText(zTable), '\''), VALUES, ColumnsFrom(cols, 0, FROM), Quoted(zTable, '"'));
  }

  lemma Associate(a: string, b: string, c: string, d: string, e: string)
    ensures a + b + c + d + e == a + (b + (c + (d + e)))
  {
  }
}
