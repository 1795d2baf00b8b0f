/**
 MODE_Insert: query rows printed as INSERT statements, and a reader of such
 statements that works one literal at a time.
 */
module InsertOutput {
  import opened Text
  import opened Readers
  import opened ShellState
  import opened Quoting
  import opened Numerals

  type Byte = n: int | 0 <= n < 256

  /** The value a printed literal stands for. A number is its numeral, a blob its bytes. */
  datatype Literal = NullLit | TextLit(s: string) | NumLit(s: string) | BlobLit(bytes: seq<Byte>)

  // ---------- printing ----------

  function HexDigit(d: nat): char
    requires d < 16
  {
    if d < 10 then ('0' as int + d) as char else ('a' as int + d - 10) as char
  }

  /** `%02x` of one char of a blob: char is signed, so a byte from 0x80 up is promoted to a negative int. */
  function HexByte(b: Byte): string {
    (if b < 0x80 then "" else "ffffff") + [HexDigit(b / 16), HexDigit(b % 16)]
  }

  function HexBytes(bytes: seq<Byte>): string {
    if bytes == [] then "" else HexByte(bytes[0]) + HexBytes(bytes[1..])
  }

  function PrintLit(l: Literal): string {
    match l
    case NullLit => "NULL"
    case TextLit(s) => Quoted(s, '\'')
    case NumLit(s) => s
    case BlobLit(bytes) => "X'" + (HexBytes(bytes) + "'")
  }

  function LitTexts(ls: seq<Literal>): seq<string> {
    seq(|ls|, i requires 0 <= i < |ls| => PrintLit(ls[i]))
  }

  /** The values of a row and the end of the statement. */
  function PrintLits(ls: seq<Literal>): string {
    if ls == [] then CLOSE else PrintItems(LitTexts(ls), CLOSE)
  }

  const CLOSE := ");\n"

  function PrintInsert(name: string, ls: seq<Literal>): string {
    "INSERT INTO " + (DestName(name) + (" VALUES(" + PrintLits(ls)))
  }

  // ---------- reading ----------

  function HexValue(c: char): Option<nat> {
    if '0' <= c <= '9' then Some(c as int - '0' as int)
    else if 'a' <= c <= 'f' then Some(c as int - 'a' as int + 10)
    else None
  }

  /** Pairs of hex digits up to the closing quote. */
  function ReadHex(t: string): (r: Read<seq<Byte>>)
    ensures r.Got? ==> |r.rest| < |t|
  {
    if t != "" && t[0] == '\'' then Got([], t[1..])
    else if |t| < 2 || HexValue(t[0]).None? || HexValue(t[1]).None? then Fail
    else
      var r := ReadHex(t[2..]);
      if r.Fail? then Fail
      else Got([HexValue(t[0]).value * 16 + HexValue(t[1]).value] + r.value, r.rest)
  }

  function ReadNumber(t: string): (r: Read<Literal>)
    ensures r.Got? ==> |r.rest| < |t| && r.value.NumLit? && IsNum(r.value.s)
  {
    var n := RunLen(t, IsNumChar);
    if IsNum(t[..n]) then Got(NumLit(t[..n]), t[n..]) else Fail
  }

  function ReadLit(t: string): (r: Read<Literal>)
    ensures r.Got? ==> |r.rest| < |t|
  {
    if "NULL" <= t then Got(NullLit, t[4..])
    else if "'" <= t then
      var r := ReadQuoted(t[1..], '\'');
      if r.Fail? then Fail else Got(TextLit(r.value), r.rest)
    else if "X'" <= t then
      var r := ReadHex(t[2..]);
      if r.Fail? then Fail else Got(BlobLit(r.value), r.rest)
    else ReadNumber(t)
  }

  function ReadLits(t: string): (r: Read<seq<Literal>>)
    ensures r.Got? ==> |r.rest| < |t|
  {
    var e := Expect(t, ");\n");
    if e.Got? then Got([], e.rest) else ReadItems(t, ReadLit, ");\n")
  }

  function ReadName(t: string): (r: Read<string>)
    ensures r.Got? ==> |r.rest| < |t|
  {
    if "'" <= t then ReadQuoted(t[1..], '\'')
    else
      var n := RunLen(t, IsNameChar);
      if PlainName(t[..n]) then Got(t[..n], t[n..]) else Fail
  }

  function ReadInsert(t: string): (r: Read<(string, seq<Literal>)>)
    ensures r.Got? ==> |r.rest| < |t|
  {
    var a := Expect(t, "INSERT INTO ");
    if a.Fail? then Fail else
    var name := ReadName(a.rest);
    if name.Fail? then Fail else
    var b := Expect(name.rest, " VALUES(");
    if b.Fail? then Fail else
    var ls := ReadLits(b.rest);
    if ls.Fail? then Fail else Got((name.value, ls.value), ls.rest)
  }

  // ---------- reading back ----------

  lemma HexDigitReadsBack(d: nat)
    requires d < 16
    ensures HexValue(HexDigit(d)) == Some(d) && HexDigit(d) != '\''
  {
  }

  /** The bytes that the printed form of a blob stands for. */
  function Widened(bytes: seq<Byte>): seq<Byte> {
    if bytes == [] then [] else WideByte(bytes[0]) + Widened(bytes[1..])
  }

  function WideByte(b: Byte): seq<Byte> {
    if b < 0x80 then [b] else [255, 255, 255, b]
  }

  lemma HexPair(h: nat, l: nat, t: string, v: seq<Byte>, rest: string)
    requires h < 16 && l < 16 && ReadHex(t) == Got(v, rest)
    ensures ReadHex([HexDigit(h), HexDigit(l)] + t) == Got([h * 16 + l] + v, rest)
  {
    HexDigitReadsBack(h);
    HexDigitReadsBack(l);
    assert ([HexDigit(h), HexDigit(l)] + t)[2..] == t;
  }

  lemma HexFF(t: string, v: seq<Byte>, rest: string)
    requires ReadHex(t) == Got(v, rest)
    ensures ReadHex("ff" + t) == Got([255] + v, rest)
  {
    HexPair(15, 15, t, v, rest);
    assert "ff" == [HexDigit(15), HexDigit(15)];
  }

  lemma HexHigh(b: Byte, t: string, v: seq<Byte>, rest: string)
    requires ReadHex(t) == Got([b] + v, rest)
    ensures ReadHex("ffffff" + t) == Got([255, 255, 255, b] + v, rest)
  {
    HexFF(t, [b] + v, rest);
    HexFF("ff" + t, [255] + ([b] + v), rest);
    HexFF("ff" + ("ff" + t), [255] + ([255] + ([b] + v)), rest);
    assert "ffffff" + t == "ff" + ("ff" + ("ff" + t));
    assert [255] + ([255] + ([255] + ([b] + v))) == [255, 255, 255, b] + v;
  }

  lemma HexByteReadsWide(b: Byte, t: string, v: seq<Byte>, rest: string)
    requires ReadHex(t) == Got(v, rest)
    ensures ReadHex(HexByte(b) + t) == Got(WideByte(b) + v, rest)
  {
    var two := [HexDigit(b / 16), HexDigit(b % 16)];
    HexPair(b / 16, b % 16, t, v, rest);
    if b >= 0x80 {
      HexHigh(b, two + t, v, rest);
      Reassociate("ffffff", two, t);
    }
  }

  lemma {:induction false} HexReadsWide(bytes: seq<Byte>, rest: string)
    ensures ReadHex(HexBytes(bytes) + ("'" + rest)) == Got(Widened(bytes), rest)
  {
    if bytes == [] {
      assert HexBytes(bytes) + ("'" + rest) == "'" + rest;
    } else {
      var t := HexBytes(bytes[1..]) + ("'" + rest);
      HexReadsWide(bytes[1..], rest);
      HexByteReadsWide(bytes[0], t, Widened(bytes[1..]), rest);
      Reassociate(HexByte(bytes[0]), HexBytes(bytes[1..]), "'" + rest);
    }
  }

  predicate Ascii(bytes: seq<Byte>) {
    forall i | 0 <= i < |bytes| :: bytes[i] < 0x80
  }

  lemma {:induction false} WidenedSame(bytes: seq<Byte>)
    ensures |Widened(bytes)| >= |bytes|
    ensures Widened(bytes) == bytes <==> Ascii(bytes)
  {
    if bytes != [] {
      WidenedSame(bytes[1..]);
      assert bytes == [bytes[0]] + bytes[1..];
      if bytes[0] < 0x80 {
        assert Widened(bytes)[1..] == Widened(bytes[1..]);
        assert Ascii(bytes) <==> Ascii(bytes[1..]);
      } else {
        assert |Widened(bytes)| > |bytes|;
      }
    }
  }

  /** Literals that read back: a number must be a numeral, a blob must stay below 0x80. */
  predicate Faithful(l: Literal) {
    && (l.NumLit? ==> IsNum(l.s))
    && (l.BlobLit? ==> Ascii(l.bytes))
  }

  /** What follows a literal in a statement. */
  predicate Delimited(rest: string) {
    rest != "" && (rest[0] == ',' || rest[0] == ')')
  }

  lemma NumReadsBack(s: string, rest: string)
    requires IsNum(s) && Delimited(rest)
    ensures ReadLit(s + rest) == Got(NumLit(s), rest)
  {
    NumChars(s);
    RunLenIs(s, IsNumChar, rest);
    assert (s + rest)[0] == s[0];
  }

  lemma BlobReadsWide(bytes: seq<Byte>, rest: string)
    ensures ReadLit(PrintLit(BlobLit(bytes)) + rest) == Got(BlobLit(Widened(bytes)), rest)
  {
    var u := HexBytes(bytes) + ("'" + rest);
    var t := "X'" + u;
    assert PrintLit(BlobLit(bytes)) + rest == t;
    HexReadsWide(bytes, rest);
    assert t[0] == 'X' && t[2..] == u;
  }

  lemma TextReadsBack(s: string, rest: string)
    requires Delimited(rest)
    ensures ReadLit(PrintLit(TextLit(s)) + rest) == Got(TextLit(s), rest)
  {
    QuotedReadsBack(s, '\'', rest);
    var t := Quoted(s, '\'') + rest;
    assert t[1..] == Doubled(s, '\'') + ['\''] + rest;
  }

  /** A printed literal is read as itself exactly when it is faithful; otherwise the reader fails or finds another literal. */
  lemma LitReadsBack(l: Literal, rest: string)
    requires Delimited(rest)
    ensures Faithful(l) ==> ReadLit(PrintLit(l) + rest) == Got(l, rest)
    ensures !Faithful(l) ==> var r := ReadLit(PrintLit(l) + rest); r.Fail? || r.value != l
  {
    match l
    case NullLit =>
      assert ("NULL" + rest)[4..] == rest;
    case TextLit(s) =>
      TextReadsBack(s, rest);
    case NumLit(s) =>
      if IsNum(s) {
        NumReadsBack(s, rest);
      }
    case BlobLit(bytes) =>
      BlobReadsWide(bytes, rest);
      WidenedSame(bytes);
  }

  /** Every literal of the row is faithful. */
  predicate FaithfulRow(ls: seq<Literal>) {
    forall i | 0 <= i < |ls| :: Faithful(ls[i])
  }

  lemma LitsReadBack(ls: seq<Literal>, rest: string)
    ensures Verdict(ReadLits(PrintLits(ls) + rest), ls, rest, FaithfulRow(ls))
  {
    if ls == [] {
      ExpectFinds(CLOSE, rest);
    } else {
      var good := seq(|ls|, i requires 0 <= i < |ls| => Faithful(ls[i]));
      forall i | 0 <= i < |ls|
        ensures ItemReads(ReadLit, ls[i], LitTexts(ls)[i], good[i], CLOSE)
      {
        forall r: string | r != "" && (r[0] == ',' || CLOSE <= r)
          ensures Verdict(ReadLit(PrintLit(ls[i]) + r), ls[i], r, Faithful(ls[i]))
        {
          LitReadsBack(ls[i], r);
        }
      }
      ItemsReadBack(ls, LitTexts(ls), good, rest, ReadLit, CLOSE);
      if FaithfulRow(ls) {
        LitNotClosed(ls[0]);
        assert (PrintLits(ls) + rest)[0] == PrintLit(ls[0])[0];
      }
    }
  }

  /** No faithful literal starts like the end of the statement. */
  lemma LitNotClosed(l: Literal)
    requires Faithful(l)
    ensures PrintLit(l) != "" && PrintLit(l)[0] != ')'
  {
    if l.NumLit? {
      NumChars(l.s);
    }
  }

  lemma NameReadsBack(name: string, rest: string)
    requires rest != "" && rest[0] == ' '
    ensures ReadName(DestName(name) + rest) == Got(name, rest)
  {
    var t := DestName(name) + rest;
    if PlainName(name) {
      RunLenIs(name, IsNameChar, rest);
      assert t[0] == name[0];
    } else {
      QuotedReadsBack(name, '\'', rest);
      assert t[1..] == Doubled(name, '\'') + ['\''] + rest;
    }
  }

  /** With the name and its surroundings read, the rest of a statement is its list of literals. */
  lemma InsertHeadReads(dest: string, name: string, u: string)
    requires ReadName(dest + (" VALUES(" + u)) == Got(name, " VALUES(" + u)
    ensures ReadInsert("INSERT INTO " + (dest + (" VALUES(" + u)))
            == var ls := ReadLits(u); if ls.Fail? then Fail else Got((name, ls.value), ls.rest)
  {
    ExpectFinds("INSERT INTO ", dest + (" VALUES(" + u));
    ExpectFinds(" VALUES(", u);
  }

  lemma InsertText(a: string, b: string, c: string, d: string, e: string)
    ensures a + (b + (c + d)) + e == a + (b + (c + (d + e)))
  {
    Reassociate(c, d, e);
    Reassociate(b, c + d, e);
    Reassociate(a, b + (c + d), e);
  }

  /**
   A printed INSERT statement is read back, name and values, exactly when every
   number is a numeral and every blob stays below 0x80. Whatever a text holds, it
   cannot end its literal early, and the text NULL is not the value NULL.
   */
  lemma InsertReadsBack(name: string, ls: seq<Literal>, rest: string)
    ensures Verdict(ReadInsert(PrintInsert(name, ls) + rest), (name, ls), rest, FaithfulRow(ls))
  {
    var u := PrintLits(ls) + rest;
    InsertText("INSERT INTO ", DestName(name), " VALUES(", PrintLits(ls), rest);
    NameReadsBack(name, " VALUES(" + u);
    InsertHeadReads(DestName(name), name, u);
    LitsReadBack(ls, rest);
  }

  lemma InsertAlwaysReads(name: string, ls: seq<Literal>)
    ensures AlwaysReads(ReadInsert, (name, ls), PrintInsert(name, ls), FaithfulRow(ls))
  {
    forall rest ensures Verdict(ReadInsert(PrintInsert(name, ls) + rest), (name, ls), rest, FaithfulRow(ls)) {
      InsertReadsBack(name, ls, rest);
    }
  }

  /** The statements that a query prints. */
  function PrintInserts(name: string, rows: seq<seq<Literal>>): string {
    if rows == [] then "" else PrintInsert(name, rows[0]) + PrintInserts(name, rows[1..])
  }

  lemma {:induction false} PrintInsertsIs(name: string, rows: seq<seq<Literal>>)
    ensures PrintInserts(name, rows) == Flatten(Map(ls => PrintInsert(name, ls), rows))
  {
    if rows != [] {
      PrintInsertsIs(name, rows[1..]);
    }
  }

  /** The output of a whole query is read back, statement by statement, exactly when every row is faithful. */
  lemma InsertsReadBack(name: string, rows: seq<seq<Literal>>)
    ensures ReadAll(PrintInserts(name, rows), ReadInsert) == Some(Map(ls => (name, ls), rows))
            <==> forall i | 0 <= i < |rows| :: FaithfulRow(rows[i])
  {
    forall ls: seq<Literal> ensures AlwaysReads(ReadInsert, (name, ls), PrintInsert(name, ls), FaithfulRow(ls)) {
      InsertAlwaysReads(name, ls);
    }
    PrintInsertsIs(name, rows);
    AllReadBack(rows, ls => (name, ls), ls => PrintInsert(name, ls), FaithfulRow, ReadInsert);
  }

  /** A blob from 0x80 up does not read back. */
  lemma HighBlobFails(rest: string)
    requires Delimited(rest)
    ensures PrintLit(BlobLit([0x80])) == "X'ffffff80'"
    ensures ReadLit(PrintLit(BlobLit([0x80])) + rest) == Got(BlobLit([255, 255, 255, 0x80]), rest)
  {
    var b: seq<Byte> := [0x80];
    BlobReadsWide(b, rest);
    assert b[1..] == [];
    assert Widened(b) == WideByte(b[0]) + Widened(b[1..]) == [255, 255, 255, 0x80];
  }

  /** Nor does a number that prints as Inf: no reader of numerals takes it. */
  lemma InfinityFails(rest: string)
    requires Delimited(rest)
    ensures ReadLit(PrintLit(NumLit("Inf")) + rest).Fail?
  {
    var t := PrintLit(NumLit("Inf")) + rest;
    assert t[0] == 'I' && t[..0] == "";
  }

  // ---------- shell_callback in MODE_Insert ----------

  datatype SqlType = IntegerType | FloatType | TextType | BlobType | NullType

  /** The literal chosen for a column: its text, its type if types are known, its bytes if a statement is at hand. */
  function ColumnLit(arg: Option<string>, ty: Option<SqlType>, stmt: bool, blob: seq<Byte>): Literal {
    if arg.None? || ty == Some(NullType) then NullLit
    else if ty == Some(TextType) then TextLit(arg.value)
    else if ty == Some(IntegerType) || ty == Some(FloatType) then NumLit(arg.value)
    else if ty == Some(BlobType) && stmt then BlobLit(blob)
    else if IsNum(arg.value) then NumLit(arg.value)
    else TextLit(arg.value)
  }

  /**
   What a column stands for, by its text, its type, and its bytes if a statement is at hand: NULL if it has no text or is
   NULL, its text if it is TEXT, a number if it is INTEGER or FLOAT, its bytes if it is a blob; and where nothing
   is known of it, a number if it looks like one and a text otherwise.
   */
  ghost predicate ColumnIs(arg: Option<string>, ty: Option<SqlType>, stmt: bool, blob: seq<Byte>, l: Literal) {
    && (l == NullLit <==> arg.None? || ty == Some(NullType))
    && (arg.Some? && ty == Some(TextType) ==> l == TextLit(arg.value))
    && (arg.Some? && (ty == Some(IntegerType) || ty == Some(FloatType)) ==> l == NumLit(arg.value))
    && (arg.Some? && ty == Some(BlobType) && stmt ==> l == BlobLit(blob))
    && (arg.Some? && (ty.None? || (ty == Some(BlobType) && !stmt)) && IsNum(arg.value) ==> l == NumLit(arg.value))
    && (arg.Some? && (ty.None? || (ty == Some(BlobType) && !stmt)) && !IsNum(arg.value) ==> l == TextLit(arg.value))
  }

  /** INTEGER and FLOAT values are numerals, and the bytes of blobs are below 0x80. */
  ghost predicate ColumnPrintable(arg: Option<string>, ty: Option<SqlType>, stmt: bool, blob: seq<Byte>) {
    && (arg.Some? && (ty == Some(IntegerType) || ty == Some(FloatType)) ==> IsNum(arg.value))
    && (arg.Some? && ty == Some(BlobType) && stmt ==> forall i | 0 <= i < |blob| :: blob[i] < 0x80)
  }

  /** The literal chosen is what the column stands for, and nothing else is. */
  lemma ColumnMeans(arg: Option<string>, ty: Option<SqlType>, stmt: bool, blob: seq<Byte>, l: Literal)
    ensures ColumnIs(arg, ty, stmt, blob, l) <==> l == ColumnLit(arg, ty, stmt, blob)
    ensures Faithful(ColumnLit(arg, ty, stmt, blob)) <==> ColumnPrintable(arg, ty, stmt, blob)
  {
    match ty
    case None =>
    case Some(IntegerType) =>
    case Some(FloatType) =>
    case Some(TextType) =>
    case Some(BlobType) =>
    case Some(NullType) =>
  }

  /** What a reader makes of a column that was printed before `rest`. */
  ghost predicate ColumnReadAs(arg: Option<string>, ty: Option<SqlType>, stmt: bool, blob: seq<Byte>, r: Read<Literal>, rest: string) {
    && (ColumnPrintable(arg, ty, stmt, blob) ==> r.Got? && r.rest == rest && ColumnIs(arg, ty, stmt, blob, r.value))
    && (!ColumnPrintable(arg, ty, stmt, blob) ==> r.Fail? || !ColumnIs(arg, ty, stmt, blob, r.value))
    && (arg.Some? && ty == Some(BlobType) && stmt ==> r == Got(BlobLit(Widened(blob)), rest))
  }

  lemma ColumnReads(arg: Option<string>, ty: Option<SqlType>, stmt: bool, blob: seq<Byte>, rest: string)
    requires Delimited(rest)
    ensures ColumnReadAs(arg, ty, stmt, blob, ReadLit(PrintLit(ColumnLit(arg, ty, stmt, blob)) + rest), rest)
  {
    var l := ColumnLit(arg, ty, stmt, blob);
    var r := ReadLit(PrintLit(l) + rest);
    ColumnMeans(arg, ty, stmt, blob, l);
    LitReadsBack(l, rest);
    if r.Got? {
      ColumnMeans(arg, ty, stmt, blob, r.value);
    }
    if l.BlobLit? {
      BlobReadsWide(l.bytes, rest);
    }
  }

  /** A result row as the callback sees it. */
  datatype Row = Row(args: seq<Option<string>>, types: Option<seq<SqlType>>, blobs: seq<seq<Byte>>) {
    ghost predicate Valid() {
      && (types.Some? ==> |types.value| == |args|)
      && |blobs| == |args|
      && forall i | 0 <= i < |args| :: args[i].Some? ==> NulFree(args[i].value)
    }

    function TypeOf(i: nat): Option<SqlType>
      requires Valid() && i < |args|
    {
      if types.None? then None else Some(types.value[i])
    }

    function Lits(stmt: bool): (ls: seq<Literal>)
      requires Valid()
      ensures |ls| == |args|
    {
      seq(|args|, i requires 0 <= i < |args| => ColumnLit(args[i], TypeOf(i), stmt, blobs[i]))
    }

    /** The literals are what the columns stand for. */
    ghost predicate Means(stmt: bool, ls: seq<Literal>)
      requires Valid()
    {
      |ls| == |args| && forall k | 0 <= k < |args| :: ColumnIs(args[k], TypeOf(k), stmt, blobs[k], ls[k])
    }

    ghost predicate Printable(stmt: bool)
      requires Valid()
    {
      forall k | 0 <= k < |args| :: ColumnPrintable(args[k], TypeOf(k), stmt, blobs[k])
    }
  }

  /** output_hex_blob() */
  method OutputHexBlob(bytes: seq<Byte>) returns (out: string)
    ensures out == PrintLit(BlobLit(bytes))
  {
    out := "X'";
    var i := 0;
    while i < |bytes|
      invariant 0 <= i <= |bytes|
      invariant out + HexBytes(bytes[i..]) == "X'" + HexBytes(bytes)
    {
      assert out + HexBytes(bytes[i..]) == out + HexByte(bytes[i]) + HexBytes(bytes[i..][1..]);
      assert bytes[i..][1..] == bytes[i + 1..];
      out := out + HexByte(bytes[i]);
      i := i + 1;
    }
    assert out == out + HexBytes(bytes[i..]) == "X'" + HexBytes(bytes);
    out := out + "'";
  }

  /** The branches that print one column, without its separator. */
  method OutputColumn(arg: Option<string>, ty: Option<SqlType>, stmt: bool, blob: seq<Byte>) returns (out: string)
    requires arg.Some? ==> NulFree(arg.value)
    ensures out == PrintLit(ColumnLit(arg, ty, stmt, blob))
    ensures forall rest | Delimited(rest) :: ColumnReadAs(arg, ty, stmt, blob, ReadLit(out + rest), rest)
  {
    forall rest | Delimited(rest)
      ensures ColumnReadAs(arg, ty, stmt, blob, ReadLit(PrintLit(ColumnLit(arg, ty, stmt, blob)) + rest), rest)
    {
      ColumnReads(arg, ty, stmt, blob, rest);
    }
    if arg.None? || ty == Some(NullType) {
      out := "NULL";
    } else if ty == Some(TextType) {
      out := OutputQuotedString(arg.value);
    } else if ty == Some(IntegerType) || ty == Some(FloatType) {
      out := arg.value;
    } else if ty == Some(BlobType) && stmt {
      out := OutputHexBlob(blob);
    } else {
      var num, _ := IsNumber(arg.value, 0);
      if num {
        out := arg.value;
      } else {
        out := OutputQuotedString(arg.value);
      }
    }
  }

  /** What is still to be printed of a list before item `i`. */
  function ItemsFrom(ws: seq<string>, i: nat): string
    requires i <= |ws|
  {
    if i == |ws| then CLOSE else (if i > 0 then "," else "") + PrintItems(ws[i..], CLOSE)
  }

  lemma ItemsFromNext(ws: seq<string>, i: nat, out: string)
    requires i < |ws|
    ensures out + ItemsFrom(ws, i) == out + ((if i > 0 then "," else "") + ws[i]) + ItemsFrom(ws, i + 1)
  {
    var a, w, more := if i > 0 then "," else "", ws[i], ItemsFrom(ws, i + 1);
    assert ws[i..][1..] == ws[i + 1..];
    assert ItemsFrom(ws, i) == a + (w + more);
    Reassociate(a, w, more);
    Reassociate(out, a + w, more);
  }

  lemma ItemsFromStart(ls: seq<Literal>)
    ensures ItemsFrom(LitTexts(ls), 0) == PrintLits(ls)
  {
    assert LitTexts(ls)[0..] == LitTexts(ls);
  }

  /** The loop over the columns of a row, and the end of the statement. */
  method OutputColumns(r: Row, stmt: bool, ghost ws: seq<string>) returns (out: string)
    requires r.Valid() && ws == LitTexts(r.Lits(stmt))
    ensures out == PrintLits(r.Lits(stmt))
  {
    ItemsFromStart(r.Lits(stmt));
    out := "";
    var i := 0;
    while i < |r.args|
      invariant 0 <= i <= |r.args|
      invariant out + ItemsFrom(ws, i) == ItemsFrom(ws, 0)
    {
      ItemsFromNext(ws, i, out);
      var lit := OutputColumn(r.args[i], r.TypeOf(i), stmt, r.blobs[i]);
      out := out + ((if i > 0 then "," else "") + lit);
      i := i + 1;
    }
    out := out + ");\n";
  }

  /** shell_callback() in MODE_Insert, with the destination that set_table_name() left for `name`; a null row only counts. */
  method InsertCallback(p: CallbackData, row: Option<Row>, ghost name: string)
    requires row.Some? ==> row.value.Valid()
    requires p.zDestTable == Some(DestName(name))
    modifies p`cnt, p`out
    ensures p.cnt == old(p.cnt) + 1
    ensures row.None? ==> p.out == old(p.out)
    ensures row.Some? ==> p.out == old(p.out) + PrintInsert(name, row.value.Lits(p.pStmt.Some?))
  {
    p.cnt := p.cnt + 1;
    if row.None? {
      return;
    }
    var values := OutputColumns(row.value, p.pStmt.Some?, LitTexts(row.value.Lits(p.pStmt.Some?)));
    p.out := p.out + ("INSERT INTO " + (p.zDestTable.value + (" VALUES(" + values)));
  }

  /** The literals of all rows of a query. */
  function RowLits(rows: seq<Row>, stmt: bool): (r: seq<seq<Literal>>)
    requires forall i | 0 <= i < |rows| :: rows[i].Valid()
  {
    seq(|rows|, i requires 0 <= i < |rows| => rows[i].Lits(stmt))
  }

  lemma PrintInsertsNext(name: string, rows: seq<seq<Literal>>, i: nat, out: string)
    requires i < |rows|
    ensures out + PrintInserts(name, rows[i..]) == out + PrintInsert(name, rows[i]) + PrintInserts(name, rows[i + 1..])
  {
    assert rows[i..][1..] == rows[i + 1..];
    Reassociate(out, PrintInsert(name, rows[i]), PrintInserts(name, rows[i + 1..]));
  }

  method PrintRows(p: CallbackData, rows: seq<Row>, ghost name: string, ghost lits: seq<seq<Literal>>)
    requires p.zDestTable == Some(DestName(name)) && forall i | 0 <= i < |rows| :: rows[i].Valid()
    requires lits == RowLits(rows, p.pStmt.Some?)
    modifies p`cnt, p`out
    ensures p.cnt == old(p.cnt) + |rows| && p.out == old(p.out) + PrintInserts(name, lits)
  {
    ghost var goal := p.out + PrintInserts(name, lits);
    assert lits[0..] == lits;
    var i := 0;
    while i < |rows|
      invariant 0 <= i <= |rows| && p.cnt == old(p.cnt) + i
      invariant p.out + PrintInserts(name, lits[i..]) == goal
    {
      PrintInsertsNext(name, lits, i, p.out);
      InsertCallback(p, Some(rows[i]), name);
      i := i + 1;
    }
    assert lits[i..] == [];
  }

  lemma RowMeansLits(r: Row, stmt: bool, ls: seq<Literal>)
    requires r.Valid()
    ensures r.Means(stmt, ls) <==> ls == r.Lits(stmt)
    ensures r.Printable(stmt) <==> FaithfulRow(r.Lits(stmt))
  {
    forall k | 0 <= k < |r.args| && k < |ls|
      ensures ColumnIs(r.args[k], r.TypeOf(k), stmt, r.blobs[k], ls[k]) <==> ls[k] == r.Lits(stmt)[k]
    {
      ColumnMeans(r.args[k], r.TypeOf(k), stmt, r.blobs[k], ls[k]);
    }
    forall k | 0 <= k < |r.args|
      ensures ColumnPrintable(r.args[k], r.TypeOf(k), stmt, r.blobs[k]) <==> Faithful(r.Lits(stmt)[k])
    {
      ColumnMeans(r.args[k], r.TypeOf(k), stmt, r.blobs[k], NullLit);
    }
  }

  /** Statements, one for each row, for the table and with the values of the row. */
  ghost predicate RowsMean(rows: seq<Row>, stmt: bool, name: string, got: seq<(string, seq<Literal>)>)
    requires forall i | 0 <= i < |rows| :: rows[i].Valid()
  {
    |got| == |rows| && forall i | 0 <= i < |rows| :: got[i].0 == name && rows[i].Means(stmt, got[i].1)
  }

  lemma RowsMeanLits(rows: seq<Row>, stmt: bool, name: string, got: seq<(string, seq<Literal>)>)
    requires forall i | 0 <= i < |rows| :: rows[i].Valid()
    ensures RowsMean(rows, stmt, name, got) <==> got == Map(ls => (name, ls), RowLits(rows, stmt))
    ensures (forall i | 0 <= i < |rows| :: rows[i].Printable(stmt)) <==> forall i | 0 <= i < |rows| :: FaithfulRow(RowLits(rows, stmt)[i])
  {
    var want := Map(ls => (name, ls), RowLits(rows, stmt));
    forall i | 0 <= i < |rows| && i < |got| ensures got[i].0 == name && rows[i].Means(stmt, got[i].1) <==> got[i] == want[i] {
      RowMeansLits(rows[i], stmt, got[i].1);
    }
    forall i | 0 <= i < |rows| ensures rows[i].Printable(stmt) <==> FaithfulRow(RowLits(rows, stmt)[i]) {
      RowMeansLits(rows[i], stmt, []);
    }
  }

  /**
   The callback on every row of a query. What it adds to the output is read back, the
   name and what every column of every row stands for, exactly when every row is printable.
   */
  method InsertRows(p: CallbackData, rows: seq<Row>, ghost name: string)
    requires p.zDestTable == Some(DestName(name)) && forall i | 0 <= i < |rows| :: rows[i].Valid()
    modifies p`cnt, p`out
    ensures var lits := RowLits(rows, p.pStmt.Some?);
            && p.cnt == old(p.cnt) + |rows| && p.out == old(p.out) + PrintInserts(name, lits)
            && (ReadAll(p.out[|old(p.out)|..], ReadInsert) == Some(Map(ls => (name, ls), lits))
                <==> forall i | 0 <= i < |lits| :: FaithfulRow(lits[i]))
    ensures var got := ReadAll(p.out[|old(p.out)|..], ReadInsert);
            got.Some? && RowsMean(rows, p.pStmt.Some?, name, got.value)
            <==> forall i | 0 <= i < |rows| :: rows[i].Printable(p.pStmt.Some?)
  {
    ghost var lits := RowLits(rows, p.pStmt.Some?);
    PrintRows(p, rows, name, lits);
    assert p.out[|old(p.out)|..] == PrintInserts(name, lits);
    InsertsReadBack(name, lits);
    ghost var got := ReadAll(p.out[|old(p.out)|..], ReadInsert);
    RowsMeanLits(rows, p.pStmt.Some?, name, if got.Some? then got.value else []);
  }
}
