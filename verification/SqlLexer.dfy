/**
 The tokens that sqlite3_complete() tells apart, as far as its documentation does:
 literals, quoted names and comments, in which a semicolon does not count. Every
 newline of an INSERT statement that the shell prints is inside a literal.
 */
module SqlLexer {
  import opened Text
  import opened Readers
  import opened Quoting
  import opened Numerals
  import opened InsertOutput

  /** Where a text ends: outside of everything, after the first character of a possible comment, or inside something. */
  datatype Lex = Code | Slash | Dash | Quote(q: char) | Bracket | Comment | Star | Remark

  function Start(c: char): Lex {
    if c == '\'' || c == '"' || c == '`' then Quote(c)
    else if c == '[' then Bracket
    else if c == '/' then Slash
    else if c == '-' then Dash
    else Code
  }

  function Next(l: Lex, c: char): Lex {
    match l
    case Code => Start(c)
    case Slash => if c == '*' then Comment else Start(c)
    case Dash => if c == '-' then Remark else Start(c)
    case Quote(q) => if c == q then Code else l
    case Bracket => if c == ']' then Code else l
    case Comment => if c == '*' then Star else l
    case Star => if c == '/' then Code else if c == '*' then l else Comment
    case Remark => if c == '\n' then Code else l
  }

  function LexFrom(l: Lex, s: string): Lex
    decreases s
  {
    if s == "" then l else LexFrom(Next(l, s[0]), s[1..])
  }

  /**
   What sqlite3.h says of sqlite3_complete(), for the texts at hand: a text that ends
   inside a quoted literal or name is not complete, and a single INSERT statement, which
   begins no CREATE TRIGGER, is complete with a semicolon at its end.
   */
  ghost predicate Documented(complete: string -> bool) {
    && (forall t {:trigger complete(t)} | LexFrom(Code, t).Quote? :: !complete(t))
    && (forall t {:trigger complete(t + ";")} | "INSERT " <= t && Sealed(t) :: complete(t + ";"))
  }

  /** Every newline and every semicolon is inside a text literal. */
  predicate Guarded(l: Lex, s: string)
    decreases s
  {
    s == "" || ((s[0] == '\n' || s[0] == ';' ==> l == Quote('\'')) && Guarded(Next(l, s[0]), s[1..]))
  }

  lemma {:induction false} LexConcat(l: Lex, a: string, b: string)
    ensures LexFrom(l, a + b) == LexFrom(LexFrom(l, a), b)
    ensures Guarded(l, a + b) <==> Guarded(l, a) && Guarded(LexFrom(l, a), b)
    decreases a
  {
    if a == "" {
      assert a + b == b;
    } else {
      LexConcat(Next(l, a[0]), a[1..], b);
      assert (a + b)[0] == a[0] && (a + b)[1..] == a[1..] + b;
    }
  }

  lemma LexOne(l: Lex, c: char)
    ensures LexFrom(l, [c]) == Next(l, c) && (Guarded(l, [c]) <==> (c != '\n' && c != ';') || l == Quote('\''))
  {
    assert [c][1..] == "";
  }

  /** Newlines and semicolons inside literals only, and nothing left open. */
  predicate Sealed(s: string) {
    Guarded(Code, s) && LexFrom(Code, s) == Code
  }

  lemma SealedConcat(a: string, b: string)
    requires Sealed(a) && Sealed(b)
    ensures Sealed(a + b)
  {
    LexConcat(Code, a, b);
  }

  /** The same with a text literal left open. */
  predicate Unclosed(s: string) {
    Guarded(Code, s) && LexFrom(Code, s) == Quote('\'')
  }

  // ---------- what the shell prints ----------

  predicate IsPlain(c: char) {
    IsNameChar(c) || c == ' ' || c == '(' || c == ')' || c == ','
  }

  lemma {:induction false} PlainSealed(s: string)
    requires forall i | 0 <= i < |s| :: IsPlain(s[i])
    ensures Sealed(s)
  {
    if s != "" {
      PlainSealed(s[1..]);
    }
  }

  /** The body of a literal keeps it open. */
  predicate Inside(w: string) {
    Guarded(Quote('\''), w) && LexFrom(Quote('\''), w) == Quote('\'')
  }

  lemma {:induction false} DoubledInside(s: string)
    ensures Inside(Doubled(s, '\''))
  {
    if s != "" {
      DoubledInside(s[1..]);
      var d := if s[0] == '\'' then ['\'', '\''] else [s[0]];
      LexConcat(Quote('\''), d, Doubled(s[1..], '\''));
      if s[0] == '\'' {
        assert d[1..] == ['\''];
        LexOne(Code, '\'');
      } else {
        LexOne(Quote('\''), s[0]);
      }
    }
  }

  lemma {:induction false} NoQuoteInside(w: string)
    requires '\'' !in w
    ensures Inside(w)
  {
    if w != "" {
      NoQuoteInside(w[1..]);
    }
  }

  lemma LiteralSealed(w: string)
    requires Inside(w)
    ensures Sealed(['\''] + w + ['\''])
  {
    LexOne(Code, '\'');
    LexConcat(Code, ['\''], w);
    LexOne(Quote('\''), '\'');
    LexConcat(Code, ['\''] + w, ['\'']);
  }

  lemma QuotedSealed(s: string)
    ensures Sealed(Quoted(s, '\''))
  {
    DoubledInside(s);
    LiteralSealed(Doubled(s, '\''));
  }

  lemma {:induction false} HexHasNoQuote(bytes: seq<Byte>)
    ensures '\'' !in HexBytes(bytes)
  {
    if bytes != [] {
      HexHasNoQuote(bytes[1..]);
      HexDigitReadsBack(bytes[0] / 16);
      HexDigitReadsBack(bytes[0] % 16);
    }
  }

  lemma BlobSealed(bytes: seq<Byte>)
    ensures Sealed(PrintLit(BlobLit(bytes)))
  {
    HexHasNoQuote(bytes);
    NoQuoteInside(HexBytes(bytes));
    LiteralSealed(HexBytes(bytes));
    PlainSealed("X");
    SealedConcat("X", ['\''] + HexBytes(bytes) + ['\'']);
    assert PrintLit(BlobLit(bytes)) == "X" + (['\''] + HexBytes(bytes) + ['\'']);
  }

  /** In a numeral a digit follows every minus sign. */
  lemma MinusThenDigit(z: string, i: nat)
    requires IsNum(z) && i < |z| && z[i] == '-'
    ensures i + 1 < |z| && IsDigit(z[i + 1])
  {
    IsNumGrammar(z);
    var a: nat, b: nat, c: nat, s: nat :| Numeral(z, a, b, c, s);
    assert IsDigit(z[a]);
    if c < |z| {
      assert IsDigit(z[s]);
    }
  }

  lemma {:induction false} NumeralFrom(z: string, i: nat, l: Lex)
    requires IsNum(z) && i <= |z| && (l == Code || (l == Dash && i < |z| && IsDigit(z[i])))
    requires forall k | 0 <= k < |z| :: IsNumChar(z[k])
    ensures Guarded(l, z[i..]) && LexFrom(l, z[i..]) == Code
    decreases |z| - i
  {
    if i < |z| {
      if z[i] == '-' {
        MinusThenDigit(z, i);
      }
      assert z[i..][1..] == z[i + 1..];
      NumeralFrom(z, i + 1, Next(l, z[i]));
    }
  }

  /** The text of a number opens nothing: every numeral is quiet, and so are the words Inf and -Inf. */
  predicate Quiet(z: string) {
    z != "" && '\n' !in z && ';' !in z && LexFrom(Code, z) == Code
  }

  lemma NumeralQuiet(z: string)
    requires IsNum(z)
    ensures Quiet(z)
  {
    NumChars(z);
    NumeralFrom(z, 0, Code);
    assert z[0..] == z;
  }

  lemma InfinityQuiet()
    ensures Quiet("Inf") && Quiet("-Inf")
  {
    PlainSealed("Inf");
    LexOne(Code, '-');
    LexConcat(Code, "-", "Inf");
    assert "-Inf" == "-" + "Inf";
    assert LexFrom(Dash, "Inf") == LexFrom(Code, "Inf");
  }

  lemma {:induction false} PlainGuarded(l: Lex, z: string)
    requires '\n' !in z && ';' !in z
    ensures Guarded(l, z)
    decreases z
  {
    if z != "" {
      PlainGuarded(Next(l, z[0]), z[1..]);
    }
  }

  /** The numbers of a row are quiet. */
  predicate QuietRow(ls: seq<Literal>) {
    forall i | 0 <= i < |ls| :: ls[i].NumLit? ==> Quiet(ls[i].s)
  }

  lemma FaithfulIsQuiet(ls: seq<Literal>)
    requires FaithfulRow(ls)
    ensures QuietRow(ls)
  {
    forall i | 0 <= i < |ls| && ls[i].NumLit? ensures Quiet(ls[i].s) {
      assert Faithful(ls[i]);
      NumeralQuiet(ls[i].s);
    }
  }

  lemma LitSealed(l: Literal)
    requires l.NumLit? ==> Quiet(l.s)
    ensures Sealed(PrintLit(l))
  {
    match l
    case NullLit => PlainSealed("NULL");
    case TextLit(s) => QuotedSealed(s);
    case NumLit(s) => PlainGuarded(Code, s);
    case BlobLit(bytes) => BlobSealed(bytes);
  }

  // ---------- a statement without its semicolon ----------

  /** The values of a row and the parenthesis that closes them. */
  function ValueList(ls: seq<Literal>): string {
    if ls == [] then ")" else PrintItems(LitTexts(ls), ")")
  }

  function InsertBody(name: string, ls: seq<Literal>): string {
    "INSERT INTO " + (DestName(name) + (" VALUES(" + ValueList(ls)))
  }

  lemma {:induction false} ItemsClose(ws: seq<string>, close: string, more: string)
    requires ws != []
    ensures PrintItems(ws, close + more) == PrintItems(ws, close) + more
  {
    if |ws| > 1 {
      ItemsClose(ws[1..], close, more);
      Reassociate(",", PrintItems(ws[1..], close), more);
      Reassociate(ws[0], "," + PrintItems(ws[1..], close), more);
    } else {
      Reassociate(ws[0], close, more);
    }
  }

  /** A printed statement is its body, a semicolon and a newline. */
  lemma PrintInsertIs(name: string, ls: seq<Literal>)
    ensures PrintInsert(name, ls) == InsertBody(name, ls) + ";\n"
  {
    assert CLOSE == ")" + ";\n";
    if ls != [] {
      ItemsClose(LitTexts(ls), ")", ";\n");
    }
    InsertText("INSERT INTO ", DestName(name), " VALUES(", ValueList(ls), ";\n");
  }

  lemma {:induction false} ItemsSealed(ws: seq<string>)
    requires ws != [] && forall i | 0 <= i < |ws| :: Sealed(ws[i])
    ensures Sealed(PrintItems(ws, ")"))
  {
    if |ws| > 1 {
      ItemsSealed(ws[1..]);
      PlainSealed(",");
      SealedConcat(",", PrintItems(ws[1..], ")"));
      SealedConcat(ws[0], "," + PrintItems(ws[1..], ")"));
    } else {
      PlainSealed(")");
      SealedConcat(ws[0], ")");
    }
  }

  lemma ValuesSealed(ls: seq<Literal>)
    requires QuietRow(ls)
    ensures Sealed(ValueList(ls))
  {
    if ls == [] {
      PlainSealed(")");
    } else {
      forall i | 0 <= i < |ls| ensures Sealed(LitTexts(ls)[i]) {
        LitSealed(ls[i]);
      }
      ItemsSealed(LitTexts(ls));
    }
  }

  lemma NameSealed(name: string)
    ensures Sealed(DestName(name))
  {
    if PlainName(name) {
      PlainSealed(name);
    } else {
      QuotedSealed(name);
    }
  }

  /** Outside its literals a printed statement holds no newline, and nothing is open before its semicolon. */
  lemma BodySealed(name: string, ls: seq<Literal>)
    requires QuietRow(ls)
    ensures Sealed(InsertBody(name, ls)) && "INSERT " <= InsertBody(name, ls)
  {
    ValuesSealed(ls);
    NameSealed(name);
    SealedAround("INSERT INTO ", DestName(name), " VALUES(", ValueList(ls));
  }

  lemma SealedAround(a: string, b: string, c: string, d: string)
    requires (forall i | 0 <= i < |a| :: IsPlain(a[i])) && Sealed(b) && (forall i | 0 <= i < |c| :: IsPlain(c[i])) && Sealed(d)
    ensures Sealed(a + (b + (c + d)))
  {
    PlainSealed(a);
    PlainSealed(c);
    SealedConcat(c, d);
    SealedConcat(b, c + d);
    SealedConcat(a, b + (c + d));
  }
}
