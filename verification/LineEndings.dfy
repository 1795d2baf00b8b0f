/**
 The carriage returns that local_getline() drops, one before every newline, and
 what that makes of a printed INSERT statement.
 */
module LineEndings {
  import opened Text
  import opened Readers
  import opened LineReader
  import opened Quoting
  import opened InsertOutput
  import opened SqlLexer

  /** A text without one carriage return before each of its newlines. */
  function Unix(s: string): (r: string)
    ensures |r| <= |s|
  {
    if s == "" then ""
    else if s[0] == '\r' && |s| > 1 && s[1] == '\n' then Unix(s[1..])
    else [s[0]] + Unix(s[1..])
  }

  predicate HasCrLf(s: string) {
    exists i | 0 <= i < |s| - 1 :: s[i] == '\r' && s[i + 1] == '\n'
  }

  /** Nothing is dropped exactly if no carriage return stands before a newline. */
  lemma {:induction false} UnixSame(s: string)
    ensures Unix(s) == s <==> !HasCrLf(s)
    ensures |Unix(s)| == |s| <==> Unix(s) == s
  {
    if s != "" {
      UnixSame(s[1..]);
      assert s == [s[0]] + s[1..];
      if s[0] == '\r' && |s| > 1 && s[1] == '\n' {
        assert HasCrLf(s);
      } else {
        assert Unix(s)[1..] == Unix(s[1..]);
        CrLfTail(s);
      }
    }
  }

  lemma CrLfTail(s: string)
    requires s != "" && !(s[0] == '\r' && |s| > 1 && s[1] == '\n')
    ensures HasCrLf(s) <==> HasCrLf(s[1..])
  {
    if i :| 0 <= i < |s| - 1 && s[i] == '\r' && s[i + 1] == '\n' {
      assert s[1..][i - 1] == '\r' && s[1..][i - 1 + 1] == '\n';
    }
    if i :| 0 <= i < |s[1..]| - 1 && s[1..][i] == '\r' && s[1..][i + 1] == '\n' {
      assert s[i + 1] == '\r' && s[i + 1 + 1] == '\n';
    }
  }

  lemma {:induction false} UnixPlain(s: string)
    requires '\n' !in s
    ensures Unix(s) == s
  {
    if s != "" {
      UnixPlain(s[1..]);
    }
  }

  lemma {:induction false} UnixKeepsNewline(s: string)
    requires '\n' in s
    ensures '\n' in Unix(s)
  {
    if s[0] != '\n' {
      UnixKeepsNewline(s[1..]);
    }
  }

  lemma {:induction false} UnixConcat(a: string, b: string)
    requires a == "" || a[|a| - 1] != '\r' || b == "" || b[0] != '\n'
    ensures Unix(a + b) == Unix(a) + Unix(b)
  {
    if a == "" {
      assert a + b == b;
    } else {
      UnixConcat(a[1..], b);
      assert (a + b)[0] == a[0] && (a + b)[1..] == a[1..] + b;
      assert |a| > 1 ==> (a + b)[1] == a[1];
    }
  }

  /** Two parts of a text, the second not starting with a newline. */
  lemma UnixParts(a: string, b: string, a': string, b': string)
    requires b != "" && b[0] != '\n' && Unix(a) == a' && Unix(b) == b'
    ensures Unix(a + b) == a' + b'
    ensures a' + b' == a + b <==> a' == a && b' == b
  {
    UnixConcat(a, b);
    UnixSame(a);
    UnixSame(b);
    UnixSame(a + b);
  }

  // ---------- literals, names and statements ----------

  lemma {:induction false} UnixDoubled(s: string)
    ensures Unix(Doubled(s, '\'')) == Doubled(Unix(s), '\'')
  {
    if s != "" {
      UnixDoubled(s[1..]);
      var more := Doubled(s[1..], '\'');
      assert |s| > 1 ==> more[0] == s[1];
      if s[0] == '\'' {
        UnixHead('\'', more);
        UnixHead('\'', ['\''] + more);
        assert ['\'', '\''] + more == ['\''] + (['\''] + more);
        assert ['\'', '\''] + Unix(more) == ['\''] + (['\''] + Unix(more));
        assert Unix(s)[1..] == Unix(s[1..]);
      } else {
        assert ([s[0]] + more)[1..] == more;
      }
    }
  }

  lemma DoubledSame(s: string, t: string)
    requires Doubled(s, '\'') == Doubled(t, '\'')
    ensures s == t
  {
    QuotedReadsBack(s, '\'', "");
    QuotedReadsBack(t, '\'', "");
  }

  lemma UnixQuoted(s: string)
    ensures Unix(Quoted(s, '\'')) == Quoted(Unix(s), '\'')
    ensures Quoted(Unix(s), '\'') == Quoted(s, '\'') <==> Unix(s) == s
  {
    var q, d := ['\''], Doubled(s, '\'');
    UnixDoubled(s);
    UnixPlain(q);
    UnixConcat(d, q);
    UnixHead('\'', d + q);
    Reassociate(q, d, q);
    Reassociate(q, Unix(d), q);
    if Quoted(Unix(s), '\'') == Quoted(s, '\'') {
      assert Quoted(s, '\'')[1..|d| + 1] == d;
      assert Quoted(Unix(s), '\'')[1..|d| + 1] == Doubled(Unix(s), '\'');
      DoubledSame(Unix(s), s);
    }
  }

  lemma UnixHead(c: char, s: string)
    requires c != '\r'
    ensures Unix([c] + s) == [c] + Unix(s)
  {
    assert ([c] + s)[1..] == s;
  }

  function UnixLit(l: Literal): Literal {
    if l.TextLit? then TextLit(Unix(l.s)) else l
  }

  function UnixRow(ls: seq<Literal>): (r: seq<Literal>)
    ensures |r| == |ls|
  {
    seq(|ls|, i requires 0 <= i < |ls| => UnixLit(ls[i]))
  }

  lemma {:induction false} HexHasNoNewline(bytes: seq<Byte>)
    ensures '\n' !in HexBytes(bytes)
  {
    if bytes != [] {
      HexHasNoNewline(bytes[1..]);
    }
  }

  lemma UnixPrintLit(l: Literal)
    requires l.NumLit? ==> Quiet(l.s)
    ensures Unix(PrintLit(l)) == PrintLit(UnixLit(l))
    ensures PrintLit(UnixLit(l)) == PrintLit(l) <==> UnixLit(l) == l
    ensures PrintLit(l) != "" && PrintLit(l)[0] != '\n'
  {
    match l
    case NullLit => UnixPlain("NULL");
    case TextLit(s) => UnixQuoted(s);
    case NumLit(s) => UnixPlain(s);
    case BlobLit(bytes) =>
      HexHasNoNewline(bytes);
      UnixPlain(PrintLit(l));
  }

  lemma UnixName(name: string)
    ensures Unix(DestName(name)) == DestName(Unix(name))
    ensures DestName(Unix(name)) == DestName(name) <==> Unix(name) == name
    ensures DestName(name) != "" && DestName(name)[0] != '\n'
  {
    if PlainName(name) {
      UnixPlain(name);
    } else {
      UnixQuoted(name);
      if PlainName(Unix(name)) {
        if '\n' in name {
          UnixKeepsNewline(name);
          assert false;
        }
        UnixPlain(name);
      }
    }
  }

  lemma RestOfRow(ls: seq<Literal>)
    requires ls != []
    ensures LitTexts(ls)[1..] == LitTexts(ls[1..]) && UnixRow(ls)[1..] == UnixRow(ls[1..])
    ensures UnixRow(ls) == ls <==> UnixLit(ls[0]) == ls[0] && UnixRow(ls[1..]) == ls[1..]
  {
    assert ls == [ls[0]] + ls[1..];
    assert UnixRow(ls) == [UnixLit(ls[0])] + UnixRow(ls[1..]);
  }

  lemma {:induction false} UnixValues(ls: seq<Literal>)
    requires QuietRow(ls)
    ensures Unix(ValueList(ls)) == ValueList(UnixRow(ls))
    ensures ValueList(UnixRow(ls)) == ValueList(ls) <==> UnixRow(ls) == ls
    ensures ValueList(ls) != "" && ValueList(ls)[0] != '\n'
  {
    if ls == [] {
      UnixPlain(")");
    } else {
      RestOfRow(ls);
      RestOfRow(UnixRow(ls));
      UnixPrintLit(ls[0]);
      if |ls| == 1 {
        UnixPlain(")");
        UnixParts(PrintLit(ls[0]), ")", PrintLit(UnixLit(ls[0])), ")");
      } else {
        UnixValues(ls[1..]);
        UnixPlain(",");
        UnixParts(",", ValueList(ls[1..]), ",", ValueList(UnixRow(ls[1..])));
        UnixParts(PrintLit(ls[0]), "," + ValueList(ls[1..]), PrintLit(UnixLit(ls[0])), "," + ValueList(UnixRow(ls[1..])));
      }
    }
  }

  /**
   Dropping the carriage returns of a printed statement leaves the statement for the
   name and the texts without them, and changes nothing exactly if they have none.
   */
  lemma UnixBody(name: string, ls: seq<Literal>)
    requires QuietRow(ls)
    ensures Unix(InsertBody(name, ls)) == InsertBody(Unix(name), UnixRow(ls))
    ensures Unix(InsertBody(name, ls)) == InsertBody(name, ls) <==> Unix(name) == name && UnixRow(ls) == ls
  {
    UnixAround("INSERT INTO ", name, " VALUES(", ls);
  }

  lemma UnixAround(a: string, name: string, c: string, ls: seq<Literal>)
    requires QuietRow(ls) && '\n' !in a && '\n' !in c && c != ""
    ensures Unix(a + (DestName(name) + (c + ValueList(ls)))) == a + (DestName(Unix(name)) + (c + ValueList(UnixRow(ls))))
    ensures a + (DestName(Unix(name)) + (c + ValueList(UnixRow(ls)))) == a + (DestName(name) + (c + ValueList(ls)))
            <==> Unix(name) == name && UnixRow(ls) == ls
  {
    UnixPlain(a);
    UnixPlain(c);
    UnixName(name);
    UnixValues(ls);
    UnixFour(a, DestName(name), c, ValueList(ls), DestName(Unix(name)), ValueList(UnixRow(ls)));
  }

  lemma UnixFour(a: string, b: string, c: string, d: string, b': string, d': string)
    requires Unix(a) == a && Unix(b) == b' && Unix(c) == c && Unix(d) == d'
    requires b != "" && b[0] != '\n' && c != "" && c[0] != '\n' && d != "" && d[0] != '\n'
    ensures Unix(a + (b + (c + d))) == a + (b' + (c + d'))
    ensures a + (b' + (c + d')) == a + (b + (c + d)) <==> b' == b && d' == d
  {
    UnixParts(c, d, c, d');
    UnixParts(b, c + d, b', c + d');
    UnixParts(a, b + (c + d), a, b' + (c + d'));
  }

  // ---------- lines ----------

  /** The line that ends before a newline loses one carriage return. */
  function Chomp(w: string): string {
    if w != "" && w[|w| - 1] == '\r' then w[..|w| - 1] else w
  }

  lemma FirstLine(w: string, rest: string)
    requires '\n' !in w
    ensures LineText(w + ("\n" + rest), false) == Chomp(w) && AfterLine(w + ("\n" + rest), false) == rest
  {
    var s := w + ("\n" + rest);
    var e := |w| + 1;
    assert s[e - 1] == '\n' && s[..e] == w + "\n" && s[e..] == rest;
    forall m | 0 < m < e ensures !EndsLine(s, false, m) {
      assert s[m - 1] == w[m - 1];
    }
    LineEndIs(s, false, e);
  }

  lemma UnixLine(w: string, rest: string)
    requires '\n' !in w
    ensures Unix(w + ("\n" + rest)) == Chomp(w) + ("\n" + Unix(rest))
  {
    var a := Chomp(w);
    UnixPlain(a);
    UnixHead('\n', rest);
    if a == w {
      UnixConcat(a, "\n" + rest);
    } else {
      var b := "\r" + ("\n" + rest);
      assert b[1..] == "\n" + rest && b[0] == '\r' && b[1] == '\n';
      assert w == a + "\r";
      Reassociate(a, "\r", "\n" + rest);
      UnixConcat(a, b);
    }
  }

  /** Inside a literal the carriage return makes no difference. */
  lemma ChompLex(l: Lex, w: string)
    requires LexFrom(l, w).Quote?
    ensures LexFrom(l, Chomp(w)) == LexFrom(l, w) && (Guarded(l, w) ==> Guarded(l, Chomp(w)))
  {
    if w != "" && w[|w| - 1] == '\r' {
      var a := w[..|w| - 1];
      assert w == a + ['\r'];
      LexConcat(l, a, ['\r']);
      LexOne(LexFrom(l, a), '\r');
    }
  }
}
