/**
 sqlite3_complete(): a scanner of tokens and the machine of eight states that waits
 for the end of a CREATE TRIGGER. It does what its documentation says of the texts
 that the shell prints.
 */
module SqlComplete {
  import opened Text
  import opened Blank
  import opened SqlLexer

  // ---------- the machine ----------

  datatype Token = Semi | White | Other | ExplainWord | CreateWord | TempWord | TriggerWord | EndWord

  datatype Phase = Invalid | Begin | Normal | Explain | Create | Trigger | AfterSemi | AfterEnd

  /** The table trans[][]. */
  function Trans(p: Phase, t: Token): Phase {
    if t == White then p
    else match p
      case Invalid => FirstWord(t)
      case Begin => FirstWord(t)
      case Normal => if t == Semi then Begin else Normal
      case Explain => if t == Semi then Begin else if t == Other then Explain else if t == CreateWord then Create else Normal
      case Create => if t == Semi then Begin else if t == TempWord then Create else if t == TriggerWord then Trigger else Normal
      case Trigger => if t == Semi then AfterSemi else Trigger
      case AfterSemi => if t == Semi then AfterSemi else if t == EndWord then AfterEnd else Trigger
      case AfterEnd => if t == Semi then Begin else Trigger
  }

  function FirstWord(t: Token): Phase {
    if t == Semi then Begin else if t == ExplainWord then Explain else if t == CreateWord then Create else Normal
  }

  // ---------- the scanner ----------

  /** IdChar(): letters, digits, underscore, dollar and every byte from 0x80 up. */
  predicate IdChar(c: char) {
    IsAlnum(c) || c == '_' || c == '$' || c >= '\U{80}'
  }

  lemma IdCharIs(c: char)
    ensures IdChar(c) <==> var n := c as int; 97 <= n <= 122 || 65 <= n <= 90 || 48 <= n <= 57 || n == 95 || n == 36 || n >= 128
  {
  }

  function IdEnd(z: string, i: nat): (e: nat)
    requires i <= |z|
    ensures i <= e <= |z| && (forall k | i <= k < e :: IdChar(z[k])) && (e < |z| ==> !IdChar(z[e]))
    decreases |z| - i
  {
    if i < |z| && IdChar(z[i]) then IdEnd(z, i + 1) else i
  }

  /** The next `c` from `i` on, or the end of the text. */
  function CharFrom(z: string, i: nat, c: char): (e: nat)
    requires i <= |z|
    ensures i <= e <= |z| && (forall k | i <= k < e :: z[k] != c) && (e < |z| ==> z[e] == c)
    decreases |z| - i
  {
    if i == |z| || z[i] == c then i else CharFrom(z, i + 1, c)
  }

  /** sqlite3StrNICmp() against a word in lower case. */
  predicate SameWord(z: string, i: nat, e: nat, word: string)
    requires i <= e <= |z| && forall k | 0 <= k < |word| :: 'a' <= word[k] <= 'z'
  {
    e - i == |word| && forall k | 0 <= k < |word| :: IsLetter(z[i + k], word[k])
  }

  /** The word from `i` to `e`. */
  function WordToken(z: string, i: nat, e: nat): Token
    requires i < e <= |z|
  {
    if SameWord(z, i, e, "create") then CreateWord
    else if SameWord(z, i, e, "trigger") then TriggerWord
    else if SameWord(z, i, e, "temp") || SameWord(z, i, e, "temporary") then TempWord
    else if SameWord(z, i, e, "end") then EndWord
    else if SameWord(z, i, e, "explain") then ExplainWord
    else Other
  }

  /** A token and where it ends, something that is never closed, or a comment up to the end of the text. */
  datatype Scanned = Tok(token: Token, next: nat) | NeverClosed | LastRemark

  predicate IsQuote(c: char) {
    c == '\'' || c == '"' || c == '`'
  }

  /** Up to and including the next `c`. */
  function Closed(z: string, i: nat, c: char): (r: Scanned)
    requires i <= |z|
    ensures r.Tok? ==> i < r.next <= |z|
  {
    var e := CharFrom(z, i, c);
    if e == |z| then NeverClosed else Tok(Other, e + 1)
  }

  function ScanAt(z: string, i: nat): (r: Scanned)
    requires i < |z|
    ensures r.Tok? ==> i < r.next <= |z|
  {
    var c := z[i];
    if c == ';' then Tok(Semi, i + 1)
    else if c == ' ' || c == '\r' || c == '\t' || c == '\n' || c == '\U{0C}' then Tok(White, i + 1)
    else if TwoAt(z, i, '/', '*') then var e := CloseFrom(z, i + 2); if e == |z| then NeverClosed else Tok(White, e + 2)
    else if TwoAt(z, i, '-', '-') then var e := NewlineFrom(z, i); if e == |z| then LastRemark else Tok(White, e + 1)
    else if c == '[' then Closed(z, i + 1, ']')
    else if IsQuote(c) then Closed(z, i + 1, c)
    else if IdChar(c) then Tok(WordToken(z, i, IdEnd(z, i)), IdEnd(z, i))
    else Tok(Other, i + 1)
  }

  function CompleteFrom(z: string, i: nat, p: Phase): bool
    requires i <= |z|
    decreases |z| - i
  {
    if i == |z| then p == Begin
    else match ScanAt(z, i)
      case NeverClosed => false
      case LastRemark => p == Begin
      case Tok(t, next) => CompleteFrom(z, next, Trans(p, t))
  }

  /** What sqlite3_complete() answers. */
  predicate Complete(z: string) {
    CompleteFrom(z, 0, Invalid)
  }

  // ---------- tokens and characters ----------

  /** Where the characters of z[i..n] lead. */
  function LexTo(l: Lex, z: string, i: nat, n: nat): Lex
    requires i <= n <= |z|
    decreases n - i
  {
    if i == n then l else LexTo(Next(l, z[i]), z, i + 1, n)
  }

  predicate GuardedTo(l: Lex, z: string, i: nat, n: nat)
    requires i <= n <= |z|
    decreases n - i
  {
    i == n || ((z[i] == '\n' || z[i] == ';' ==> l == Quote('\'')) && GuardedTo(Next(l, z[i]), z, i + 1, n))
  }

  lemma {:induction false} LexToIs(l: Lex, z: string, i: nat, n: nat)
    requires i <= n <= |z|
    ensures LexTo(l, z, i, n) == LexFrom(l, z[i..n]) && GuardedTo(l, z, i, n) == Guarded(l, z[i..n])
    decreases n - i
  {
    if i < n {
      LexToIs(Next(l, z[i]), z, i + 1, n);
      assert z[i..n][0] == z[i] && z[i..n][1..] == z[i + 1..n];
    }
  }

  /** Between two tokens: a slash or a dash just read begins no comment. */
  predicate Calm(l: Lex, z: string, i: nat)
    requires i <= |z|
  {
    || l == Code
    || (l == Slash && (i < |z| ==> z[i] != '*'))
    || (l == Dash && (i < |z| ==> z[i] != '-'))
  }

  /** What is read from `i` in state `l` goes on at `j` in state `m`. */
  ghost predicate Moves(l: Lex, z: string, i: nat, m: Lex, j: nat, n: nat) {
    i <= j <= n <= |z| && LexTo(l, z, i, n) == LexTo(m, z, j, n) && (GuardedTo(l, z, i, n) ==> GuardedTo(m, z, j, n))
  }

  lemma {:induction false} QuoteMoves(z: string, i: nat, e: nat, n: nat, c: char)
    requires i <= e < n <= |z| && z[e] == c && forall k | i <= k < e :: z[k] != c
    ensures Moves(Quote(c), z, i, Code, e + 1, n)
    decreases e - i
  {
    if i < e {
      QuoteMoves(z, i + 1, e, n, c);
    }
  }

  lemma {:induction false} QuoteStays(z: string, i: nat, n: nat, c: char)
    requires i <= n <= |z| && forall k | i <= k < n :: z[k] != c
    ensures LexTo(Quote(c), z, i, n) == Quote(c)
    decreases n - i
  {
    if i < n {
      QuoteStays(z, i + 1, n, c);
    }
  }

  lemma {:induction false} BracketMoves(z: string, i: nat, e: nat, n: nat)
    requires i <= e < n <= |z| && z[e] == ']' && forall k | i <= k < e :: z[k] != ']'
    ensures Moves(Bracket, z, i, Code, e + 1, n)
    decreases e - i
  {
    if i < e {
      BracketMoves(z, i + 1, e, n);
    }
  }

  lemma {:induction false} BracketStays(z: string, i: nat, n: nat)
    requires i <= n <= |z| && forall k | i <= k < n :: z[k] != ']'
    ensures LexTo(Bracket, z, i, n) == Bracket
    decreases n - i
  {
    if i < n {
      BracketStays(z, i + 1, n);
    }
  }

  /** Inside a block comment; after a star no slash follows. */
  predicate InBlock(l: Lex, z: string, i: nat)
    requires i <= |z|
  {
    l == Comment || (l == Star && i < |z| && z[i] != '/')
  }

  lemma {:induction false} BlockMoves(l: Lex, z: string, i: nat, e: nat, n: nat)
    requires i <= e && e + 2 <= n <= |z| && InBlock(l, z, i) && NoClose(z, i, e) && TwoAt(z, e, '*', '/')
    ensures Moves(l, z, i, Code, e + 2, n)
    decreases e - i
  {
    if i < e {
      assert !TwoAt(z, i, '*', '/');
      BlockMoves(Next(l, z[i]), z, i + 1, e, n);
    } else {
      assert LexTo(l, z, i, n) == LexTo(Star, z, i + 1, n) == LexTo(Code, z, i + 2, n);
      assert GuardedTo(l, z, i, n) ==> GuardedTo(Star, z, i + 1, n);
    }
  }

  lemma {:induction false} BlockStays(l: Lex, z: string, i: nat, n: nat)
    requires i <= n <= |z| && (l == Comment || (l == Star && (i < n ==> z[i] != '/')))
    requires NoClose(z, i, n)
    ensures var m := LexTo(l, z, i, n); m == Comment || m == Star
    decreases n - i
  {
    if i < n {
      assert !TwoAt(z, i, '*', '/');
      BlockStays(Next(l, z[i]), z, i + 1, n);
    }
  }

  lemma {:induction false} RemarkMoves(z: string, i: nat, e: nat, n: nat)
    requires i <= e < n <= |z| && z[e] == '\n' && NoNewline(z, i, e)
    ensures Moves(Remark, z, i, Code, e + 1, n) && !GuardedTo(Remark, z, i, n)
    decreases e - i
  {
    if i < e {
      RemarkMoves(z, i + 1, e, n);
    }
  }

  lemma {:induction false} RemarkStays(z: string, i: nat, n: nat)
    requires i <= n <= |z| && NoNewline(z, i, n)
    ensures LexTo(Remark, z, i, n) == Remark
    decreases n - i
  {
    if i < n {
      RemarkStays(z, i + 1, n);
    }
  }

  lemma {:induction false} WordMoves(z: string, i: nat, e: nat, n: nat)
    requires i <= e <= n <= |z| && forall k | i <= k < e :: IdChar(z[k])
    ensures Moves(Code, z, i, Code, e, n)
    decreases e - i
  {
    if i < e {
      WordMoves(z, i + 1, e, n);
    }
  }

  /** The text is read to its end, or up to a last semicolon. */
  predicate Bound(z: string, n: nat) {
    n == |z| || (n + 1 == |z| && z[n] == ';')
  }

  lemma OneMoves(l: Lex, z: string, i: nat, n: nat)
    requires i < n <= |z|
    ensures Moves(l, z, i, Next(l, z[i]), i + 1, n)
  {
  }

  lemma MovesOn(l: Lex, z: string, i: nat, m: Lex, j: nat, o: Lex, k: nat, n: nat)
    requires Moves(l, z, i, m, j, n) && Moves(m, z, j, o, k, n)
    ensures Moves(l, z, i, o, k, n)
  {
  }

  /** A comment that is closed. */
  lemma CommentMoves(l: Lex, z: string, i: nat, n: nat, next: nat)
    requires i < next <= n <= |z| && Calm(l, z, i)
    requires (TwoAt(z, i, '/', '*') && next == CloseFrom(z, i + 2) + 2) || (TwoAt(z, i, '-', '-') && next == NewlineFrom(z, i) + 1)
    ensures Moves(l, z, i, Code, next, n)
  {
    var m := if z[i] == '/' then Slash else Dash;
    var o := if z[i] == '/' then Comment else Remark;
    OneMoves(l, z, i, n);
    OneMoves(m, z, i + 1, n);
    if z[i] == '/' {
      BlockMoves(Comment, z, i + 2, next - 2, n);
    } else {
      RemarkMoves(z, i + 2, next - 1, n);
    }
    MovesOn(m, z, i + 1, o, i + 2, Code, next, n);
    MovesOn(l, z, i, m, i + 1, Code, next, n);
  }

  /** A quoted literal or name that is closed, or a word. */
  lemma NameMoves(l: Lex, z: string, i: nat, n: nat, next: nat)
    requires i < n <= |z| && Calm(l, z, i) && i < next <= n
    requires || (z[i] == '[' && next == CharFrom(z, i + 1, ']') + 1)
             || (IsQuote(z[i]) && next == CharFrom(z, i + 1, z[i]) + 1)
             || (IdChar(z[i]) && next == IdEnd(z, i))
    ensures Moves(l, z, i, Code, next, n)
  {
    var m := Start(z[i]);
    OneMoves(l, z, i, n);
    RestMoves(z, i, n, next, m);
    MovesOn(l, z, i, m, i + 1, Code, next, n);
  }

  lemma RestMoves(z: string, i: nat, n: nat, next: nat, m: Lex)
    requires i < next <= n <= |z| && m == Start(z[i])
    requires || (z[i] == '[' && next == CharFrom(z, i + 1, ']') + 1)
             || (IsQuote(z[i]) && next == CharFrom(z, i + 1, z[i]) + 1)
             || (IdChar(z[i]) && next == IdEnd(z, i))
    ensures Moves(m, z, i + 1, Code, next, n)
  {
    if z[i] == '[' {
      BracketMoves(z, i + 1, next - 1, n);
    } else if IsQuote(z[i]) {
      QuoteMoves(z, i + 1, next - 1, n, z[i]);
    } else {
      WordMoves(z, i + 1, next, n);
    }
  }

  /** After a token the characters are between tokens again. */
  lemma TokenMoves(l: Lex, z: string, i: nat, n: nat) returns (m: Lex)
    requires Bound(z, n) && i < n && Calm(l, z, i) && ScanAt(z, i).Tok?
    ensures var next := ScanAt(z, i).next; next <= n && Calm(m, z, next) && Moves(l, z, i, m, next, n)
  {
    var c, next := z[i], ScanAt(z, i).next;
    m := Code;
    if TwoAt(z, i, '/', '*') || TwoAt(z, i, '-', '-') {
      CommentMoves(l, z, i, n, next);
    } else if c == '[' || IsQuote(c) || IdChar(c) {
      NameMoves(l, z, i, n, next);
    } else {
      m := Start(c);
      OneMoves(l, z, i, n);
    }
  }

  /** What is never closed leaves the characters inside of it. */
  lemma NeverClosedStays(l: Lex, z: string, i: nat, n: nat)
    requires Bound(z, n) && i < n && Calm(l, z, i) && !ScanAt(z, i).Tok?
    ensures LexTo(l, z, i, n) != Code && (ScanAt(z, i) == LastRemark ==> LexTo(l, z, i, n) == Remark)
  {
    var c := z[i];
    assert Next(l, c) == Start(c);
    if TwoAt(z, i, '/', '*') {
      assert LexTo(l, z, i, n) == LexTo(Next(Slash, z[i + 1]), z, i + 2, n);
      BlockStays(Comment, z, i + 2, n);
    } else if TwoAt(z, i, '-', '-') {
      assert LexTo(l, z, i, n) == LexTo(Next(Dash, z[i + 1]), z, i + 2, n);
      RemarkStays(z, i + 2, n);
    } else if c == '[' {
      BracketStays(z, i + 1, n);
    } else {
      QuoteStays(z, i + 1, n, c);
    }
  }

  // ---------- what the documentation says ----------

  /** A text that ends inside quotes is not complete. */
  lemma {:induction false} OpenIsIncomplete(l: Lex, z: string, i: nat, p: Phase)
    requires i <= |z| && Calm(l, z, i) && LexTo(l, z, i, |z|).Quote?
    ensures !CompleteFrom(z, i, p)
    decreases |z| - i
  {
    if i < |z| {
      var r := ScanAt(z, i);
      if r.Tok? {
        var m := TokenMoves(l, z, i, |z|);
        OpenIsIncomplete(m, z, r.next, Trans(p, r.token));
      } else {
        NeverClosedStays(l, z, i, |z|);
      }
    }
  }

  /** In the middle of a statement that is no CREATE TRIGGER, the first semicolon that is a token ends it. */
  lemma {:induction false} SemicolonCompletes(l: Lex, z: string, i: nat, n: nat)
    requires n + 1 == |z| && z[n] == ';' && i <= n && Calm(l, z, i)
    requires GuardedTo(l, z, i, n) && LexTo(l, z, i, n) == Code
    ensures CompleteFrom(z, i, Normal)
    decreases n - i
  {
    if i < n {
      var r := ScanAt(z, i);
      if !r.Tok? {
        NeverClosedStays(l, z, i, n);
        assert false;
      }
      var m := TokenMoves(l, z, i, n);
      SemicolonCompletes(m, z, r.next, n);
    } else {
      assert CompleteFrom(z, n + 1, Begin);
    }
  }

  /** A single INSERT statement is complete with a semicolon. */
  lemma InsertCompletes(t: string)
    requires "INSERT " <= t && Sealed(t)
    ensures Complete(t + ";")
  {
    var z, n := t + ";", |t|;
    assert z[..n] == t && z[0..n] == t;
    LexToIs(Code, z, 0, n);
    assert t[..7] == "INSERT ";
    assert z[0] == 'I' && forall k | 0 <= k < 7 :: z[k] == "INSERT "[k];
    var e := IdEnd(z, 0);
    assert !IdChar(z[6]) && e <= 6;
    assert forall k | 0 <= k < 6 :: IdChar(z[k]);
    assert !IsLetter(z[0 + 0], "create"[0]);
    assert WordToken(z, 0, 6) == Other;
    WordMoves(z, 0, 6, n);
    SemicolonCompletes(Code, z, 6, n);
  }

  /** sqlite3_complete() keeps what its documentation says. */
  lemma CompleteIsDocumented()
    ensures Documented(Complete)
  {
    forall t | LexFrom(Code, t).Quote? ensures !Complete(t) {
      LexToIs(Code, t, 0, |t|);
      assert t[0..|t|] == t;
      OpenIsIncomplete(Code, t, 0, Invalid);
    }
    forall t | "INSERT " <= t && Sealed(t) ensures Complete(t + ";") {
      InsertCompletes(t);
    }
  }

  /** No token from `i` on is the given word. */
  predicate Without(z: string, i: nat, word: Token)
    requires i <= |z|
    decreases |z| - i
  {
    i == |z| || !ScanAt(z, i).Tok? || (ScanAt(z, i).token != word && Without(z, ScanAt(z, i).next, word))
  }

  /** A trigger, once begun, is not complete without the word end, however many semicolons follow. */
  lemma {:induction false} TriggerWaits(z: string, i: nat, p: Phase)
    requires i <= |z| && (p == Trigger || p == AfterSemi) && Without(z, i, EndWord)
    ensures !CompleteFrom(z, i, p)
    decreases |z| - i
  {
    if i < |z| && ScanAt(z, i).Tok? {
      TriggerWaits(z, ScanAt(z, i).next, Trans(p, ScanAt(z, i).token));
    }
  }

  /** Everything that is opened is closed, and the last token that is not white space or a comment is a semicolon. */
  predicate EndsInSemi(z: string, i: nat, last: bool)
    requires i <= |z|
    decreases |z| - i
  {
    if i == |z| then last
    else match ScanAt(z, i)
      case NeverClosed => false
      case LastRemark => last
      case Tok(token, next) => EndsInSemi(z, next, if token == White then last else token == Semi)
  }

  /** Where no trigger is begun, complete is exactly what ends with a semicolon token. */
  lemma {:induction false} SemicolonDecides(z: string, i: nat, p: Phase)
    requires i <= |z| && p != Trigger && p != AfterSemi && p != AfterEnd && Without(z, i, TriggerWord)
    ensures CompleteFrom(z, i, p) == EndsInSemi(z, i, p == Begin)
    decreases |z| - i
  {
    if i < |z| && ScanAt(z, i).Tok? {
      SemicolonDecides(z, ScanAt(z, i).next, Trans(p, ScanAt(z, i).token));
    }
  }

  // ---------- the loop ----------

  method FindChar(z: string, i: nat, c: char) returns (e: nat)
    requires i <= |z| && NulFree(z) && c != '\0'
    ensures e == CharFrom(z, i, c)
  {
    e := i;
    while At(z, e) != '\0' && At(z, e) != c
      invariant i <= e <= |z| && CharFrom(z, e, c) == CharFrom(z, i, c)
      decreases |z| - e
    {
      e := e + 1;
    }
  }

  method FindIdEnd(z: string, i: nat) returns (e: nat)
    requires i < |z| && NulFree(z) && IdChar(z[i])
    ensures e == IdEnd(z, i)
  {
    e := i + 1;
    while IdChar(At(z, e))
      invariant i < e <= |z| && IdEnd(z, e) == IdEnd(z, i)
      decreases |z| - e
    {
      e := e + 1;
    }
  }

  lemma FirstLetter(z: string, i: nat, e: nat, word: string)
    requires i < e <= |z| && word != "" && forall k | 0 <= k < |word| :: 'a' <= word[k] <= 'z'
    ensures SameWord(z, i, e, word) ==> IsLetter(z[i], word[0])
  {
    if SameWord(z, i, e, word) {
      assert IsLetter(z[i + 0], word[0]);
    }
  }

  /** The switch on the first character of a word, and the comparisons in its branches. */
  method ReadWord(z: string, i: nat, e: nat) returns (token: Token)
    requires i < e <= |z|
    ensures token == WordToken(z, i, e)
  {
    FirstLetter(z, i, e, "create");
    FirstLetter(z, i, e, "trigger");
    FirstLetter(z, i, e, "temp");
    FirstLetter(z, i, e, "temporary");
    FirstLetter(z, i, e, "end");
    FirstLetter(z, i, e, "explain");
    token := Other;
    if IsLetter(z[i], 'c') {
      var same := CompareWord(z, i, e, "create");
      if same {
        token := CreateWord;
      }
    } else if IsLetter(z[i], 't') {
      var trigger := CompareWord(z, i, e, "trigger");
      var temp := CompareWord(z, i, e, "temp");
      var temporary := CompareWord(z, i, e, "temporary");
      token := if trigger then TriggerWord else if temp || temporary then TempWord else Other;
    } else if IsLetter(z[i], 'e') {
      var end := CompareWord(z, i, e, "end");
      var explain := CompareWord(z, i, e, "explain");
      token := if end then EndWord else if explain then ExplainWord else Other;
    }
  }

  /** sqlite3StrNICmp(), after the lengths were compared. */
  method CompareWord(z: string, i: nat, e: nat, word: string) returns (same: bool)
    requires i < e <= |z| && word != "" && forall k | 0 <= k < |word| :: 'a' <= word[k] <= 'z'
    ensures same == SameWord(z, i, e, word)
  {
    if e - i != |word| {
      return false;
    }
    var k := 0;
    while k < |word|
      invariant 0 <= k <= |word| && forall m | 0 <= m < k :: IsLetter(z[i + m], word[m])
    {
      if !IsLetter(z[i + k], word[k]) {
        return false;
      }
      k := k + 1;
    }
    same := true;
  }

  /** The switch of the loop: the next token, or the answer where the loop returns. */
  method NextToken(z: string, i: nat) returns (r: Scanned)
    requires i < |z| && NulFree(z)
    ensures r == ScanAt(z, i)
  {
    var c := z[i];
    var e;
    if c == ';' {
      r := Tok(Semi, i + 1);
    } else if c == ' ' || c == '\r' || c == '\t' || c == '\n' || c == '\U{0C}' {
      r := Tok(White, i + 1);
    } else if c == '/' && At(z, i + 1) == '*' {
      e := SkipBlock(z, i + 2);
      r := if At(z, e) == '\0' then NeverClosed else Tok(White, e + 2);
    } else if c == '-' && At(z, i + 1) == '-' {
      e := SkipLine(z, i);
      r := if At(z, e) == '\0' then LastRemark else Tok(White, e + 1);
    } else if c == '[' {
      e := FindChar(z, i + 1, ']');
      r := if At(z, e) == '\0' then NeverClosed else Tok(Other, e + 1);
    } else if IsQuote(c) {
      e := FindChar(z, i + 1, c);
      r := if At(z, e) == '\0' then NeverClosed else Tok(Other, e + 1);
    } else if IdChar(c) {
      e := FindIdEnd(z, i);
      var token := ReadWord(z, i, e);
      r := Tok(token, e);
    } else {
      r := Tok(Other, i + 1);
    }
  }

  /** sqlite3_complete() */
  method Sqlite3Complete(z: string) returns (r: bool)
    requires NulFree(z)
    ensures r == Complete(z)
  {
    var i, state := 0, Invalid;
    while At(z, i) != '\0'
      invariant 0 <= i <= |z| && CompleteFrom(z, i, state) == CompleteFrom(z, 0, Invalid)
      decreases |z| - i
    {
      var t := NextToken(z, i);
      match t {
        case NeverClosed => return false;
        case LastRemark => return state == Begin;
        case Tok(token, next) =>
          state := Trans(state, token);
          i := next;
      }
    }
    r := state == Begin;
  }
}
