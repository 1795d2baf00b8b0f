/**
 The tokenizer of dot-commands, which cuts and resolves its tokens inside the
 input line, and what it means to type back what .show printed.
 */
module DotCommand {
  import opened Text
  import opened Readers
  import opened CEscape

  const MAX_ARGS := 50

  // ---------- what the tokens are ----------

  /** First position from `i` on where the text ends or `stop` holds. */
  function Find(line: string, i: nat, stop: char -> bool): (j: nat)
    requires i <= |line|
    ensures i <= j <= |line| && (forall k | i <= k < j :: !stop(line[k])) && (j < |line| ==> stop(line[j]))
    decreases |line| - i
  {
    if i == |line| || stop(line[i]) then i else Find(line, i + 1, stop)
  }

  /** A token: where it starts and ends, where the scan goes on, and whether its backslashes are resolved. */
  datatype Token = Token(start: nat, end: nat, next: nat, resolve: bool)

  /** The token whose first character, possibly a quote, is at `i`. */
  function TokenAt(line: string, i: nat): (t: Token)
    requires i < |line| && !IsSpace(line[i])
    ensures i <= t.start <= t.end <= t.next <= |line| && i < t.next
  {
    var c := line[i];
    if c == '\'' || c == '"' then
      var e := Find(line, i + 1, x => x == c);
      Token(i + 1, e, if e < |line| then e + 1 else e, c == '"')
    else
      var e := Find(line, i, IsSpace);
      Token(i, e, if e < |line| then e + 1 else e, true)
  }

  /** A C string ends at its first NUL, which an octal escape may have put there. */
  function UpToNul(d: string): (r: string)
    ensures r <= d && NulFree(r) && (|r| < |d| ==> d[|r|] == '\0')
  {
    d[..Find(d, 0, c => c == '\0')]
  }

  predicate TokenPaired(line: string, t: Token)
    requires t.start <= t.end <= |line|
  {
    t.resolve ==> Paired(line[t.start..t.end], 0)
  }

  function TokenText(line: string, t: Token): string
    requires t.start <= t.end <= |line| && TokenPaired(line, t)
  {
    var w := line[t.start..t.end];
    if t.resolve then UpToNul(Resolved(w, 0)) else w
  }

  /** No token ends in an unpaired backslash. */
  predicate AllPaired(line: string, i: nat, n: nat)
    requires i <= |line|
    decreases |line| - i
  {
    var j := SkipSpaces(line, i);
    if j == |line| || n >= MAX_ARGS then true
    else var t := TokenAt(line, j); TokenPaired(line, t) && AllPaired(line, t.next, n + 1)
  }

  /** The tokens from position `i` on, when `n` were found before; the rest of the line after 50 is ignored. */
  function Tokens(line: string, i: nat, n: nat): seq<string>
    requires i <= |line| && AllPaired(line, i, n)
    decreases |line| - i
  {
    var j := SkipSpaces(line, i);
    if j == |line| || n >= MAX_ARGS then []
    else var t := TokenAt(line, j); [TokenText(line, t)] + Tokens(line, t.next, n + 1)
  }

  // ---------- the tokenizer, in place ----------

  method FindStop(z: array<char>, i: nat, stop: char -> bool, ghost line: string) returns (j: nat)
    requires Ahead(z, line, i)
    ensures j == Find(line, i, stop)
  {
    j := i;
    while z[j] != '\0' && !stop(z[j])
      invariant i <= j <= |line| && Find(line, j, stop) == Find(line, i, stop)
      decreases |line| - j
    {
      j := j + 1;
    }
  }

  method SkipBlanks(z: array<char>, i: nat, ghost line: string) returns (j: nat)
    requires Ahead(z, line, i)
    ensures j == SkipSpaces(line, i)
  {
    j := i;
    while IsSpace(z[j])
      invariant i <= j <= |line| && SkipSpaces(line, j) == SkipSpaces(line, i)
      decreases |line| - j
    {
      j := j + 1;
    }
  }

  /** resolve_backslashes() on a token that was just terminated. */
  method ResolveToken(z: array<char>, off: nat, ghost w: string)
    requires HoldsAt(z, off, w) && Paired(w, 0)
    modifies z
    ensures HoldsAt(z, off, UpToNul(Resolved(w, 0))) && |UpToNul(Resolved(w, 0))| <= |w|
    ensures forall m | 0 <= m < z.Length && !(off <= m < off + |w|) :: z[m] == old(z[m])
  {
    ghost var d := Resolved(w, 0);
    assert d[0..] == d;
    ResolvedIsDue(w, d, 0, 0);
    ResolveLoop(z, off, w, d);
    ghost var r := UpToNul(d);
    assert z[off..off + |r|] == z[off..off + |d|][..|r|];
    assert |r| < |d| ==> z[off..off + |d|][|r|] == z[off + |r|];
  }

  /** Terminate the token that ends at `e`, unless the line ends there anyway. */
  method CutToken(z: array<char>, start: nat, e: nat, ghost line: string) returns (next: nat)
    requires Ahead(z, line, start) && start <= e <= |line|
    modifies z
    ensures next == if e < |line| then e + 1 else e
    ensures HoldsAt(z, start, line[start..e])
    ensures Ahead(z, line, next)
    ensures forall m | 0 <= m < z.Length && m != e :: z[m] == old(z[m])
  {
    next := e;
    if z[e] != '\0' {
      z[e] := '\0';
      next := e + 1;
    }
    assert z[start..e] == line[start..e];
  }

  /** The token from `start` to `e`, terminated and, if asked for, resolved. */
  method FinishToken(z: array<char>, start: nat, e: nat, resolve: bool, ghost line: string, ghost t: Token)
    returns (next: nat)
    requires Ahead(z, line, start) && start <= e <= |line|
    requires t == Token(start, e, if e < |line| then e + 1 else e, resolve) && TokenPaired(line, t)
    modifies z
    ensures next == t.next && Ahead(z, line, next)
    ensures HoldsAt(z, start, TokenText(line, t)) && start + |TokenText(line, t)| <= e
    ensures forall m | 0 <= m < start :: z[m] == old(z[m])
  {
    next := CutToken(z, start, e, line);
    if resolve {
      ResolveToken(z, start, line[start..e]);
    }
  }

  /** One turn of the tokenizer loop, at the first character of a token. */
  method TakeToken(z: array<char>, i: nat, ghost line: string, ghost t: Token) returns (start: nat, next: nat)
    requires Ahead(z, line, i) && i < |line| && !IsSpace(line[i]) && t == TokenAt(line, i) && TokenPaired(line, t)
    modifies z
    ensures start == t.start && next == t.next && Ahead(z, line, next)
    ensures HoldsAt(z, start, TokenText(line, t)) && start + |TokenText(line, t)| <= t.end
    ensures forall m | 0 <= m < i :: z[m] == old(z[m])
  {
    var delim := z[i];
    if delim == '\'' || delim == '"' {
      start := i + 1;
      var e := FindStop(z, start, x => x == delim, line);
      next := FinishToken(z, start, e, delim == '"', line, t);
    } else {
      start := i;
      var e := FindStop(z, start, IsSpace, line);
      next := FinishToken(z, start, e, true, line, t);
    }
  }

  /** The tokens found so far are in the buffer, and out of the way of the scan. */
  ghost predicate Parsed(z: array<char>, args: seq<nat>, toks: seq<string>, line: string, i: nat)
    reads z
  {
    && |args| <= |toks|
    && forall k | 0 <= k < |args| :: HoldsAt(z, args[k], toks[k]) && (args[k] + |toks[k]| < i || i == |line|)
  }

  /** The token at `i` joins those found before. */
  method AddToken(z: array<char>, args: seq<nat>, i: nat, ghost line: string, ghost toks: seq<string>)
    returns (args': seq<nat>, next: nat)
    requires Ahead(z, line, i) && i < |line| && !IsSpace(line[i]) && TokenPaired(line, TokenAt(line, i))
    requires |args| < |toks| && toks[|args|] == TokenText(line, TokenAt(line, i))
    requires Parsed(z, args, toks, line, i)
    modifies z
    ensures next == TokenAt(line, i).next && Ahead(z, line, next)
    ensures |args'| == |args| + 1 && Parsed(z, args', toks, line, next)
  {
    ghost var t := TokenAt(line, i);
    var start;
    start, next := TakeToken(z, i, line, t);
    forall k | 0 <= k < |args| ensures HoldsAt(z, args[k], toks[k]) {
      assert old(HoldsAt(z, args[k], toks[k]));
      assert z[args[k]..args[k] + |toks[k]|] == old(z[args[k]..args[k] + |toks[k]|]);
    }
    args' := args + [start];
  }

  /** From its `n`-th element on, `toks` is what the tokenizer still has to find. */
  ghost predicate TokensDue(line: string, toks: seq<string>, i: nat, n: nat)
    requires i <= |line|
  {
    AllPaired(line, i, n) && n <= |toks| && toks[n..] == Tokens(line, i, n)
  }

  lemma NextToken(line: string, toks: seq<string>, i: nat, n: nat)
    requires i <= |line| && TokensDue(line, toks, i, n)
    ensures var j := SkipSpaces(line, i);
            if j == |line| || n >= MAX_ARGS then n == |toks|
            else var t := TokenAt(line, j);
                 n < |toks| && TokenPaired(line, t) && toks[n] == TokenText(line, t) && TokensDue(line, toks, t.next, n + 1)
  {
    if n < |toks| {
      assert toks[n] == toks[n..][0];
      assert toks[n + 1..] == toks[n..][1..];
    }
  }

  /** Where the loop of the tokenizer stands between two tokens. */
  ghost predicate Between(z: array<char>, args: seq<nat>, line: string, toks: seq<string>, i: nat)
    reads z
  {
    Ahead(z, line, i) && Parsed(z, args, toks, line, i) && TokensDue(line, toks, i, |args|)
  }

  /** The body of the loop; `more` is false where it breaks at the end of the line. */
  method NextArg(z: array<char>, args: seq<nat>, i: nat, ghost line: string, ghost toks: seq<string>)
    returns (more: bool, args': seq<nat>, next: nat)
    requires Between(z, args, line, toks, i) && i < |line| && |args| < MAX_ARGS
    modifies z
    ensures !more ==> args' == args && |args| == |toks| && Parsed(z, args, toks, line, |line|)
    ensures more ==> |args'| == |args| + 1 && i < next && Between(z, args', line, toks, next)
  {
    NextToken(line, toks, i, |args|);
    var j := SkipBlanks(z, i, line);
    if z[j] == '\0' {
      return false, args, j;
    }
    more := true;
    args', next := AddToken(z, args, j, line, toks);
  }

  method TokenizeLoop(z: array<char>, ghost line: string, ghost toks: seq<string>) returns (azArg: seq<nat>)
    requires HoldsAt(z, 0, line) && |line| >= 1 && Between(z, [], line, toks, 1)
    modifies z
    ensures |azArg| == |toks| <= MAX_ARGS
    ensures Parsed(z, azArg, toks, line, |line|)
  {
    var i, more := 1, true;
    azArg := [];
    while z[i] != '\0' && |azArg| < MAX_ARGS
      invariant 0 <= i && |azArg| <= MAX_ARGS && Between(z, azArg, line, toks, i)
      decreases |line| - i
    {
      more, azArg, i := NextArg(z, azArg, i, line, toks);
      if !more {
        return;
      }
    }
    NextToken(line, toks, i, |azArg|);
  }

  /** The parsing loop of do_meta_command(): azArg[] afterwards holds exactly the tokens of the line. */
  method Tokenize(z: array<char>, ghost line: string) returns (azArg: seq<nat>)
    requires HoldsAt(z, 0, line) && |line| >= 1 && AllPaired(line, 1, 0)
    modifies z
    ensures |azArg| == |Tokens(line, 1, 0)| <= MAX_ARGS
    ensures forall k | 0 <= k < |azArg| :: HoldsAt(z, azArg[k], Tokens(line, 1, 0)[k])
  {
    ghost var toks := Tokens(line, 1, 0);
    HoldsEach(z, 0, line);
    assert toks[0..] == toks;
    azArg := TokenizeLoop(z, line, toks);
  }

  // ---------- typing back what .show prints ----------

  /** The name of a dot-command, as it is typed. */
  predicate CommandName(name: string) {
    name != "" && name[0] != '\'' && name[0] != '"'
    && forall i | 0 <= i < |name| :: !IsSpace(name[i]) && name[i] != '\\' && name[i] != '\0'
  }

  lemma {:induction false} PlainResolves(w: string, i: nat)
    requires i <= |w| && forall k | 0 <= k < |w| :: w[k] != '\\'
    ensures Paired(w, i) && Resolved(w, i) == w[i..]
    decreases |w| - i
  {
    if i < |w| {
      PlainResolves(w, i + 1);
    }
  }

  lemma FindIs(line: string, i: nat, j: nat, stop: char -> bool)
    requires i <= j <= |line| && (forall k | i <= k < j :: !stop(line[k])) && (j < |line| ==> stop(line[j]))
    ensures Find(line, i, stop) == j
  {
    var f := Find(line, i, stop);
    if f < j {
      assert false;
    } else if j < f {
      assert false;
    }
  }

  lemma NulFreeUpToNul(s: string)
    requires NulFree(s)
    ensures UpToNul(s) == s
  {
    FindIs(s, 0, |s|, c => c == '\0');
  }

  /** The command name is the first token. */
  lemma NameIsToken(line: string, name: string, rest: string)
    requires CommandName(name) && line == "." + name + " " + rest
    ensures var t := TokenAt(line, 1);
            SkipSpaces(line, 1) == 1 && t.next == 2 + |name| && TokenPaired(line, t) && TokenText(line, t) == name
  {
    var e := 1 + |name|;
    assert line[1..e] == name && line[e] == ' ';
    assert forall k | 1 <= k < e :: line[k] == name[k - 1];
    FindIs(line, 1, e, IsSpace);
    PlainResolves(name, 0);
    NulFreeUpToNul(name);
  }

  /** A text without double quotes between two of them is a token. */
  lemma QuotedToken(line: string, p: nat, w: string, rest: string)
    requires '"' !in w && p <= |line| && line[p..] == ['"'] + w + ['"'] + rest
    ensures var e := p + 1 + |w|;
            SkipSpaces(line, p) == p && e < |line| && line[p + 1..e] == w && TokenAt(line, p) == Token(p + 1, e, |line| - |rest|, true)
  {
    var e := p + 1 + |w|;
    TailAfter(line, p, ['"'], w + ['"'] + rest);
    TailAfter(line, p + 1, w, ['"'] + rest);
    TailAfter(line, e, ['"'], rest);
    assert line[p + 1..e] == w;
    assert forall i | p + 1 <= i < e :: line[i] == line[p + 1..e][i - p - 1];
    FindIs(line, p + 1, e, x => x == '"');
  }

  /** Between single quotes a token is what it is, backslashes and all. */
  lemma SingleQuotedToken(line: string, p: nat, w: string, rest: string)
    requires '\'' !in w && p <= |line| && line[p..] == ['\''] + w + ['\''] + rest
    ensures var t := TokenAt(line, p);
            SkipSpaces(line, p) == p && t.next == |line| - |rest| && TokenPaired(line, t) && TokenText(line, t) == w
  {
    var e := p + 1 + |w|;
    TailAfter(line, p, ['\''], w + ['\''] + rest);
    TailAfter(line, p + 1, w, ['\''] + rest);
    TailAfter(line, e, ['\''], rest);
    assert line[p + 1..e] == w;
    assert forall i | p + 1 <= i < e :: line[i] == line[p + 1..e][i - p - 1];
    FindIs(line, p + 1, e, x => x == '\'');
  }

  /** Between double quotes its escapes are resolved, and it ends where an escape puts a NUL. */
  lemma DoubleQuotedToken(line: string, p: nat, w: string, rest: string)
    requires '"' !in w && Paired(w, 0) && p <= |line| && line[p..] == ['"'] + w + ['"'] + rest
    ensures var t := TokenAt(line, p);
            SkipSpaces(line, p) == p && t.next == |line| - |rest| && TokenPaired(line, t) && TokenText(line, t) == UpToNul(Resolved(w, 0))
  {
    QuotedToken(line, p, w, rest);
  }

  /** Without quotes they are resolved as well, and it goes up to the next white space, quotes inside it included. */
  lemma BareToken(line: string, p: nat, w: string, rest: string)
    requires w != "" && w[0] != '\'' && w[0] != '"' && (forall i | 0 <= i < |w| :: !IsSpace(w[i])) && Paired(w, 0)
    requires p <= |line| && line[p..] == w + rest && (rest == "" || IsSpace(rest[0]))
    ensures var t := TokenAt(line, p);
            && SkipSpaces(line, p) == p && t.next == |line| - (if rest == "" then 0 else |rest| - 1)
            && TokenPaired(line, t) && TokenText(line, t) == UpToNul(Resolved(w, 0))
  {
    var e := p + |w|;
    TailAfter(line, p, w, rest);
    assert line[p..e] == w;
    assert forall i | p <= i < e :: line[i] == line[p..e][i - p];
    assert rest != "" ==> line[e] == line[e..][0];
    FindIs(line, p, e, IsSpace);
  }

  /** Tokens are taken as long as there are any, and until there are 50. */
  lemma FiftyTokens(line: string, i: nat, n: nat)
    requires i <= |line| && AllPaired(line, i, n)
    ensures Tokens(line, i, n) == [] <==> SkipSpaces(line, i) == |line| || n >= 50
  {
  }

  lemma EscapedTokenText(line: string, t: Token, s: string)
    requires Bytes(s) && t.start <= t.end <= |line| && line[t.start..t.end] == Escaped(s) && t.resolve
    ensures TokenPaired(line, t) && TokenText(line, t) == s
  {
    EscapedResolves(Escaped(s), 0, s);
    NulFreeUpToNul(s);
  }

  /** A printed string without double quotes is a token, whatever follows it. */
  lemma StringIsToken(line: string, p: nat, s: string, rest: string)
    requires Bytes(s) && '"' !in s
    requires p <= |line| && line[p..] == ['"'] + Escaped(s) + ['"'] + rest
    ensures var t := TokenAt(line, p);
            SkipSpaces(line, p) == p && t.next == |line| - |rest| && TokenPaired(line, t) && TokenText(line, t) == s
  {
    EscapedHasNoQuote(s);
    QuotedToken(line, p, Escaped(s), rest);
    EscapedTokenText(line, TokenAt(line, p), s);
  }

  lemma {:induction false} EscapedHasNoQuote(s: string)
    requires '"' !in s
    ensures '"' !in Escaped(s)
  {
    if s != "" {
      EscapedHasNoQuote(s[1..]);
      assert '"' !in EscapeChar(s[0]);
    }
  }

  // Printed strings have no unpaired backslash, wherever their quotes and spaces cut them.

  predicate Cuts(c: char) {
    IsSpace(c) || c == '"' || c == '\''
  }

  /** From `i` on every backslash escapes a character at which no token is cut. */
  predicate Clean(line: string, i: nat)
    requires i <= |line|
    decreases |line| - i
  {
    if i == |line| then true
    else if line[i] != '\\' then Clean(line, i + 1)
    else i + 1 < |line| && !Cuts(line[i + 1]) && Clean(line, EscapeEnd(line, i))
  }

  /** An escape sequence before a cut ends before it, and is the same in the piece that is cut out. */
  lemma EscapeInPiece(line: string, a: nat, i: nat, e: nat)
    requires a <= i < e <= |line| && i + 1 < |line| && !Cuts(line[i + 1]) && (e < |line| ==> Cuts(line[e]))
    ensures i + 1 < e && EscapeEnd(line, i) <= e && EscapeEnd(line[a..e], i - a) == EscapeEnd(line, i) - a
  {
    var w := line[a..e];
    assert w[i + 1 - a] == line[i + 1];
    assert i + 2 < e ==> w[i + 2 - a] == line[i + 2];
    assert i + 3 < e ==> w[i + 3 - a] == line[i + 3];
  }

  lemma {:induction false} CleanPiece(line: string, a: nat, i: nat, e: nat)
    requires a <= i <= e <= |line| && Clean(line, i) && (e < |line| ==> Cuts(line[e]))
    ensures Paired(line[a..e], i - a) && Clean(line, e)
    decreases e - i
  {
    if i < e {
      assert line[a..e][i - a] == line[i];
      if line[i] == '\\' {
        EscapeInPiece(line, a, i, e);
        CleanPiece(line, a, EscapeEnd(line, i), e);
      } else {
        CleanPiece(line, a, i + 1, e);
      }
    }
  }

  lemma {:induction false} CleanSkip(line: string, i: nat, j: nat)
    requires i <= j <= |line| && forall k | i <= k < j :: line[k] != '\\'
    ensures Clean(line, i) == Clean(line, j)
    decreases j - i
  {
    if i < j {
      CleanSkip(line, i + 1, j);
    }
  }

  lemma {:induction false} CleanAfterSpaces(line: string, i: nat)
    requires i <= |line| && Clean(line, i)
    ensures Clean(line, SkipSpaces(line, i))
    decreases |line| - i
  {
    if i < |line| && IsSpace(line[i]) {
      CleanAfterSpaces(line, i + 1);
    }
  }

  lemma CleanToken(line: string, i: nat)
    requires i < |line| && !IsSpace(line[i]) && Clean(line, i)
    ensures var t := TokenAt(line, i); TokenPaired(line, t) && Clean(line, t.next)
  {
    var t := TokenAt(line, i);
    CleanPiece(line, t.start, t.start, t.end);
  }

  lemma {:induction false} CleanIsPaired(line: string, i: nat, n: nat)
    requires i <= |line| && Clean(line, i)
    ensures AllPaired(line, i, n)
    decreases |line| - i
  {
    var j := SkipSpaces(line, i);
    CleanAfterSpaces(line, i);
    if j < |line| {
      CleanToken(line, j);
      CleanIsPaired(line, TokenAt(line, j).next, n + 1);
    }
  }

  lemma {:induction false} EscapedIsClean(line: string, i: nat, s: string)
    requires Bytes(s) && i <= |line| && line[i..] == Escaped(s) + ['"']
    ensures Clean(line, i)
    decreases s
  {
    if s == "" {
      assert line[i..][0] == '"' && i + 1 == |line|;
    } else {
      var w := EscapeChar(s[0]);
      TailAfter(line, i, w, Escaped(s[1..]) + ['"']);
      EscapeCharReads(line, i, s[0]);
      EscapedIsClean(line, i + |w|, s[1..]);
      PieceAt(line, i, w, 0);
      if |w| > 1 {
        PieceAt(line, i, w, 1);
      }
      CleanStep(line, i, s[0]);
    }
  }

  lemma CleanStep(line: string, i: nat, c: char)
    requires var w := EscapeChar(c);
             && i + |w| <= |line| && Clean(line, i + |w|) && line[i] == w[0] && (|w| > 1 ==> line[i + 1] == w[1])
             && (w[0] == '\\' ==> i + 1 < |line| && EscapeEnd(line, i) == i + |w|)
             && (w[0] != '\\' ==> w == [c])
    ensures Clean(line, i)
  {
  }

  lemma ShownIsPaired(name: string, s: string, line: string)
    requires CommandName(name) && Bytes(s) && line == "." + name + " " + CString(s)
    ensures AllPaired(line, 1, 0)
  {
    var p := 3 + |name|;
    assert line[p..] == Escaped(s) + ['"'];
    EscapedIsClean(line, p, s);
    forall k | 1 <= k < p ensures line[k] != '\\' {
      assert k <= |name| ==> line[k] == name[k - 1];
    }
    CleanSkip(line, 1, p);
    CleanIsPaired(line, 1, 0);
  }

  /**
   What .show prints for a setting, typed back as the argument of a dot-command, is always
   cut into tokens without an unpaired backslash, and is read as the same text exactly when
   the text holds no double quote.
   */
  lemma ShownReadsBack(name: string, s: string)
    requires CommandName(name) && Bytes(s)
    ensures var line := "." + name + " " + CString(s);
            AllPaired(line, 1, 0) && (Tokens(line, 1, 0) == [name, s] <==> '"' !in s)
  {
    var line := "." + name + " " + CString(s);
    ShownIsPaired(name, s, line);
    NameIsToken(line, name, CString(s));
    var k := Find(s, 0, c => c == '"');
    var p := 2 + |name|;
    var rest := if k == |s| then "" else Escaped(s[k + 1..]) + ['"'];
    CStringSplits(s, k);
    assert line[p..] == ['"'] + Escaped(s[..k]) + ['"'] + rest;
    StringIsToken(line, p, s[..k], rest);
    if k == |s| {
      assert s[..k] == s;
      TwoTokens(line, p, name, s);
    } else {
      SecondToken(line, p, s[..k]);
    }
  }

  lemma SecondToken(line: string, p: nat, s: string)
    requires 1 <= p < |line| && SkipSpaces(line, 1) == 1 && SkipSpaces(line, p) == p
    requires TokenAt(line, 1).next == p
    requires var u := TokenAt(line, p); TokenPaired(line, u) && TokenText(line, u) == s
    requires AllPaired(line, 1, 0)
    ensures |Tokens(line, 1, 0)| >= 2 && Tokens(line, 1, 0)[1] == s
  {
    assert AllPaired(line, p, 1) && |Tokens(line, p, 1)| >= 1 && Tokens(line, p, 1)[0] == s;
  }

  /** A line that ends after its second token. */
  lemma TwoTokens(line: string, p: nat, name: string, s: string)
    requires 1 <= p < |line| && SkipSpaces(line, 1) == 1 && SkipSpaces(line, p) == p
    requires var t := TokenAt(line, 1); t.next == p && TokenPaired(line, t) && TokenText(line, t) == name
    requires var u := TokenAt(line, p); u.next == |line| && TokenPaired(line, u) && TokenText(line, u) == s
    ensures AllPaired(line, 1, 0) && Tokens(line, 1, 0) == [name, s]
  {
    assert SkipSpaces(line, |line|) == |line|;
    assert AllPaired(line, |line|, 2) && Tokens(line, |line|, 2) == [];
    assert AllPaired(line, p, 1) && Tokens(line, p, 1) == [s];
  }

  lemma CStringSplits(s: string, k: nat)
    requires k <= |s| && (k < |s| ==> s[k] == '"')
    ensures CString(s) == ['"'] + Escaped(s[..k]) + ['"'] + if k == |s| then "" else Escaped(s[k + 1..]) + ['"']
  {
    if k == |s| {
      assert s[..k] == s;
    } else {
      FlatMapConcat(EscapeChar, s[..k], s[k..]);
      assert s == s[..k] + s[k..];
      assert s[k..][1..] == s[k + 1..];
    }
  }

  /** `.separator` and `.nullvalue` keep at most 19 characters, so what they stored and .show printed they store again. */
  function Stored(arg: string): (r: string)
    ensures r <= arg && |r| <= 19 && (|r| < 19 ==> r == arg)
  {
    if |arg| <= 19 then arg else arg[..19]
  }

  lemma ShownRestores(name: string, arg: string)
    requires CommandName(name) && Bytes(arg) && '"' !in Stored(arg)
    ensures var line := "." + name + " " + CString(Stored(arg));
            AllPaired(line, 1, 0) && |Tokens(line, 1, 0)| == 2 && Stored(Tokens(line, 1, 0)[1]) == Stored(arg)
  {
    ShownReadsBack(name, Stored(arg));
  }
}
