/**
 _all_whitespace() and _is_command_terminator(): lines that hold nothing but
 white space and comments, and lines that end a statement like a semicolon.
 */
module Blank {
  import opened Text

  // ---------- the grammar ----------

  /** A space, a closed block comment or a line comment, each with the length of its body; Open is a comment to the end. */
  datatype Piece = Space | Block(n: nat) | Line(n: nat) | Open(n: nat)

  predicate TwoAt(z: string, i: nat, a: char, b: char) {
    i + 1 < |z| && z[i] == a && z[i + 1] == b
  }

  predicate NoNewline(z: string, i: nat, j: nat)
    requires i <= j <= |z|
  {
    forall k | i <= k < j :: z[k] != '\n'
  }

  /** The body of a block comment does not hold its closing mark. */
  predicate NoClose(z: string, i: nat, j: nat)
    requires i <= j <= |z|
  {
    forall k | i <= k < j :: !TwoAt(z, k, '*', '/')
  }

  /** From position `i` on the text is made of the pieces `ps`. */
  predicate Derives(z: string, i: nat, ps: seq<Piece>)
    requires i <= |z|
    decreases |ps|
  {
    if ps == [] then i == |z|
    else match ps[0]
      case Space => i < |z| && IsSpace(z[i]) && Derives(z, i + 1, ps[1..])
      case Block(n) =>
        TwoAt(z, i, '/', '*') && i + n + 4 <= |z| && TwoAt(z, i + 2 + n, '*', '/') && NoClose(z, i + 2, i + 2 + n)
        && Derives(z, i + n + 4, ps[1..])
      case Line(n) =>
        TwoAt(z, i, '-', '-') && i + n + 3 <= |z| && z[i + 2 + n] == '\n' && NoNewline(z, i + 2, i + 2 + n)
        && Derives(z, i + n + 3, ps[1..])
      case Open(n) =>
        TwoAt(z, i, '-', '-') && i + 2 + n == |z| && NoNewline(z, i + 2, |z|) && |ps| == 1
  }

  predicate MadeOf(z: string, i: nat, ps: seq<Piece>) {
    i <= |z| && Derives(z, i, ps)
  }

  // ---------- the scan ----------

  /** Start of the closing mark of a block comment, or the end of the text. */
  function CloseFrom(z: string, i: nat): (e: nat)
    requires i <= |z|
    ensures i <= e <= |z| && NoClose(z, i, e) && (e < |z| ==> TwoAt(z, e, '*', '/'))
    decreases |z| - i
  {
    if i == |z| || TwoAt(z, i, '*', '/') then i else CloseFrom(z, i + 1)
  }

  function NewlineFrom(z: string, i: nat): (e: nat)
    requires i <= |z|
    ensures i <= e <= |z| && NoNewline(z, i, e) && (e < |z| ==> z[e] == '\n')
    decreases |z| - i
  {
    if i == |z| || z[i] == '\n' then i else NewlineFrom(z, i + 1)
  }

  /** The text from `i` on is white space and comments. */
  predicate IsBlank(z: string, i: nat)
    requires i <= |z|
    decreases |z| - i
  {
    if i == |z| then true
    else if IsSpace(z[i]) then IsBlank(z, i + 1)
    else if TwoAt(z, i, '/', '*') then var e := CloseFrom(z, i + 2); e < |z| && IsBlank(z, e + 2)
    else if TwoAt(z, i, '-', '-') then var e := NewlineFrom(z, i + 2); e == |z| || IsBlank(z, e + 1)
    else false
  }

  lemma {:induction false} BlankDerives(z: string, i: nat) returns (ps: seq<Piece>)
    requires i <= |z| && IsBlank(z, i)
    ensures Derives(z, i, ps)
    decreases |z| - i
  {
    if i == |z| {
      return [];
    }
    var p, next;
    if IsSpace(z[i]) {
      p, next := Space, i + 1;
    } else if TwoAt(z, i, '/', '*') {
      var e := CloseFrom(z, i + 2);
      p, next := Block(e - i - 2), e + 2;
    } else {
      var e := NewlineFrom(z, i + 2);
      if e == |z| {
        return [Open(e - i - 2)];
      }
      p, next := Line(e - i - 2), e + 1;
    }
    var more := BlankDerives(z, next);
    ps := [p] + more;
    assert ps[1..] == more;
  }

  lemma {:induction false} DerivesBlank(z: string, i: nat, ps: seq<Piece>)
    requires i <= |z| && Derives(z, i, ps)
    ensures IsBlank(z, i)
    decreases |ps|
  {
    if ps != [] {
      match ps[0]
      case Space =>
        DerivesBlank(z, i + 1, ps[1..]);
      case Block(n) =>
        CloseIs(z, i + 2, i + 2 + n);
        DerivesBlank(z, i + n + 4, ps[1..]);
      case Line(n) =>
        NewlineIs(z, i + 2, i + 2 + n);
        DerivesBlank(z, i + n + 3, ps[1..]);
      case Open(n) =>
        NewlineIs(z, i + 2, |z|);
    }
  }

  lemma CloseIs(z: string, i: nat, e: nat)
    requires i <= e <= |z| && NoClose(z, i, e) && TwoAt(z, e, '*', '/')
    ensures CloseFrom(z, i) == e
  {
    var c := CloseFrom(z, i);
    if c < e {
      assert false;
    } else if e < c {
      assert false;
    }
  }

  lemma NewlineIs(z: string, i: nat, e: nat)
    requires i <= e <= |z| && NoNewline(z, i, e) && (e < |z| ==> z[e] == '\n')
    ensures NewlineFrom(z, i) == e
  {
    var c := NewlineFrom(z, i);
    if c < e {
      assert false;
    } else if e < c {
      assert false;
    }
  }

  /** _all_whitespace() accepts exactly spaces, closed block comments and line comments, in any order. */
  lemma BlankGrammar(z: string, i: nat)
    requires i <= |z|
    ensures IsBlank(z, i) <==> exists ps: seq<Piece> :: MadeOf(z, i, ps)
  {
    if IsBlank(z, i) {
      var ps := BlankDerives(z, i);
      assert MadeOf(z, i, ps);
    }
    if ps: seq<Piece> :| MadeOf(z, i, ps) {
      DerivesBlank(z, i, ps);
    }
  }

  // ---------- the methods ----------

  method SkipBlock(z: string, i: nat) returns (e: nat)
    requires i <= |z| && NulFree(z)
    ensures e == CloseFrom(z, i)
  {
    e := i;
    while At(z, e) != '\0' && (At(z, e) != '*' || At(z, e + 1) != '/')
      invariant i <= e <= |z| && CloseFrom(z, e) == CloseFrom(z, i)
      decreases |z| - e
    {
      e := e + 1;
    }
  }

  method SkipLine(z: string, i: nat) returns (e: nat)
    requires i <= |z| && NulFree(z)
    ensures e == NewlineFrom(z, i)
  {
    e := i;
    while At(z, e) != '\0' && At(z, e) != '\n'
      invariant i <= e <= |z| && NewlineFrom(z, e) == NewlineFrom(z, i)
      decreases |z| - e
    {
      e := e + 1;
    }
  }

  /** _all_whitespace(&z[start]): the cursor never passes the terminator. */
  method AllWhitespace(z: string, start: nat) returns (r: bool)
    requires start <= |z| && NulFree(z)
    ensures r == IsBlank(z, start)
  {
    var i := start;
    while At(z, i) != '\0'
      invariant start <= i <= |z| && IsBlank(z, i) == IsBlank(z, start)
      decreases |z| - i
    {
      if IsSpace(At(z, i)) {
        i := i + 1;
      } else if At(z, i) == '/' && At(z, i + 1) == '*' {
        i := SkipBlock(z, i + 2);
        if At(z, i) == '\0' {
          return false;
        }
        i := i + 2;
      } else if At(z, i) == '-' && At(z, i + 1) == '-' {
        i := SkipLine(z, i + 2);
        if At(z, i) == '\0' {
          return true;
        }
        i := i + 1;
      } else {
        return false;
      }
    }
    r := true;
  }

  /** A line that stands for a semicolon: "/" or "go" in any case, with blanks around it. */
  predicate IsTerminator(z: string) {
    var i := SkipSpaces(z, 0);
    || (i < |z| && z[i] == '/' && IsBlank(z, i + 1))
    || (i + 1 < |z| && IsLetter(z[i], 'g') && IsLetter(z[i + 1], 'o') && IsBlank(z, i + 2))
  }

  /** A terminator is a slash or the word go, in either case, with white space before it and blanks and comments behind it. */
  lemma TerminatorIs(z: string)
    ensures IsTerminator(z) <==>
            exists i | 0 <= i < |z| :: (forall k | 0 <= k < i :: IsSpace(z[k])) && TerminatorAt(z, i)
  {
    var i := SkipSpaces(z, 0);
    SkipsOnlySpaces(z, 0);
    if IsTerminator(z) {
      assert TerminatorAt(z, i);
    }
    forall j | 0 <= j < |z| && (forall k | 0 <= k < j :: IsSpace(z[k])) && TerminatorAt(z, j) ensures j == i {
      assert !IsSpace(z[j]);
    }
  }

  predicate TerminatorAt(z: string, i: nat) {
    && i < |z|
    && ((z[i] == '/' && IsBlank(z, i + 1))
        || (i + 1 < |z| && z[i] in "gG" && z[i + 1] in "oO" && IsBlank(z, i + 2)))
  }

  /** _is_command_terminator() */
  method IsCommandTerminator(z: string) returns (r: bool)
    requires NulFree(z)
    ensures r == IsTerminator(z)
    ensures r ==> z != ""
  {
    var i := 0;
    while IsSpace(At(z, i))
      invariant 0 <= i <= |z| && SkipSpaces(z, i) == SkipSpaces(z, 0)
      decreases |z| - i
    {
      i := i + 1;
    }
    if At(z, i) == '/' {
      var b := AllWhitespace(z, i + 1);
      if b {
        return true;
      }
    }
    if IsLetter(At(z, i), 'g') && IsLetter(At(z, i + 1), 'o') {
      var b := AllWhitespace(z, i + 2);
      if b {
        return true;
      }
    }
    r := false;
  }
}
