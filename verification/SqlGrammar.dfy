/**
 What sqlite3_complete() accepts, said without its table: a text is complete if its
 tokens, white space and comments left out, are whole statements. A statement ends
 with its first semicolon, but a CREATE TRIGGER ends with the first `; END ;`.
 */
module SqlGrammar {
  import opened Text
  import opened SqlComplete

  // ---------- the grammar ----------

  /** The first token from `i` on that is not `t`. */
  function Past(ts: seq<Token>, i: nat, t: Token): (j: nat)
    requires i <= |ts|
    ensures i <= j <= |ts| && (j < |ts| ==> ts[j] != t)
    decreases |ts| - i
  {
    if i < |ts| && ts[i] == t then Past(ts, i + 1, t) else i
  }

  /** The first semicolon from `i` on, or the end. */
  function FirstSemi(ts: seq<Token>, i: nat): (j: nat)
    requires i <= |ts|
    ensures i <= j <= |ts| && (j < |ts| ==> ts[j] == Semi)
    decreases |ts| - i
  {
    if i < |ts| && ts[i] != Semi then FirstSemi(ts, i + 1) else i
  }

  predicate EndAt(ts: seq<Token>, j: nat) {
    j + 2 < |ts| && ts[j] == Semi && ts[j + 1] == EndWord && ts[j + 2] == Semi
  }

  /** The first `; END ;` from `i` on, or the end. */
  function FirstEnd(ts: seq<Token>, i: nat): (j: nat)
    requires i <= |ts|
    ensures i <= j <= |ts| && (j < |ts| ==> EndAt(ts, j))
    decreases |ts| - i
  {
    if i < |ts| && !EndAt(ts, i) then FirstEnd(ts, i + 1) else i
  }

  /** These are the first such places. */
  lemma {:induction false} NoneBefore(ts: seq<Token>, i: nat, k: nat, t: Token)
    requires i <= k < |ts|
    ensures k < Past(ts, i, t) ==> ts[k] == t
    ensures k < FirstSemi(ts, i) ==> ts[k] != Semi
    ensures k < FirstEnd(ts, i) ==> !EndAt(ts, k)
    decreases k - i
  {
    if i < k {
      NoneBefore(ts, i + 1, k, t);
    }
  }

  /** A statement that begins with CREATE, TEMP any number of times and TRIGGER, possibly after EXPLAIN and other words: where its body begins. */
  function TriggerBody(ts: seq<Token>, i: nat): (b: Option<nat>)
    requires i <= |ts|
    ensures b.Some? ==> i < b.value <= |ts|
  {
    var h := if i < |ts| && ts[i] == ExplainWord then Past(ts, i + 1, Other) else i;
    if h < |ts| && ts[h] == CreateWord then AfterCreate(ts, h + 1) else None
  }

  function AfterCreate(ts: seq<Token>, i: nat): (b: Option<nat>)
    requires i <= |ts|
    ensures b.Some? ==> i < b.value <= |ts|
  {
    var k := Past(ts, i, TempWord);
    if k < |ts| && ts[k] == TriggerWord then Some(k + 1) else None
  }

  /** The tokens from `i` on are whole statements. */
  predicate Whole(ts: seq<Token>, i: nat)
    requires i <= |ts|
    decreases |ts| - i
  {
    if i == |ts| then true
    else
      var b := TriggerBody(ts, i);
      if b.Some? then EndsTrigger(ts, b.value)
      else
        var j := FirstSemi(ts, i);
        j < |ts| && Whole(ts, j + 1)
  }

  /** A trigger that goes on at `i` ends, and whole statements follow. */
  predicate EndsTrigger(ts: seq<Token>, i: nat)
    requires i <= |ts|
    decreases |ts| - i
  {
    var j := FirstEnd(ts, i);
    j < |ts| && Whole(ts, j + 3)
  }

  /** The tokens from position `i` on but white space and comments; none of it if something is never closed. */
  function TokensFrom(z: string, i: nat): Option<seq<Token>>
    requires i <= |z|
    decreases |z| - i
  {
    if i == |z| then Some([])
    else match ScanAt(z, i)
      case NeverClosed => None
      case LastRemark => Some([])
      case Tok(t, next) =>
        var more := TokensFrom(z, next);
        if more.None? || t == White then more else Some([t] + more.value)
  }

  // ---------- the table follows the grammar ----------

  function After(p: Phase, ts: seq<Token>, i: nat): Phase
    requires i <= |ts|
    decreases |ts| - i
  {
    if i == |ts| then p else After(Trans(p, ts[i]), ts, i + 1)
  }

  ghost predicate NoWhite(ts: seq<Token>) {
    forall k | 0 <= k < |ts| :: ts[k] != White
  }

  /** From `i` on the phase leads to what follows the first semicolon. */
  ghost predicate SemiRule(p: Phase, ts: seq<Token>, i: nat)
    requires i <= |ts|
  {
    var j := FirstSemi(ts, i);
    if j == |ts| then After(p, ts, i) != Begin else After(p, ts, i) == After(Begin, ts, j + 1)
  }

  lemma {:induction false} NormalAfter(ts: seq<Token>, i: nat)
    requires i <= |ts| && NoWhite(ts)
    ensures SemiRule(Normal, ts, i)
    decreases |ts| - i
  {
    if i < |ts| {
      NormalAfter(ts, i + 1);
    }
  }

  /** In a trigger everything up to the first `; END ;` is passed over. */
  lemma {:induction false} TriggerAfter(ts: seq<Token>, i: nat)
    requires i <= |ts| && NoWhite(ts)
    ensures var j := FirstEnd(ts, i);
            if j == |ts| then After(Trigger, ts, i) != Begin else After(Trigger, ts, i) == After(Begin, ts, j + 3)
    decreases |ts| - i
  {
    if i < |ts| {
      if ts[i] != Semi || (i + 1 < |ts| && ts[i + 1] == Semi) {
        TriggerAfter(ts, i + 1);
      } else if i + 1 < |ts| {
        assert After(Trigger, ts, i) == After(AfterSemi, ts, i + 1);
        assert FirstEnd(ts, i + 1) == FirstEnd(ts, i + 2);
        if ts[i + 1] != EndWord {
          TriggerAfter(ts, i + 2);
        } else if i + 2 < |ts| {
          assert After(AfterSemi, ts, i + 1) == After(AfterEnd, ts, i + 2);
          if ts[i + 2] != Semi {
            TriggerAfter(ts, i + 3);
            assert FirstEnd(ts, i + 2) == FirstEnd(ts, i + 3);
          }
        } else {
          assert After(AfterSemi, ts, i + 1) == AfterEnd && FirstEnd(ts, i + 2) == |ts|;
        }
      }
    }
  }

  lemma {:induction false} CreateAfter(ts: seq<Token>, i: nat)
    requires i <= |ts| && NoWhite(ts)
    ensures var b := AfterCreate(ts, i);
            if b.Some? then After(Create, ts, i) == After(Trigger, ts, b.value) else SemiRule(Create, ts, i)
    decreases |ts| - i
  {
    if i < |ts| {
      if ts[i] == TempWord {
        CreateAfter(ts, i + 1);
      } else {
        NormalAfter(ts, i + 1);
      }
    }
  }

  lemma {:induction false} ExplainAfter(ts: seq<Token>, i: nat)
    requires i <= |ts| && NoWhite(ts)
    ensures var h := Past(ts, i, Other);
            if h < |ts| && ts[h] == CreateWord then
              After(Explain, ts, i) == After(Create, ts, h + 1) && FirstSemi(ts, i) == FirstSemi(ts, h + 1)
            else SemiRule(Explain, ts, i)
    decreases |ts| - i
  {
    if i < |ts| {
      if ts[i] == Other {
        ExplainAfter(ts, i + 1);
      } else {
        NormalAfter(ts, i + 1);
      }
    }
  }

  lemma FirstToken(ts: seq<Token>, i: nat, q: Phase)
    requires i < |ts| && ts[i] != Semi && q == Trans(Begin, ts[i])
    ensures After(Begin, ts, i) == After(q, ts, i + 1) && FirstSemi(ts, i) == FirstSemi(ts, i + 1)
  {
  }

  lemma ExplainStatement(ts: seq<Token>, i: nat)
    requires i < |ts| && NoWhite(ts) && ts[i] == ExplainWord
    ensures var b := TriggerBody(ts, i);
            if b.Some? then After(Begin, ts, i) == After(Trigger, ts, b.value) else SemiRule(Begin, ts, i)
  {
    var h := Past(ts, i + 1, Other);
    FirstToken(ts, i, Explain);
    ExplainAfter(ts, i + 1);
    if h < |ts| && ts[h] == CreateWord {
      CreateAfter(ts, h + 1);
      if AfterCreate(ts, h + 1).None? {
        SameRule(Begin, i, Create, h + 1, ts);
      }
    } else {
      SameRule(Begin, i, Explain, i + 1, ts);
    }
  }

  lemma SameRule(p: Phase, i: nat, q: Phase, j: nat, ts: seq<Token>)
    requires i <= |ts| && j <= |ts| && After(p, ts, i) == After(q, ts, j) && FirstSemi(ts, i) == FirstSemi(ts, j) && SemiRule(q, ts, j)
    ensures SemiRule(p, ts, i)
  {
  }

  /** One statement. */
  lemma StatementAfter(ts: seq<Token>, i: nat)
    requires i < |ts| && NoWhite(ts)
    ensures var b := TriggerBody(ts, i);
            if b.Some? then After(Begin, ts, i) == After(Trigger, ts, b.value) else SemiRule(Begin, ts, i)
  {
    if ts[i] == ExplainWord {
      ExplainStatement(ts, i);
    } else if ts[i] == CreateWord {
      CreateAfter(ts, i + 1);
    } else {
      NormalAfter(ts, i + 1);
    }
  }

  lemma {:induction false} WholeAfter(ts: seq<Token>, i: nat)
    requires i <= |ts| && NoWhite(ts)
    ensures After(Begin, ts, i) == Begin <==> Whole(ts, i)
    decreases |ts| - i
  {
    if i < |ts| {
      StatementAfter(ts, i);
      var b := TriggerBody(ts, i);
      if b.Some? {
        TriggerWholeAfter(ts, b.value);
      } else {
        var j := FirstSemi(ts, i);
        if j < |ts| {
          WholeAfter(ts, j + 1);
        }
      }
    }
  }

  lemma {:induction false} TriggerWholeAfter(ts: seq<Token>, i: nat)
    requires i <= |ts| && NoWhite(ts)
    ensures After(Trigger, ts, i) == Begin <==> EndsTrigger(ts, i)
    decreases |ts| - i
  {
    TriggerAfter(ts, i);
    var j := FirstEnd(ts, i);
    if j < |ts| {
      WholeAfter(ts, j + 3);
    }
  }

  // ---------- texts ----------

  lemma {:induction false} AfterShift(p: Phase, t: Token, ts: seq<Token>, i: nat)
    requires i <= |ts|
    ensures After(p, [t] + ts, i + 1) == After(p, ts, i)
    decreases |ts| - i
  {
    if i < |ts| {
      assert ([t] + ts)[i + 1] == ts[i];
      AfterShift(Trans(p, ts[i]), t, ts, i + 1);
    }
  }

  /** sqlite3_complete() looks at the tokens and at nothing else. */
  lemma {:induction false} CompleteByTokens(z: string, i: nat, p: Phase)
    requires i <= |z|
    ensures var ts := TokensFrom(z, i);
            && (ts.Some? ==> NoWhite(ts.value))
            && (CompleteFrom(z, i, p) <==> ts.Some? && After(p, ts.value, 0) == Begin)
    decreases |z| - i
  {
    if i < |z| && ScanAt(z, i).Tok? {
      var t, next := ScanAt(z, i).token, ScanAt(z, i).next;
      CompleteByTokens(z, next, Trans(p, t));
      var more := TokensFrom(z, next);
      if more.Some? && t != White {
        AfterShift(Trans(p, t), t, more.value, 0);
      }
    }
  }

  /**
   A text is complete if and only if everything in it is closed, it is not blank, and its
   tokens are whole statements.
   */
  lemma CompleteIsWhole(z: string)
    ensures var ts := TokensFrom(z, 0); Complete(z) <==> ts.Some? && ts.value != [] && Whole(ts.value, 0)
  {
    CompleteByTokens(z, 0, Invalid);
    var ts := TokensFrom(z, 0);
    if ts.Some? && ts.value != [] {
      assert After(Invalid, ts.value, 0) == After(Begin, ts.value, 0);
      WholeAfter(ts.value, 0);
    }
  }

  /** Inside a trigger: complete if and only if `; END ;` comes, and what is after its first place is whole statements. */
  lemma TriggerIsWhole(z: string, i: nat)
    requires i <= |z|
    ensures var ts := TokensFrom(z, i);
            CompleteFrom(z, i, Trigger) <==> ts.Some? && EndsTrigger(ts.value, 0)
  {
    CompleteByTokens(z, i, Trigger);
    var ts := TokensFrom(z, i);
    if ts.Some? {
      TriggerWholeAfter(ts.value, 0);
    }
  }

  /** A word of the text, in either case. */
  ghost predicate WordAt(z: string, i: nat, word: string) {
    && i + |word| <= |z| && (forall k | 0 <= k < |word| :: z[i + k] == word[k] || z[i + k] as int + 32 == word[k] as int)
    && (i + |word| < |z| ==> !IdChar(z[i + |word|]))
  }

  lemma {:induction false} IdEndAt(z: string, i: nat, e: nat)
    requires i <= e <= |z| && (forall k | i <= k < e :: IdChar(z[k])) && (e < |z| ==> !IdChar(z[e]))
    ensures IdEnd(z, i) == e
    decreases e - i
  {
    if i < e {
      IdEndAt(z, i + 1, e);
    }
  }

  lemma WordScanned(z: string, i: nat, word: string)
    requires word != "" && WordAt(z, i, word) && forall k | 0 <= k < |word| :: 'a' <= word[k] <= 'z'
    ensures ScanAt(z, i) == Tok(WordToken(z, i, i + |word|), i + |word|) && SameWord(z, i, i + |word|, word)
  {
    var e := i + |word|;
    forall k | i <= k < e ensures IdChar(z[k]) {
      var m := k - i;
      assert z[i + m] == word[m] || z[i + m] as int + 32 == word[m] as int;
    }
    IdEndAt(z, i, e);
  }

  /**
   The words that the machine knows, as they are written: each token is found exactly where
   its word is.
   */
  lemma WordsAre(z: string, i: nat, e: nat)
    requires i < e <= |z|
    ensures WordToken(z, i, e) == CreateWord <==> SameWord(z, i, e, "create")
    ensures WordToken(z, i, e) == TriggerWord <==> SameWord(z, i, e, "trigger")
    ensures WordToken(z, i, e) == TempWord <==> SameWord(z, i, e, "temp") || SameWord(z, i, e, "temporary")
    ensures WordToken(z, i, e) == EndWord <==> SameWord(z, i, e, "end")
    ensures WordToken(z, i, e) == ExplainWord <==> SameWord(z, i, e, "explain")
    ensures WordToken(z, i, e) != Semi && WordToken(z, i, e) != White
  {
    if SameWord(z, i, e, "create") {
      assert IsLetter(z[i + 0], "create"[0]);
    }
    if SameWord(z, i, e, "trigger") {
      assert IsLetter(z[i + 0], "trigger"[0]);
    }
    if SameWord(z, i, e, "explain") {
      assert IsLetter(z[i + 0], "explain"[0]);
    }
  }

  /** A token is a semicolon exactly if it is one, and white space exactly if it is a blank or a comment. */
  lemma TokensAre(z: string, i: nat)
    requires i < |z| && ScanAt(z, i).Tok?
    ensures ScanAt(z, i).token == Semi <==> z[i] == ';'
    ensures ScanAt(z, i).token == White <==> z[i] in " \r\t\n\U{0C}" || (i + 1 < |z| && (z[i..i + 2] == "/*" || z[i..i + 2] == "--"))
    ensures !IdChar(z[i]) ==> ScanAt(z, i).token in {Semi, White, Other}
  {
    if IdChar(z[i]) {
      WordsAre(z, i, IdEnd(z, i));
    }
  }

  /** A word that the machine knows and a blank. */
  lemma WordPasses(z: string, i: nat, word: string, t: Token, p: Phase, q: Phase)
    requires word != "" && WordAt(z, i, word) && forall k | 0 <= k < |word| :: 'a' <= word[k] <= 'z'
    requires i + |word| < |z| && z[i + |word|] == ' ' && WordToken(z, i, i + |word|) == t && Trans(p, t) == q
    ensures CompleteFrom(z, i, p) == CompleteFrom(z, i + |word| + 1, q)
  {
    WordScanned(z, i, word);
    assert ScanAt(z, i + |word|) == Tok(White, i + |word| + 1);
  }

  lemma TriggerBegins(z: string)
    requires |z| >= 15 && WordAt(z, 0, "create") && z[6] == ' ' && WordAt(z, 7, "trigger") && z[14] == ' '
    ensures Complete(z) == CompleteFrom(z, 15, Trigger)
  {
    WordScanned(z, 0, "create");
    WordsAre(z, 0, 6);
    WordPasses(z, 0, "create", CreateWord, Invalid, Create);
    WordScanned(z, 7, "trigger");
    WordsAre(z, 7, 14);
    WordPasses(z, 7, "trigger", TriggerWord, Create, Trigger);
  }

  lemma TwoWords(z: string, words: string, rest: string)
    requires words == "CREATE TRIGGER " && z == words + rest
    ensures |z| >= 15 && WordAt(z, 0, "create") && z[6] == ' ' && WordAt(z, 7, "trigger") && z[14] == ' '
  {
    assert forall k | 0 <= k < 15 :: z[k] == words[k];
  }

  /** A text that begins with CREATE TRIGGER is complete if and only if `; END ;` comes, and whole statements after it. */
  lemma CreateTrigger(rest: string)
    ensures var z := "CREATE TRIGGER " + rest;
            var ts := TokensFrom(z, 15);
            Complete(z) <==> ts.Some? && EndsTrigger(ts.value, 0)
  {
    var z := "CREATE TRIGGER " + rest;
    TwoWords(z, "CREATE TRIGGER ", rest);
    TriggerBegins(z);
    TriggerIsWhole(z, 15);
  }
}
