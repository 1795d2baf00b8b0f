/**
 Lines that hold nothing but a slash or the word go: in the shell they end exactly
 the batches that a semicolon at their end would have ended.
 */
module Terminators {
  import opened Text
  import opened Blank
  import opened Statements
  import C = SqlComplete
  import X = ShellExec
  import W = ShellWorld

  // ---------- a semicolon on a line of its own ----------

  /** Two texts agree before `n`, where a newline or a semicolon follows. */
  ghost predicate Alike(a: string, b: string, n: nat) {
    && n < |a| && n < |b| && (a[n] == ';' || a[n] == '\n') && (b[n] == ';' || b[n] == '\n')
    && forall k | 0 <= k < n :: a[k] == b[k]
  }

  lemma TwoAlike(a: string, b: string, i: nat, n: nat, c: char, d: char)
    requires Alike(a, b, n) && i < n && d != ';' && d != '\n'
    ensures TwoAt(a, i, c, d) == TwoAt(b, i, c, d) && (TwoAt(a, i, c, d) ==> i + 1 < n)
  {
  }

  lemma {:induction false} IdEndAlike(a: string, b: string, i: nat, n: nat)
    requires Alike(a, b, n) && i <= n
    ensures C.IdEnd(a, i) == C.IdEnd(b, i) <= n
    decreases n - i
  {
    if i < n {
      IdEndAlike(a, b, i + 1, n);
    }
  }

  lemma {:induction false} CharAlike(a: string, b: string, i: nat, n: nat, c: char)
    requires Alike(a, b, n) && i <= n
    ensures C.CharFrom(a, i, c) < n || C.CharFrom(b, i, c) < n ==> C.CharFrom(a, i, c) == C.CharFrom(b, i, c)
    decreases n - i
  {
    if i < n {
      CharAlike(a, b, i + 1, n, c);
    }
  }

  lemma {:induction false} CloseAlike(a: string, b: string, i: nat, n: nat)
    requires Alike(a, b, n) && i <= n
    ensures CloseFrom(a, i) < n || CloseFrom(b, i) < n ==> CloseFrom(a, i) == CloseFrom(b, i) && CloseFrom(a, i) + 1 < n
    decreases n - i
  {
    if i < n {
      TwoAlike(a, b, i, n, '*', '/');
      CloseAlike(a, b, i + 1, n);
    }
  }

  lemma {:induction false} NewlineAlike(a: string, b: string, i: nat, n: nat)
    requires Alike(a, b, n) && i <= n
    ensures NewlineFrom(a, i) < n || NewlineFrom(b, i) < n ==> NewlineFrom(a, i) == NewlineFrom(b, i)
    decreases n - i
  {
    if i < n {
      NewlineAlike(a, b, i + 1, n);
    }
  }

  lemma WordAlike(a: string, b: string, i: nat, e: nat, n: nat)
    requires Alike(a, b, n) && i < e <= n
    ensures C.WordToken(a, i, e) == C.WordToken(b, i, e)
  {
    SameWordAlike(a, b, i, e, n, "create");
    SameWordAlike(a, b, i, e, n, "trigger");
    SameWordAlike(a, b, i, e, n, "temp");
    SameWordAlike(a, b, i, e, n, "temporary");
    SameWordAlike(a, b, i, e, n, "end");
    SameWordAlike(a, b, i, e, n, "explain");
  }

  lemma SameWordAlike(a: string, b: string, i: nat, e: nat, n: nat, word: string)
    requires Alike(a, b, n) && i < e <= n && forall k | 0 <= k < |word| :: 'a' <= word[k] <= 'z'
    ensures C.SameWord(a, i, e, word) == C.SameWord(b, i, e, word)
  {
  }

  /** A token that ends before the place where the texts part is in both. */
  lemma ScanAlike(a: string, b: string, i: nat, n: nat)
    requires Alike(a, b, n) && i < n && C.ScanAt(a, i).Tok? && C.ScanAt(a, i).next <= n
    ensures C.ScanAt(b, i) == C.ScanAt(a, i)
  {
    TwoAlike(a, b, i, n, '/', '*');
    TwoAlike(a, b, i, n, '-', '-');
    if TwoAt(a, i, '/', '*') {
      CloseAlike(a, b, i + 2, n);
    } else if TwoAt(a, i, '-', '-') {
      NewlineAlike(a, b, i, n);
    } else if a[i] == '[' {
      CharAlike(a, b, i + 1, n, ']');
    } else if C.IsQuote(a[i]) {
      CharAlike(a, b, i + 1, n, a[i]);
    } else if C.IdChar(a[i]) {
      IdEndAlike(a, b, i, n);
      WordAlike(a, b, i, C.IdEnd(a, i), n);
    }
  }

  /** No token takes along a semicolon at the end of the text. */
  lemma SemicolonStands(z: string, i: nat, n: nat)
    requires n + 1 == |z| && z[n] == ';' && i < n && C.ScanAt(z, i).Tok?
    ensures C.ScanAt(z, i).next <= n
  {
  }

  /** A remark that a semicolon would be part of ends before a newline. */
  lemma RemarkEnds(a: string, b: string, i: nat, n: nat)
    requires Alike(a, b, n) && |a| == n + 1 && a[n] == ';' && b[n] == '\n' && i < n && C.ScanAt(a, i) == C.LastRemark
    ensures C.ScanAt(b, i) == C.Tok(C.White, n + 1)
  {
    TwoAlike(a, b, i, n, '-', '-');
    TwoAlike(a, b, i, n, '/', '*');
    NewlineIs(b, i, n);
  }

  lemma {:induction false} NewlineFromPhase(a: string, b: string, i: nat, n: nat, p: C.Phase)
    requires Alike(a, b, n) && |a| == n + 1 && a[n] == ';' && |b| == n + 2 && b[n] == '\n' && b[n + 1] == ';'
    requires i <= n && C.CompleteFrom(a, i, p)
    ensures C.CompleteFrom(b, i, p)
    decreases n - i
  {
    assert C.CompleteFrom(b, n, p) == C.CompleteFrom(b, n + 1, p) == (C.Trans(p, C.Semi) == C.Begin);
    if i < n {
      var r := C.ScanAt(a, i);
      if r.Tok? {
        SemicolonStands(a, i, n);
        ScanAlike(a, b, i, n);
        NewlineFromPhase(a, b, r.next, n, C.Trans(p, r.token));
      } else {
        RemarkEnds(a, b, i, n);
      }
    }
  }

  /** What a semicolon completes, a semicolon on the next line completes as well. */
  lemma NewlineBeforeSemicolon(sql: string)
    requires C.Complete(sql + ";")
    ensures C.Complete(sql + "\n;")
  {
    NewlineFromPhase(sql + ";", sql + "\n;", 0, |sql|, C.Invalid);
  }

  // ---------- terminator lines in the shell ----------

  /** In the shell a terminator line ends every batch that a semicolon would complete, and runs it with that semicolon. */
  lemma TerminatorEnds(env: Env, script: X.Script, cb: X.Callback, w: W.World, st: State, from: nat, sql: string, line: string)
    requires W.RunsOn(env, script, cb, w) && st.pending == Some(Pending(from, sql)) && IsTerminator(line) && C.Complete(sql + ";")
    ensures var n, text := st.lineno + 1, sql + "\n;";
            var failed := W.ExecAfter(script, cb, w, st.events, text).rc != 0;
            Step(env, st, Classify(line)) ==
            State(st.events + [Event(from, n, Executed(text))], None, n, st.errCnt + (if failed then 1 else 0), st.exited)
  {
    var text := sql + "\n;";
    NewlineBeforeSemicolon(sql);
    assert env.complete(sql + ";") == C.Complete(sql + ";") && env.complete(text) == C.Complete(text);
    assert env.fails(st.events, text) == (W.ExecAfter(script, cb, w, st.events, text).rc != X.SQLITE_OK);
    FurtherSqlLine(env, st, from, sql, line);
  }

  /** And it ends no other: the line joins the batch as it is. */
  lemma TerminatorWaits(env: Env, script: X.Script, cb: X.Callback, w: W.World, st: State, from: nat, sql: string, line: string)
    requires W.RunsOn(env, script, cb, w) && st.pending == Some(Pending(from, sql)) && IsTerminator(line) && !C.Complete(sql + ";")
    requires ';' !in line
    ensures Step(env, st, Classify(line)) == State(st.events, Some(Pending(from, sql + "\n" + line)), st.lineno + 1, st.errCnt, st.exited)
  {
    assert env.complete(sql + ";") == C.Complete(sql + ";");
    FurtherSqlLine(env, st, from, sql, line);
  }

  /** Over whole runs: lines that leave SQL waiting, and then a terminator line. */
  lemma TerminatorEndsRun(env: Env, script: X.Script, cb: X.Callback, w: W.World, lines: seq<Input>, end: State, from: nat, sql: string, line: string)
    requires W.RunsOn(env, script, cb, w) && end == Run(env, START, lines) && end.lineno == |lines| && GoesOn(env, end)
    requires end.pending == Some(Pending(from, sql)) && IsTerminator(line) && C.Complete(sql + ";")
    ensures var last := Run(env, START, lines + [Classify(line)]);
            last.events == end.events + [Event(from, |lines| + 1, Executed(sql + "\n;"))] && last.pending == None
  {
    RunOneMore(env, START, lines, Classify(line));
    TerminatorEnds(env, script, cb, w, end, from, sql, line);
  }
}
