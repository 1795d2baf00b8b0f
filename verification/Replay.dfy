/**
 The shell reads what it printed: the INSERT statements of a query, given to
 process_input() as a file, are executed one by one, whatever their texts hold.
 The lines of a literal may look like blank lines, terminators or dot-commands.
 */
module Replay {
  import opened Text
  import opened Readers
  import opened LineReader
  import opened Quoting
  import opened Blank
  import opened InsertOutput
  import opened SqlLexer
  import opened LineEndings
  import opened S = Statements
  import P = ProcessInput
  import X = ShellExec
  import opened SqlComplete
  import opened ShellWorld
  import opened ShellState

  // ---------- lines of a text ----------

  /** On the lines of a text the machine of process_input() goes from `st` to `end`. */
  ghost predicate Leads(env: Env, st: State, s: string, end: State)
    decreases |s|
  {
    if s == "" || !GoesOn(env, st) then st == end
    else Leads(env, Step(env, st, Classify(LineText(s, false))), AfterLine(s, false), end)
  }

  lemma {:induction false} RunLeads(env: Env, st: State, lines: seq<Input>, s: string, end: State)
    requires st.lineno <= |lines| && lines[st.lineno..] == P.Inputs(s) && Leads(env, st, s, end)
    ensures S.Run(env, st, lines) == end
    decreases |s|
  {
    if s != "" && GoesOn(env, st) {
      var n := st.lineno;
      assert lines[n] == lines[n..][0];
      assert lines[n + 1..] == lines[n..][1..];
      RunLeads(env, Step(env, st, lines[n]), lines, AfterLine(s, false), end);
    }
  }

  /** The first newline of a text. */
  lemma FirstNewline(t: string) returns (w: string, more: string)
    requires '\n' in t
    ensures '\n' !in w && t == w + ("\n" + more)
  {
    var k := NewlineFrom(t, 0);
    w, more := t[..k], t[k + 1..];
    assert t[k] == '\n';
  }

  function Newlines(s: string): nat {
    if s == "" then 0 else (if s[0] == '\n' then 1 else 0) + Newlines(s[1..])
  }

  lemma {:induction false} NewlinesLine(w: string, more: string)
    requires '\n' !in w
    ensures Newlines(w) == 0 && Newlines(w + ("\n" + more)) == 1 + Newlines(more)
  {
    var s := w + ("\n" + more);
    if w == "" {
      assert s == "\n" + more && s[1..] == more;
    } else {
      NewlinesLine(w[1..], more);
      assert s[0] == w[0] && s[1..] == w[1..] + ("\n" + more);
    }
  }

  // ---------- one statement ----------

  /** The state after a batch from line `from` to line `last` was executed. */
  function Done(env: Env, st: State, from: nat, last: nat, sql: string): State {
    State(st.events + [Event(from, last, Executed(sql))], None, last,
          st.errCnt + if env.fails(st.events, sql) then 1 else 0, st.exited)
  }

  /** A line while a literal is open: it joins the batch as it is, even if it looks like a terminator. */
  lemma PendingStep(env: Env, st: State, from: nat, sql: string, line: string)
    requires Documented(env.complete) && st.pending == Some(Pending(from, sql)) && Unclosed(sql)
    ensures var sql' := sql + "\n" + line;
            Step(env, st, Classify(line)) ==
            if ';' in line && env.complete(sql') then Done(env, st, from, st.lineno + 1, sql')
            else st.(pending := Some(Pending(from, sql')), lineno := st.lineno + 1)
  {
    LexConcat(Code, sql, ";");
    LexOne(Quote('\''), ';');
    assert !env.complete(sql + ";");
  }

  /** How a batch is read on after a newline in a literal. */
  lemma LexOn(sql: string, w: string)
    requires Unclosed(sql)
    ensures LexFrom(Code, sql + "\n" + w) == LexFrom(Quote('\''), w)
    ensures Guarded(Code, sql + "\n" + w) <==> Guarded(Quote('\''), w)
  {
    LexConcat(Code, sql, "\n");
    LexOne(Quote('\''), '\n');
    LexConcat(Code, sql + "\n", w);
  }

  /** A literal that is closed before the semicolon makes the batch complete. */
  lemma BatchComplete(complete: string -> bool, sql: string, t: string)
    requires Documented(complete) && "INSERT " <= sql && Unclosed(sql) && Guarded(Quote('\''), t) && LexFrom(Quote('\''), t) == Code
    ensures complete(sql + "\n" + (t + ";")) && sql + "\n" + (t + ";") == sql + "\n" + t + ";"
  {
    LexOn(sql, t);
    assert "INSERT " <= sql + "\n" + t;
    assert complete(sql + "\n" + t + ";");
    Reassociate(sql + "\n", t, ";");
  }

  /** The last line of a statement ends it. */
  lemma LastLine(env: Env, st: State, from: nat, sql: string, line: string, rest: string, text: string, done: State, end: State)
    requires Documented(env.complete) && GoesOn(env, st) && st.pending == Some(Pending(from, sql))
    requires Unclosed(sql) && env.complete(sql + "\n" + line) && text == line + ("\n" + rest)
    requires '\n' !in line && line != "" && line[|line| - 1] == ';'
    requires done == Done(env, st, from, st.lineno + 1, sql + "\n" + line) && Leads(env, done, rest, end)
    ensures Leads(env, st, text, end)
  {
    PendingStep(env, st, from, sql, line);
    LineLeads(env, st, line, rest, text, done, end);
  }

  lemma SameText(t: string, rest: string)
    ensures t + ";" + ("\n" + rest) == t + (";\n" + rest)
  {
  }

  /** One line of a text. */
  lemma LineLeads(env: Env, st: State, w: string, more: string, text: string, st': State, end: State)
    requires GoesOn(env, st) && '\n' !in w && text == w + ("\n" + more)
    requires Step(env, st, Classify(Chomp(w))) == st' && Leads(env, st', more, end)
    ensures Leads(env, st, text, end)
  {
    FirstLine(w, more);
    assert text != "";
  }

  /** A line of a literal that ends in a newline waits. */
  lemma MiddleLine(env: Env, st: State, from: nat, sql: string, w: string, more: string, text: string, st': State, end: State)
    requires Documented(env.complete) && GoesOn(env, st) && st.pending == Some(Pending(from, sql))
    requires Unclosed(sql) && Inside(w) && '\n' !in w && text == w + ("\n" + more)
    requires st' == st.(pending := Some(Pending(from, sql + "\n" + Chomp(w))), lineno := st.lineno + 1) && Leads(env, st', more, end)
    ensures Leads(env, st, text, end)
  {
    MiddleLex(sql, w);
    PendingStep(env, st, from, sql, Chomp(w));
    LineLeads(env, st, w, more, text, st', end);
  }

  lemma MiddleLex(sql: string, w: string)
    requires Unclosed(sql) && Inside(w)
    ensures Unclosed(sql + "\n" + Chomp(w))
  {
    ChompLex(Quote('\''), w);
    LexOn(sql, Chomp(w));
  }

  lemma GuardedLine(w: string, more: string)
    requires Guarded(Quote('\''), w + ("\n" + more))
    ensures Inside(w) && Guarded(Quote('\''), more)
    ensures LexFrom(Quote('\''), w + ("\n" + more)) == LexFrom(Quote('\''), more)
  {
    LexConcat(Quote('\''), w, "\n" + more);
    LexConcat(LexFrom(Quote('\''), w), "\n", more);
    LexOne(LexFrom(Quote('\''), w), '\n');
  }

  /** The rest of a statement, from a line that starts inside a literal: `goal` is the batch, `last` its last line. */
  lemma {:induction false} FeedRest(env: Env, st: State, from: nat, sql: string, t: string, rest: string, text: string,
                                    last: nat, goal: string, done: State, end: State)
    requires Documented(env.complete) && GoesOn(env, st) && st.pending == Some(Pending(from, sql))
    requires "INSERT " <= sql && Unclosed(sql)
    requires Guarded(Quote('\''), t) && LexFrom(Quote('\''), t) == Code && text == t + (";\n" + rest)
    requires last == st.lineno + Newlines(t) + 1 && goal == sql + "\n" + Unix(t) + ";"
    requires done == Done(env, st, from, last, goal) && Leads(env, done, rest, end)
    ensures Leads(env, st, text, end)
    decreases |t|
  {
    if '\n' !in t {
      UnixPlain(t);
      NewlinesLine(t, "");
      BatchComplete(env.complete, sql, t);
      SameText(t, rest);
      LastLine(env, st, from, sql, t + ";", rest, text, done, end);
    } else {
      var w, more := FirstNewline(t);
      RestOfBatch(sql, w, more, rest);
      NewlinesLine(w, more);
      var sql' := sql + "\n" + Chomp(w);
      var st' := st.(pending := Some(Pending(from, sql')), lineno := st.lineno + 1);
      FeedRest(env, st', from, sql', more, rest, more + (";\n" + rest), last, goal, done, end);
      MiddleLine(env, st, from, sql, w, more + (";\n" + rest), text, st', end);
    }
  }

  lemma RestOfBatch(sql: string, w: string, more: string, rest: string)
    requires "INSERT " <= sql && Unclosed(sql) && Guarded(Quote('\''), w + ("\n" + more)) && '\n' !in w
    ensures Inside(w) && Guarded(Quote('\''), more)
    ensures LexFrom(Quote('\''), w + ("\n" + more)) == LexFrom(Quote('\''), more)
    ensures "INSERT " <= sql + "\n" + Chomp(w) && Unclosed(sql + "\n" + Chomp(w))
    ensures sql + "\n" + Unix(w + ("\n" + more)) + ";" == sql + "\n" + Chomp(w) + "\n" + Unix(more) + ";"
    ensures w + ("\n" + more) + (";\n" + rest) == w + ("\n" + (more + (";\n" + rest)))
  {
    GuardedLine(w, more);
    MiddleLex(sql, w);
    UnixLine(w, more);
    SameBatch(sql, Chomp(w), Unix(more));
    Regroup(w, more, ";\n" + rest);
  }

  lemma Regroup(w: string, more: string, rest: string)
    ensures w + ("\n" + more) + rest == w + ("\n" + (more + rest))
  {
  }

  lemma SameBatch(sql: string, w: string, more: string)
    ensures sql + "\n" + w + "\n" + more + ";" == sql + "\n" + (w + ("\n" + more)) + ";"
  {
  }

  /** The first line of a statement is neither blank nor a terminator nor a dot-command. */
  lemma FirstStep(env: Env, st: State, line: string)
    requires st.pending == None && line != "" && line[0] == 'I'
    ensures Step(env, st, Classify(line)) ==
            if ';' in line && env.complete(line) then Done(env, st, st.lineno + 1, st.lineno + 1, line)
            else st.(pending := Some(Pending(st.lineno + 1, line)), lineno := st.lineno + 1)
  {
    assert SkipSpaces(line, 0) == 0;
  }

  lemma InsertPrefix(w: string, more: string, body: string)
    requires body == w + ("\n" + more) && "INSERT " <= body && '\n' !in w
    ensures "INSERT " <= Chomp(w)
  {
    assert body[|w|] == '\n';
    assert "INSERT " <= w && w[6] == ' ';
  }

  /** A statement of one line. */
  lemma FeedOneLine(env: Env, st: State, body: string, line: string, rest: string, text: string, done: State, end: State)
    requires GoesOn(env, st) && st.pending == None && body != "" && body[0] == 'I' && '\n' !in body
    requires line == body + ";" && env.complete(line) && text == body + (";\n" + rest)
    requires done == Done(env, st, st.lineno + 1, st.lineno + 1, line) && Leads(env, done, rest, end)
    ensures Leads(env, st, text, end)
  {
    assert line[|body|] == ';';
    FirstStep(env, st, line);
    SameText(body, rest);
    LineLeads(env, st, line, rest, text, done, end);
  }

  lemma FeedFirstLine(env: Env, st: State, w: string, more: string, text: string, st': State, end: State)
    requires Documented(env.complete) && GoesOn(env, st) && st.pending == None
    requires "INSERT " <= Chomp(w) && Unclosed(w) && '\n' !in w && text == w + ("\n" + more)
    requires st' == st.(pending := Some(Pending(st.lineno + 1, Chomp(w))), lineno := st.lineno + 1) && Leads(env, st', more, end)
    ensures Leads(env, st, text, end)
  {
    ChompLex(Code, w);
    FirstStep(env, st, Chomp(w));
    assert !env.complete(Chomp(w));
    LineLeads(env, st, w, more, text, st', end);
  }

  lemma SealedLine(w: string, more: string, body: string)
    requires body == w + ("\n" + more) && Sealed(body)
    ensures Unclosed(w) && Guarded(Quote('\''), more) && LexFrom(Quote('\''), more) == Code
  {
    LexConcat(Code, w, "\n" + more);
    LexConcat(LexFrom(Code, w), "\n", more);
    LexOne(LexFrom(Code, w), '\n');
  }

  lemma FirstOfBatch(w: string, more: string, rest: string, body: string)
    requires body == w + ("\n" + more) && "INSERT " <= body && Sealed(body) && '\n' !in w
    ensures Unclosed(w) && Guarded(Quote('\''), more) && LexFrom(Quote('\''), more) == Code
    ensures "INSERT " <= Chomp(w) && Unclosed(Chomp(w))
    ensures Unix(body) + ";" == Chomp(w) + "\n" + Unix(more) + ";"
    ensures body + (";\n" + rest) == w + ("\n" + (more + (";\n" + rest)))
  {
    InsertPrefix(w, more, body);
    SealedLine(w, more, body);
    ChompLex(Code, w);
    UnixLine(w, more);
    Reassociate(Chomp(w), "\n", Unix(more));
    Regroup(w, more, ";\n" + rest);
  }

  /** A printed statement is executed as one batch, `goal`, without the carriage returns before its newlines. */
  lemma FeedStatement(env: Env, st: State, body: string, rest: string, text: string, last: nat, goal: string, done: State, end: State)
    requires Documented(env.complete) && GoesOn(env, st) && st.pending == None
    requires "INSERT " <= body && Sealed(body) && text == body + (";\n" + rest)
    requires last == st.lineno + Newlines(body) + 1 && goal == Unix(body) + ";"
    requires done == Done(env, st, st.lineno + 1, last, goal) && Leads(env, done, rest, end)
    ensures Leads(env, st, text, end)
  {
    if '\n' !in body {
      UnixPlain(body);
      NewlinesLine(body, "");
      FeedOneLine(env, st, body, body + ";", rest, text, done, end);
    } else {
      var w, more := FirstNewline(body);
      FirstOfBatch(w, more, rest, body);
      NewlinesLine(w, more);
      var st' := st.(pending := Some(Pending(st.lineno + 1, Chomp(w))), lineno := st.lineno + 1);
      FeedRest(env, st', st.lineno + 1, Chomp(w), more, rest, more + (";\n" + rest), last, goal, done, end);
      FeedFirstLine(env, st, w, more + (";\n" + rest), text, st', end);
    }
  }

  // ---------- all statements of a query ----------

  /** A statement as it was printed, without its newline. */
  function Statement(name: string, ls: seq<Literal>): string {
    InsertBody(name, ls) + ";"
  }

  /** What is executed for it: the same INSERT, its name and texts without the carriage returns before newlines. */
  function Batch(name: string, ls: seq<Literal>): string {
    Statement(Unix(name), UnixRow(ls))
  }

  /** No text of the row holds a carriage return before a newline. */
  predicate CrLfFree(ls: seq<Literal>) {
    forall i | 0 <= i < |ls| :: ls[i].TextLit? ==> !HasCrLf(ls[i].s)
  }

  lemma UnixRowSame(ls: seq<Literal>)
    ensures UnixRow(ls) == ls <==> CrLfFree(ls)
  {
    forall i | 0 <= i < |ls| ensures UnixLit(ls[i]) == ls[i] <==> (ls[i].TextLit? ==> !HasCrLf(ls[i].s)) {
      if ls[i].TextLit? {
        UnixSame(ls[i].s);
      }
    }
    if UnixRow(ls) == ls {
      assert forall i | 0 <= i < |ls| :: UnixRow(ls)[i] == ls[i];
    }
  }

  /** A statement is executed exactly as it was printed if and only if no CR LF is in its name and its texts. */
  lemma BatchSame(name: string, ls: seq<Literal>)
    requires QuietRow(ls)
    ensures Statement(name, ls) + "\n" == PrintInsert(name, ls)
    ensures Batch(name, ls) == Statement(name, ls) <==> !HasCrLf(name) && CrLfFree(ls)
  {
    PrintInsertIs(name, ls);
    Reassociate(InsertBody(name, ls), ";", "\n");
    UnixBody(name, ls);
    UnixSame(name);
    UnixRowSame(ls);
    SameBefore(Unix(InsertBody(name, ls)), InsertBody(name, ls));
  }

  lemma SameBefore(a: string, b: string)
    ensures a + ";" == b + ";" <==> a == b
  {
    assert (a + ";")[..|a|] == a && (b + ";")[..|b|] == b;
  }

  /** The values that a batch inserts are those printed, texts and name without carriage returns before newlines. */
  lemma BatchReads(name: string, ls: seq<Literal>)
    requires FaithfulRow(ls)
    ensures ReadInsert(Batch(name, ls) + "\n") == Got((Unix(name), UnixRow(ls)), "")
  {
    FaithfulIsQuiet(UnixRow(ls));
    BatchSame(Unix(name), UnixRow(ls));
    InsertReadsBack(Unix(name), UnixRow(ls), "");
    assert PrintInsert(Unix(name), UnixRow(ls)) + "" == PrintInsert(Unix(name), UnixRow(ls));
  }

  function RowDone(env: Env, st: State, name: string, ls: seq<Literal>): State {
    var body := InsertBody(name, ls);
    Done(env, st, st.lineno + 1, st.lineno + Newlines(body) + 1, Unix(body) + ";")
  }

  /** The rows of a query executed one by one, until the loop stops. */
  function AllDone(env: Env, st: State, name: string, rows: seq<seq<Literal>>): State
    decreases rows
  {
    if rows == [] || !GoesOn(env, st) then st
    else AllDone(env, RowDone(env, st, name, rows[0]), name, rows[1..])
  }

  lemma RowLeads(env: Env, st: State, name: string, ls: seq<Literal>, rest: string, text: string, end: State)
    requires Documented(env.complete) && GoesOn(env, st) && st.pending == None && QuietRow(ls)
    requires Leads(env, RowDone(env, st, name, ls), rest, end) && text == PrintInsert(name, ls) + rest
    ensures Leads(env, st, text, end)
  {
    var body := InsertBody(name, ls);
    BodySealed(name, ls);
    PrintInsertIs(name, ls);
    Reassociate(body, ";\n", rest);
    FeedStatement(env, st, body, rest, text, st.lineno + Newlines(body) + 1, Unix(body) + ";",
      RowDone(env, st, name, ls), end);
  }

  lemma {:induction false} InsertsLead(env: Env, st: State, name: string, rows: seq<seq<Literal>>, end: State)
    requires Documented(env.complete) && st.pending == None && forall i | 0 <= i < |rows| :: QuietRow(rows[i])
    requires end == AllDone(env, st, name, rows)
    ensures Leads(env, st, PrintInserts(name, rows), end)
    decreases rows
  {
    if rows != [] && GoesOn(env, st) {
      var next := RowDone(env, st, name, rows[0]);
      InsertsLead(env, next, name, rows[1..], end);
      RowLeads(env, st, name, rows[0], PrintInserts(name, rows[1..]), PrintInserts(name, rows), end);
    }
  }

  lemma RunIsAllDone(env: Env, name: string, rows: seq<seq<Literal>>)
    requires Documented(env.complete) && forall i | 0 <= i < |rows| :: QuietRow(rows[i])
    ensures S.Run(env, START, P.Inputs(PrintInserts(name, rows))) == AllDone(env, START, name, rows)
  {
    var text, end := PrintInserts(name, rows), AllDone(env, START, name, rows);
    var lines := P.Inputs(text);
    assert lines[0..] == lines;
    InsertsLead(env, START, name, rows, end);
    RunLeads(env, START, lines, text, end);
  }

  /** Event `n + i` is the execution of row `i`. */
  ghost predicate RowExecuted(events: seq<Event>, n: nat, name: string, rows: seq<seq<Literal>>, i: nat)
    requires i < |rows| && n + i < |events|
  {
    events[n + i].what == Executed(Batch(name, rows[i]))
  }

  /**
   The statements were executed in order, one batch each, from event `n` on; if not
   all of them, then because of an error that ends the loop.
   */
  ghost predicate Replayed(env: Env, name: string, rows: seq<seq<Literal>>, end: State, n: nat) {
    && end.pending == None && !end.exited
    && n <= |end.events| <= n + |rows|
    && (forall i | 0 <= i < |end.events| - n :: RowExecuted(end.events, n, name, rows, i))
    && (|end.events| < n + |rows| ==> !GoesOn(env, end))
  }

  lemma {:induction false} AllDoneReplays(env: Env, st: State, name: string, rows: seq<seq<Literal>>, end: State)
    requires st.pending == None && !st.exited && forall i | 0 <= i < |rows| :: QuietRow(rows[i])
    requires end == AllDone(env, st, name, rows)
    ensures st.events <= end.events && Replayed(env, name, rows, end, |st.events|)
    decreases rows
  {
    if rows != [] && GoesOn(env, st) {
      var next := RowDone(env, st, name, rows[0]);
      AllDoneReplays(env, next, name, rows[1..], end);
      UnixBody(name, rows[0]);
      ReplayedNext(env, st.events, next.events[|st.events|], name, rows, end);
    }
  }

  lemma ReplayedNext(env: Env, events: seq<Event>, e: Event, name: string, rows: seq<seq<Literal>>, end: State)
    requires rows != [] && e.what == Executed(Batch(name, rows[0]))
    requires events + [e] <= end.events && Replayed(env, name, rows[1..], end, |events| + 1)
    ensures events <= end.events && Replayed(env, name, rows, end, |events|)
  {
    var n := |events|;
    assert end.events[n] == (events + [e])[n] == e;
    forall i | 0 <= i < |end.events| - n ensures RowExecuted(end.events, n, name, rows, i) {
      if i > 0 {
        assert RowExecuted(end.events, n + 1, name, rows[1..], i - 1);
      }
    }
  }

  /**
   The shell reads its own INSERT output: given to process_input() as a file, every
   statement of a query is executed, in order and as one batch, whatever is in it.
   */
  lemma InsertsReplay(env: Env, name: string, rows: seq<seq<Literal>>)
    requires Documented(env.complete) && forall i | 0 <= i < |rows| :: QuietRow(rows[i])
    ensures Replayed(env, name, rows, S.Run(env, START, P.Inputs(PrintInserts(name, rows))), 0)
  {
    RunIsAllDone(env, name, rows);
    AllDoneReplays(env, START, name, rows, AllDone(env, START, name, rows));
  }

  /** All of them exactly as printed if and only if there is no CR LF in the name and the texts. */
  lemma ReplayExact(env: Env, name: string, rows: seq<seq<Literal>>, end: State)
    requires Replayed(env, name, rows, end, 0) && |end.events| == |rows| && forall i | 0 <= i < |rows| :: QuietRow(rows[i])
    ensures (forall i | 0 <= i < |rows| :: end.events[i].what == Executed(Statement(name, rows[i])))
            <==> rows == [] || (!HasCrLf(name) && forall i | 0 <= i < |rows| :: CrLfFree(rows[i]))
  {
    forall i | 0 <= i < |rows|
      ensures end.events[i].what == Executed(Statement(name, rows[i])) <==> !HasCrLf(name) && CrLfFree(rows[i])
    {
      BatchSame(name, rows[i]);
      assert RowExecuted(end.events, 0, name, rows, i);
    }
    if rows != [] && forall i | 0 <= i < |rows| :: end.events[i].what == Executed(Statement(name, rows[i])) {
      assert end.events[0].what == Executed(Statement(name, rows[0]));
    }
  }

  /** A single statement is always executed. */
  lemma OneRow(env: Env, name: string, ls: seq<Literal>)
    requires Documented(env.complete) && QuietRow(ls)
    ensures var end := S.Run(env, START, P.Inputs(PrintInserts(name, [ls])));
            |end.events| == 1 && end.events[0].what == Executed(Batch(name, ls))
  {
    var rows := [ls];
    RunIsAllDone(env, name, rows);
    assert rows[1..] == [];
    assert AllDone(env, START, name, rows) == RowDone(env, START, name, ls);
    UnixBody(name, ls);
  }

  /** A text with CR LF is not executed as it was printed. */
  lemma CrLfFails(env: Env, ls: seq<Literal>)
    requires Documented(env.complete) && ls == [TextLit("a\r\nb")]
    ensures var end := S.Run(env, START, P.Inputs(PrintInserts("t", [ls])));
            |end.events| == 1 && end.events[0].what == Executed(Batch("t", ls)) != Executed(Statement("t", ls))
  {
    var s := "a\r\nb";
    assert s[1] == '\r' && s[1 + 1] == '\n';
    assert ls[0].TextLit? && HasCrLf(ls[0].s);
    BatchSame("t", ls);
    OneRow(env, "t", ls);
  }

  // ---------- printing and replaying ----------

  ghost predicate LitNulFree(l: Literal) {
    (l.TextLit? || l.NumLit?) ==> NulFree(l.s)
  }

  lemma {:induction false} HexNulFree(bytes: seq<Byte>)
    ensures NulFree(HexBytes(bytes))
  {
    if bytes != [] {
      HexNulFree(bytes[1..]);
    }
  }

  lemma PrintLitNulFree(l: Literal)
    requires LitNulFree(l)
    ensures NulFree(PrintLit(l))
  {
    match l
    case NullLit =>
    case TextLit(s) => DoubledNulFree(s, '\'');
    case NumLit(_) =>
    case BlobLit(bytes) => HexNulFree(bytes);
  }

  lemma {:induction false} ItemsNulFree(ws: seq<string>, close: string)
    requires ws != [] && NulFree(close) && forall i | 0 <= i < |ws| :: NulFree(ws[i])
    ensures NulFree(PrintItems(ws, close))
  {
    if |ws| > 1 {
      ItemsNulFree(ws[1..], close);
    }
  }

  lemma PrintInsertNulFree(name: string, ls: seq<Literal>)
    requires NulFree(name) && forall i | 0 <= i < |ls| :: LitNulFree(ls[i])
    ensures NulFree(PrintInsert(name, ls))
  {
    DoubledNulFree(name, '\'');
    if ls != [] {
      forall i | 0 <= i < |ls| ensures NulFree(LitTexts(ls)[i]) {
        PrintLitNulFree(ls[i]);
      }
      ItemsNulFree(LitTexts(ls), CLOSE);
    }
    AroundNulFree("INSERT INTO ", DestName(name), " VALUES(", PrintLits(ls));
  }

  lemma AroundNulFree(a: string, b: string, c: string, d: string)
    requires NulFree(a) && NulFree(b) && NulFree(c) && NulFree(d)
    ensures NulFree(a + (b + (c + d)))
  {
  }

  lemma {:induction false} InsertsNulFree(name: string, rows: seq<seq<Literal>>)
    requires NulFree(name) && forall i | 0 <= i < |rows| :: forall k | 0 <= k < |rows[i]| :: LitNulFree(rows[i][k])
    ensures NulFree(PrintInserts(name, rows))
  {
    if rows != [] {
      PrintInsertNulFree(name, rows[0]);
      InsertsNulFree(name, rows[1..]);
    }
  }

  /**
   What becomes of the printed statements: each is executed, in order and as one batch;
   reading ends early only on an error with bail_on_error set; and if it does not, what
   was executed is what was printed if and only if no CR LF is in the name and the texts.
   */
  ghost predicate Outcome(env: Env, name: string, rows: seq<seq<Literal>>, errCnt: nat, events: seq<Event>) {
    && |events| <= |rows|
    && (forall i | 0 <= i < |events| :: events[i].what == Executed(Batch(name, rows[i])))
    && (|events| < |rows| ==> errCnt > 0 && env.bail(events) && !env.interactive)
    && (|events| == |rows| ==>
          ((forall i | 0 <= i < |rows| :: events[i].what == Executed(Statement(name, rows[i])))
           <==> rows == [] || (!HasCrLf(name) && forall i | 0 <= i < |rows| :: CrLfFree(rows[i]))))
  }

  lemma ReplayedOutcome(env: Env, name: string, rows: seq<seq<Literal>>, end: State)
    requires Replayed(env, name, rows, end, 0) && forall i | 0 <= i < |rows| :: QuietRow(rows[i])
    ensures Outcome(env, name, rows, end.errCnt, end.events)
  {
    forall i | 0 <= i < |end.events| ensures end.events[i].what == Executed(Batch(name, rows[i])) {
      assert RowExecuted(end.events, 0, name, rows, i);
    }
    if |end.events| == |rows| {
      ReplayExact(env, name, rows, end);
    }
  }

  /** The printed statements as a file that the shell reads. */
  method ReplayText(env: Env, e: X.Engine, p: CallbackData, cb: X.Callback, text: string, ghost name: string, ghost rows: seq<seq<Literal>>)
    returns (errCnt: nat, events: seq<Event>, leftover: string, incomplete: bool)
    requires e.Valid() && X.Lawful(e.script) && p.pStmt == None && RunsOn(env, e.script, cb, World(e.log, e.next))
    requires forall i | 0 <= i < |rows| :: QuietRow(rows[i])
    requires text == PrintInserts(name, rows) && NulFree(text)
    modifies e, p`cnt, p`pStmt
    ensures Outcome(env, name, rows, errCnt, events) && leftover == "" && !incomplete
    ensures e.live == old(e.live) && World(e.log, e.next) == After(e.script, cb, World(old(e.log), old(e.next)), events)
  {
    ShellIsDocumented(env, e.script, cb, World(e.log, e.next));
    InsertsReplay(env, name, rows);
    ReplayedOutcome(env, name, rows, S.Run(env, START, P.Inputs(text)));
    var input := new Stream(text);
    errCnt, events, leftover, incomplete := P.ProcessInput(env, input, e, p, cb);
  }

  lemma ShellIsDocumented(env: Env, script: X.Script, cb: X.Callback, w: World)
    requires RunsOn(env, script, cb, w)
    ensures Documented(env.complete)
  {
    CompleteIsDocumented();
    forall t | LexFrom(Code, t).Quote? ensures !env.complete(t) {
      assert !Complete(t);
    }
    forall t | "INSERT " <= t && Sealed(t) ensures env.complete(t + ";") {
      assert Complete(t + ";");
    }
  }

  /** The columns of a row hold no NUL, and so neither do its literals. */
  lemma RowLitsNulFree(rows: seq<Row>, stmt: bool, lits: seq<seq<Literal>>)
    requires (forall i | 0 <= i < |rows| :: rows[i].Valid()) && lits == RowLits(rows, stmt)
    ensures forall i | 0 <= i < |lits| :: forall k | 0 <= k < |lits[i]| :: LitNulFree(lits[i][k])
  {
  }

  /** A query is printed in insert mode to a file, and the file is read by a shell. */
  method ReplayRows(p: CallbackData, rows: seq<Row>, env: Env, e: X.Engine, q: CallbackData, cb: X.Callback,
                    ghost name: string, ghost lits: seq<seq<Literal>>)
    returns (errCnt: nat, events: seq<Event>, leftover: string, incomplete: bool)
    requires p.zDestTable == Some(DestName(name)) && NulFree(name)
    requires forall i | 0 <= i < |rows| :: rows[i].Valid()
    requires lits == RowLits(rows, p.pStmt.Some?) && forall i | 0 <= i < |lits| :: QuietRow(lits[i])
    requires e.Valid() && X.Lawful(e.script) && q.pStmt == None && RunsOn(env, e.script, cb, World(e.log, e.next))
    modifies p`cnt, p`out, e, q`cnt, q`pStmt
    ensures Outcome(env, name, lits, errCnt, events) && leftover == "" && !incomplete
    ensures e.live == old(e.live) && World(e.log, e.next) == After(e.script, cb, World(old(e.log), old(e.next)), events)
  {
    var start := |p.out|;
    RowLitsNulFree(rows, p.pStmt.Some?, lits);
    PrintRows(p, rows, name, lits);
    InsertsNulFree(name, lits);
    assert p.out[start..] == PrintInserts(name, lits);
    errCnt, events, leftover, incomplete := ReplayText(env, e, q, cb, p.out[start..], name, lits);
  }
}
