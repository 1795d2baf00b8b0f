/**
 The loop of process_input() over its growing buffer of pending SQL, with
 sqlite3_complete() and shell_exec() as it calls them, proved against the
 line-by-line machine of module Statements.
 */
module ProcessInput {
  import opened Text
  import opened LineReader
  import opened Quoting
  import opened Blank
  import opened Statements
  import opened ShellState
  import opened ShellWorld
  import X = ShellExec
  import C = SqlComplete

  /** A line that is not blank has a character that is not a space. */
  lemma {:induction false} NotBlankHasText(z: string, i: nat)
    requires i <= |z| && !IsBlank(z, i)
    ensures SkipSpaces(z, i) < |z|
    decreases |z| - i
  {
    if IsSpace(z[i]) {
      NotBlankHasText(z, i + 1);
    }
  }

  /** The three ways of a line. */
  lemma StepIs(env: Env, st: State, line: Input, now: State)
    requires now == st.(lineno := st.lineno + 1)
    ensures st.pending.None? && line.blank ==> Step(env, st, line) == now.(events := now.events + [Event(now.lineno, now.lineno, Skipped)])
    ensures st.pending.None? && !line.blank && line.dot ==> Step(env, st, line) == MetaRun(env, now, line)
    ensures st.pending.Some? || (!line.blank && !line.dot) ==> Step(env, st, line) == SqlTaken(env, now, line)
  {
  }

  /** The local variables of process_input(), and the engine and settings that it is called with. */
  class Accumulator {
    const engine: X.Engine
    const p: CallbackData
    const cb: X.Callback
    ghost const base: World
    ghost const worldOf: seq<Event> -> World
    ghost const live: map<nat, X.Stmt>
    var zSql: array?<char>
    var nSql: nat
    var lineno: nat
    var startline: nat
    var errCnt: nat
    var exited: bool
    var history: seq<Event>
    ghost var sql: string

    /** With SQL pending the buffer holds it, terminated, with two bytes to spare; zSql is null exactly without. */
    ghost predicate Valid()
      reads this, zSql
    {
      && nSql == |sql|
      && (zSql == null <==> nSql == 0)
      && (zSql != null ==> HoldsAt(zSql, 0, sql) && nSql + 3 <= zSql.Length)
    }

    /** The engine has seen what the history makes it see, and no statement of ours is left. */
    ghost predicate EngineOk()
      reads this`history, engine, p
    {
      && engine.Valid() && X.Lawful(engine.script) && engine.live == live && p.pStmt == None
      && World(engine.log, engine.next) == worldOf(history)
    }

    /** The environment is that of the shell, and `worldOf` tells what a history makes the engine see. */
    ghost predicate Shell(env: Env) {
      && RunsOn(env, engine.script, cb, base)
      && forall h {:trigger After(engine.script, cb, base, h)} :: worldOf(h) == After(engine.script, cb, base, h)
    }

    ghost function View(): State
      reads this
    {
      State(history, if sql == "" then None else Some(Pending(startline, sql)), lineno, errCnt, exited)
    }

    constructor (engine: X.Engine, p: CallbackData, cb: X.Callback)
      requires engine.Valid() && X.Lawful(engine.script) && p.pStmt == None
      ensures Valid() && EngineOk() && View() == START && zSql == null
      ensures this.engine == engine && this.p == p && this.cb == cb && base == World(engine.log, engine.next) && live == engine.live
      ensures forall h {:trigger After(engine.script, cb, base, h)} :: worldOf(h) == After(engine.script, cb, base, h)
    {
      ghost var w := World(engine.log, engine.next);
      this.engine, this.p, this.cb, base, live := engine, p, cb, w, engine.live;
      worldOf := h => After(engine.script, cb, w, h);
      zSql, nSql, lineno, startline, errCnt, exited, history, sql := null, 0, 0, 0, 0, false, [], "";
    }

    /** _is_complete(): two bytes are written past the text and the terminator is put back. */
    method IsComplete(ghost env: Env) returns (rc: bool)
      requires Valid() && Shell(env)
      modifies zSql
      ensures Valid()
      ensures rc == (sql == "" || env.complete(sql + ";"))
    {
      if zSql == null {
        return true;
      }
      zSql[nSql] := ';';
      zSql[nSql + 1] := '\0';
      assert zSql[..nSql] == sql;
      assert zSql[0..0 + |sql + ";"|] == sql + ";";
      var text := TextAt(zSql, 0, sql + ";");
      rc := C.Sqlite3Complete(text);
      zSql[nSql] := '\0';
      assert zSql[0..|sql|] == sql;
    }

    /** memcpy(zLine, ";", 2) on a terminator line, which has room because it is not empty. */
    method Normalize(ghost env: Env, zLine: array<char>, line: string) returns (text: string)
      requires Valid() && Shell(env) && HoldsAt(zLine, 0, line) && zLine.Length == |line| + 1 && zLine != zSql
      modifies zLine, zSql
      ensures Valid()
      ensures text == SqlLine(env, Prior(View()), Classify(line))
      ensures HoldsAt(zLine, 0, text)
    {
      text := line;
      var term := IsCommandTerminator(line);
      if term {
        var complete := IsComplete(env);
        if complete {
          zLine[0] := ';';
          zLine[1] := '\0';
          text := ";";
        }
      }
    }

    /** The first line of a batch: room for its text, a terminator and two bytes more. */
    method Begin(zLine: array<char>, ghost text: string)
      requires Valid() && zSql == null && HoldsAt(zLine, 0, text) && SkipSpaces(text, 0) < |text|
      modifies this
      ensures Valid() && fresh(zSql) && sql == text && startline == lineno
      ensures unchanged(`lineno) && unchanged(`errCnt) && unchanged(`exited) && unchanged(`history)
    {
      HoldsEach(zLine, 0, text);
      var i := 0;
      while zLine[i] != '\0' && IsSpace(zLine[i])
        invariant 0 <= i <= |text| && SkipSpaces(text, i) == SkipSpaces(text, 0)
        decreases |text| - i
      {
        i := i + 1;
      }
      if zLine[i] != '\0' {
        nSql := StrLen(zLine, text);
        var buf := new char[nSql + 3];
        forall k | 0 <= k < nSql + 1 {
          buf[k] := zLine[k];
        }
        zSql, sql, startline := buf, text, lineno;
        assert buf[0..|text|] == text;
      }
    }

    /** A further line: a newline and its text at the end of a buffer that has grown. */
    method Extend(zLine: array<char>, ghost text: string)
      requires Valid() && zSql != null && HoldsAt(zLine, 0, text)
      modifies this
      ensures Valid() && fresh(zSql) && sql == old(sql) + "\n" + text
      ensures unchanged(`lineno) && unchanged(`errCnt) && unchanged(`exited) && unchanged(`history) && unchanged(`startline)
    {
      HoldsEach(zLine, 0, text);
      var len := StrLen(zLine, text);
      var buf := Realloc(zSql, nSql, nSql + len + 4);
      buf[nSql] := '\n';
      forall k | 0 <= k < len + 1 {
        buf[nSql + 1 + k] := zLine[k];
      }
      ghost var s := sql + "\n" + text;
      assert buf[0..|s|] == s;
      zSql, nSql, sql := buf, nSql + 1 + len, s;
    }

    /** _contains_semicolon(&zSql[start], nSql - start) */
    method ContainsSemicolon(start: nat) returns (r: bool)
      requires Valid() && zSql != null && start <= nSql
      ensures r == (';' in sql[start..])
    {
      HoldsEach(zSql, 0, sql);
      var i := start;
      while i < nSql
        invariant start <= i <= nSql && ';' !in sql[start..i]
      {
        if zSql[i] == ';' {
          assert sql[start..][i - start] == ';';
          return true;
        }
        i := i + 1;
      }
      assert sql[start..i] == sql[start..];
      r := false;
    }

    /** The batch is given to shell_exec() and cleared. */
    method Execute(ghost env: Env, text: string)
      requires Valid() && EngineOk() && Shell(env) && text == sql && NulFree(sql)
      modifies this, engine, p`cnt, p`pStmt
      ensures Valid() && EngineOk() && zSql == null
      ensures View() == State(old(history) + [Event(old(startline), old(lineno), Executed(old(sql)))], None, old(lineno),
                              old(errCnt) + if env.fails(old(history), old(sql)) then 1 else 0, old(exited))
    {
      ghost var event, w := Event(startline, lineno, Executed(text)), World(engine.log, engine.next);
      p.cnt := 0;
      var rc, msg, rest;
      ghost var ts;
      rc, msg, rest, ts := X.Exec(engine, p, text, cb);
      BatchSeen(env, engine.script, cb, base, history, event, w, X.Execution(rc, rest, ts));
      if rc != X.SQLITE_OK || msg {
        errCnt := errCnt + 1;
      }
      history := history + [Event(startline, lineno, Executed(text))];
      zSql, nSql, sql := null, 0, "";
    }

    /** The end of the loop body: a batch with a semicolon on its last line is executed if it is complete. */
    method ExecuteIfComplete(ghost env: Env, prior: nat, ghost text: string)
      requires Valid() && EngineOk() && Shell(env) && zSql != null && prior <= nSql && (';' in sql[prior..] <==> ';' in text)
      modifies this, engine, p`cnt, p`pStmt
      ensures Valid() && EngineOk() && (zSql == null || zSql == old(zSql))
      ensures View() == if ';' in text && env.complete(old(sql)) then
                          State(old(history) + [Event(old(startline), old(lineno), Executed(old(sql)))], None, old(lineno),
                                old(errCnt) + if env.fails(old(history), old(sql)) then 1 else 0, old(exited))
                        else old(View())
    {
      var semi := ContainsSemicolon(prior);
      if semi {
        var batch := TextAt(zSql, 0, sql);
        var complete := C.Sqlite3Complete(batch);
        if complete {
          Execute(env, batch);
        }
      }
    }

    /** The text of the line joins what waits. */
    method Store(zLine: array<char>, ghost text: string) returns (prior: nat)
      requires Valid() && HoldsAt(zLine, 0, text) && (zSql == null ==> SkipSpaces(text, 0) < |text|)
      modifies this
      ensures Valid() && zSql != null && fresh(zSql)
      ensures prior <= nSql && (';' in sql[prior..] <==> ';' in text)
      ensures sql == Extended(Prior(old(View())), text) && startline == if old(sql) == "" then lineno else old(startline)
      ensures unchanged(`lineno) && unchanged(`errCnt) && unchanged(`exited) && unchanged(`history)
    {
      prior := nSql;
      if zSql == null {
        Begin(zLine, text);
        assert sql[0..] == text;
      } else {
        Extend(zLine, text);
        assert sql[prior..] == "\n" + text;
      }
    }

    /** A line of SQL, from the terminator test on. */
    method TakeSql(ghost env: Env, zLine: array<char>, line: string)
      requires Valid() && EngineOk() && Shell(env) && HoldsAt(zLine, 0, line) && zLine.Length == |line| + 1 && zLine != zSql
      requires sql == "" ==> !IsBlank(line, 0)
      modifies this, zLine, zSql, engine, p`cnt, p`pStmt
      ensures Valid() && EngineOk() && (zSql == null || zSql == old(zSql) || fresh(zSql))
      ensures View() == SqlTaken(env, old(View()), Classify(line))
    {
      var text := Normalize(env, zLine, line);
      if zSql == null && text == line {
        NotBlankHasText(line, 0);
      }
      var prior := Store(zLine, text);
      ExecuteIfComplete(env, prior, text);
    }

    /** What a dot-command does to the engine is an event of its own. */
    method NoteMeta(ghost env: Env)
      requires Valid() && EngineOk() && Shell(env)
      modifies this`history, engine
      ensures Valid() && EngineOk() && View() == old(View()).(events := old(history) + [Event(lineno, lineno, Meta)])
    {
      ghost var w := World(engine.log, engine.next);
      engine.Note(lineno);
      LineSeen(engine.script, cb, base, history, Event(lineno, lineno, Meta), w);
      history := history + [Event(lineno, lineno, Meta)];
    }

    /** A dot-command: result 2 asks to leave, any other result but 0 is an error. */
    method RunMeta(env: Env, line: string)
      requires Valid() && EngineOk() && Shell(env) && sql == ""
      modifies this, engine
      ensures Valid() && EngineOk() && zSql == old(zSql) && lineno == old(lineno)
      ensures View() == MetaRun(env, old(View()), Classify(line))
    {
      var rc := env.meta(history, line);
      NoteMeta(env);
      if rc == 2 {
        exited := true;
      } else if rc != 0 {
        errCnt := errCnt + 1;
      }
    }

    /** A blank line with nothing pending. */
    method SkipLine(ghost env: Env)
      requires Valid() && EngineOk() && Shell(env)
      modifies this`history
      ensures Valid() && EngineOk() && View() == old(View()).(events := old(history) + [Event(lineno, lineno, Skipped)])
    {
      LineSeen(engine.script, cb, base, history, Event(lineno, lineno, Skipped), World(engine.log, engine.next));
      history := history + [Event(lineno, lineno, Skipped)];
    }

    /** The body of the loop for one line that was read. */
    method TakeLine(env: Env, zLine: array<char>, ghost line: string)
      requires Valid() && EngineOk() && Shell(env) && HoldsAt(zLine, 0, line) && zLine.Length == |line| + 1 && zLine != zSql
      modifies this, zLine, zSql, engine, p`cnt, p`pStmt
      ensures Valid() && EngineOk() && (zSql == null || zSql == old(zSql) || fresh(zSql))
      ensures View() == Step(env, old(View()), Classify(line)) && lineno == old(lineno) + 1
    {
      var text := TextAt(zLine, 0, line);
      assert zSql != null ==> zSql[0] == zSql[0..nSql][0];
      ghost var st := View();
      lineno := lineno + 1;
      StepIs(env, st, Classify(text), View());
      if zSql == null || zSql[0] == '\0' {
        var blank := AllWhitespace(text, 0);
        if blank {
          SkipLine(env);
          return;
        }
      }
      if At(text, 0) == '.' && nSql == 0 {
        RunMeta(env, text);
        return;
      }
      TakeSql(env, zLine, text);
    }
  }

  /** The lines of a file, as the shell reads them. */
  function Inputs(s: string): seq<Input>
    decreases |s|
  {
    if s == "" then [] else [Classify(LineText(s, false))] + Inputs(AfterLine(s, false))
  }

  /** After `n` lines the rest of the file is what is left of the lines. */
  ghost predicate InStep(s: string, lines: seq<Input>, n: nat) {
    NulFree(s) && n <= |lines| && Inputs(s) == lines[n..]
  }

  lemma NextLine(s: string, lines: seq<Input>, n: nat)
    requires InStep(s, lines, n)
    ensures n == |lines| <==> s == ""
    ensures s != "" ==> lines[n] == Classify(LineText(s, false)) && InStep(AfterLine(s, false), lines, n + 1)
  {
    if s != "" {
      assert lines[n] == lines[n..][0];
      assert lines[n + 1..] == lines[n..][1..];
    }
  }

  /**
   The outcome of a run: the number of errors, the events, what was left, and whether
   it was reported as incomplete. The engine has seen exactly the batches of the events,
   and no statement is left.
   */
  method ProcessInput(env: Env, input: Stream, e: X.Engine, p: CallbackData, cb: X.Callback)
    returns (errCnt: nat, events: seq<Event>, leftover: string, incomplete: bool)
    requires NulFree(input.rest) && e.Valid() && X.Lawful(e.script) && p.pStmt == None
    requires RunsOn(env, e.script, cb, World(e.log, e.next))
    modifies input, e, p`cnt, p`pStmt
    ensures var lines := Inputs(old(input.rest));
            var end := Run(env, START, lines);
            && Faithful(env, lines, end) && (end.lineno < |lines| ==> !GoesOn(env, end))
            && errCnt == end.errCnt && events == end.events
            && leftover == (if end.pending.None? then "" else end.pending.value.sql)
            && incomplete == !IsBlank(leftover, 0)
            && var w := World(old(e.log), old(e.next));
               errCnt == FailedBatches(e.script, cb, w, events, |events|) + FailedCommands(env, lines, events, |events|)
    ensures e.Valid() && e.live == old(e.live) && p.pStmt == None
    ensures World(e.log, e.next) == After(e.script, cb, World(old(e.log), old(e.next)), events)
  {
    ghost var lines := Inputs(input.rest);
    assert lines[0..] == lines;
    RunFaithful(env, lines, START);
    var acc := RunLoop(env, input, e, p, cb, lines);
    errCnt, events, leftover, incomplete := acc.errCnt, acc.history, "", false;
    assert World(e.log, e.next) == After(e.script, cb, acc.base, events);
    ErrorsCounted(env, e.script, cb, acc.base, lines, events, |events|);
    if acc.zSql != null {
      leftover := TextAt(acc.zSql, 0, acc.sql);
      var blank := AllWhitespace(leftover, 0);
      incomplete := !blank;
    }
  }

  ghost predicate Reaches(env: Env, st: State, lines: seq<Input>, goal: State) {
    st.lineno <= |lines| && Run(env, st, lines) == goal
  }

  lemma ReachesNext(env: Env, st: State, lines: seq<Input>, goal: State)
    requires Reaches(env, st, lines, goal)
    ensures st.lineno == |lines| || !GoesOn(env, st) ==> st == goal
    ensures st.lineno < |lines| && GoesOn(env, st) ==> Reaches(env, Step(env, st, lines[st.lineno]), lines, goal)
  {
  }

  /** At end of file the goal is reached; the state after a line still leads to it. */
  lemma LineReaches(env: Env, st: State, s: string, lines: seq<Input>, goal: State, st': State)
    requires InStep(s, lines, st.lineno) && Reaches(env, st, lines, goal) && GoesOn(env, st)
    requires s != "" ==> st' == Step(env, st, Classify(LineText(s, false)))
    ensures s == "" ==> st == goal
    ensures s != "" ==> InStep(AfterLine(s, false), lines, st'.lineno) && Reaches(env, st', lines, goal)
  {
    NextLine(s, lines, st.lineno);
    ReachesNext(env, st, lines, goal);
  }

  /** One turn of the loop of process_input(): a line is read and taken; `more` is false at end of file. */
  method Turn(env: Env, input: Stream, acc: Accumulator, ghost lines: seq<Input>, ghost goal: State) returns (more: bool)
    requires acc.Valid() && acc.EngineOk() && acc.Shell(env) && InStep(input.rest, lines, acc.lineno)
    requires Reaches(env, acc.View(), lines, goal) && GoesOn(env, acc.View())
    modifies input, acc, acc.zSql, acc.engine, acc.p`cnt, acc.p`pStmt
    ensures acc.Valid() && acc.EngineOk() && (acc.zSql == null || acc.zSql == old(acc.zSql) || fresh(acc.zSql))
    ensures !more ==> acc.View() == goal
    ensures more ==> |input.rest| < |old(input.rest)|
    ensures more ==> InStep(input.rest, lines, acc.lineno) && Reaches(env, acc.View(), lines, goal)
  {
    ghost var s, st := input.rest, acc.View();
    var zLine := LocalGetline(input, false);
    more := zLine != null;
    if more {
      acc.TakeLine(env, zLine, LineText(s, false));
    }
    LineReaches(env, st, s, lines, goal, acc.View());
  }

  method RunLoop(env: Env, input: Stream, e: X.Engine, p: CallbackData, cb: X.Callback, ghost lines: seq<Input>) returns (acc: Accumulator)
    requires InStep(input.rest, lines, 0) && e.Valid() && X.Lawful(e.script) && p.pStmt == None
    requires RunsOn(env, e.script, cb, World(e.log, e.next))
    modifies input, e, p`cnt, p`pStmt
    ensures fresh(acc) && acc.Valid() && acc.View() == Run(env, START, lines)
    ensures acc.engine == e && acc.p == p && acc.cb == cb && acc.EngineOk()
    ensures acc.base == World(old(e.log), old(e.next)) && acc.live == old(e.live) && acc.Shell(env)
  {
    acc := new Accumulator(e, p, cb);
    ghost var goal := Run(env, START, lines);
    while !acc.exited && (acc.errCnt == 0 || !env.bail(acc.history) || env.interactive)
      invariant fresh(acc) && acc.Valid() && acc.EngineOk() && (acc.zSql == null || fresh(acc.zSql))
      invariant InStep(input.rest, lines, acc.lineno) && Reaches(env, acc.View(), lines, goal)
      decreases |input.rest|
    {
      var more := Turn(env, input, acc, lines, goal);
      if !more {
        return;
      }
    }
    ReachesNext(env, acc.View(), lines, goal);
  }
}
