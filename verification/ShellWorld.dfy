/**
 process_input() and shell_exec() together: what the engine has seen after any
 history of lines, and how the batches of a run and its error count hang together.
 */
module ShellWorld {
  import opened Text
  import S = Statements
  import X = ShellExec
  import C = SqlComplete

  /** All that the engine has seen, and the next handle that it will give out. */
  datatype World = World(log: seq<X.Event>, next: nat)

  /** shell_exec() on a text. */
  function ExecIn(script: X.Script, cb: X.Callback, w: World, sql: string): X.Execution {
    X.Execute(script, cb, w.log, w.next, sql)
  }

  /** The world after one event: a batch is executed, a dot-command leaves a note. */
  function Seen(script: X.Script, cb: X.Callback, w: World, e: S.Event): World {
    match e.what
    case Skipped => w
    case Meta => World(w.log + [X.Noted(e.first)], w.next)
    case Executed(sql) =>
      var r := ExecIn(script, cb, w, sql);
      World(w.log + X.AllEvents(r.turns), w.next + X.AllIds(r.turns))
  }

  /** The world after a history that began in `w`. */
  function After(script: X.Script, cb: X.Callback, w: World, h: seq<S.Event>): World {
    if h == [] then w else Seen(script, cb, After(script, cb, w, h[..|h| - 1]), h[|h| - 1])
  }

  lemma AfterNext(script: X.Script, cb: X.Callback, w: World, h: seq<S.Event>, e: S.Event)
    ensures After(script, cb, w, h + [e]) == Seen(script, cb, After(script, cb, w, h), e)
  {
    assert (h + [e])[..|h|] == h;
  }

  /** shell_exec() on a batch after a history. */
  function ExecAfter(script: X.Script, cb: X.Callback, w: World, h: seq<S.Event>, sql: string): X.Execution {
    ExecIn(script, cb, After(script, cb, w, h), sql)
  }

  /** The environment is that of the shell: sqlite3_complete() decides, and a batch fails if shell_exec() does. */
  ghost predicate RunsOn(env: S.Env, script: X.Script, cb: X.Callback, w: World) {
    && (forall t {:trigger C.Complete(t)} :: env.complete(t) == C.Complete(t))
    && (forall h, sql {:trigger ExecAfter(script, cb, w, h, sql)} ::
          env.fails(h, sql) == (ExecAfter(script, cb, w, h, sql).rc != X.SQLITE_OK))
  }

  /** Such an environment, for any dot-commands, bail_on_error and engine. */
  function ShellEnv(meta: (seq<S.Event>, string) -> int, bail: seq<S.Event> -> bool, interactive: bool,
                    script: X.Script, cb: X.Callback, w: World): S.Env {
    S.Env(t => C.Complete(t), meta, (h, sql) => ExecAfter(script, cb, w, h, sql).rc != X.SQLITE_OK, bail, interactive)
  }

  lemma ShellEnvRuns(meta: (seq<S.Event>, string) -> int, bail: seq<S.Event> -> bool, interactive: bool,
                     script: X.Script, cb: X.Callback, w: World)
    ensures RunsOn(ShellEnv(meta, bail, interactive, script, cb, w), script, cb, w)
  {
  }

  /** An executed batch: whether it fails, and what the engine has seen then. */
  lemma BatchSeen(env: S.Env, script: X.Script, cb: X.Callback, base: World, h: seq<S.Event>, e: S.Event, w: World, r: X.Execution)
    requires RunsOn(env, script, cb, base) && w == After(script, cb, base, h)
    requires e.what.Executed? && r == ExecIn(script, cb, w, e.what.sql)
    ensures env.fails(h, e.what.sql) == (r.rc != X.SQLITE_OK)
    ensures After(script, cb, base, h + [e]) == World(w.log + X.AllEvents(r.turns), w.next + X.AllIds(r.turns))
  {
    assert ExecAfter(script, cb, base, h, e.what.sql) == r;
    AfterNext(script, cb, base, h, e);
  }

  /** A dot-command leaves its mark, a skipped line none. */
  lemma LineSeen(script: X.Script, cb: X.Callback, base: World, h: seq<S.Event>, e: S.Event, w: World)
    requires w == After(script, cb, base, h) && !e.what.Executed?
    ensures After(script, cb, base, h + [e]) == if e.what.Meta? then World(w.log + [X.Noted(e.first)], w.next) else w
  {
    AfterNext(script, cb, base, h, e);
  }

  // ---------- batches ----------

  /**
   One batch: it is prepared statement by statement, each where the one before it ended; the
   texts of its turns and what is left make up the batch, nothing is run after an error, nothing
   is left exactly without one, and every statement prepared is finalized.
   */
  lemma BatchExecutes(script: X.Script, cb: X.Callback, w: World, sql: string)
    requires X.Lawful(script)
    ensures var r := ExecIn(script, cb, w, sql);
            && X.Executed(script, r.turns, sql, r.rest, w.log, cb)
            && X.StatementByStatement(script, r.turns, sql, r.rest, w.log)
            && X.AllUsed(r.turns) + r.rest == sql && (r.rc == X.SQLITE_OK <==> r.rest == "")
            && (forall k | 0 <= k < |r.turns| - 1 :: r.turns[k].rc == X.SQLITE_OK)
            && forall id :: X.PreparedCount(X.AllEvents(r.turns), id) == X.FinalizedCount(X.AllEvents(r.turns), id)
  {
    var r := ExecIn(script, cb, w, sql);
    assert w.log + X.AllEvents([]) == w.log && [] + r.turns == r.turns;
    X.ExecuteKeepsProtocol(script, cb, w.log, [], w.log, w.next, sql, sql, r);
    X.EveryStatementPrepared(script, r.turns, sql, r.rest, w.log, cb);
    X.TextConserved(script, r.turns, sql, r.rest, w.log, cb);
    forall k | 0 <= k < |r.turns| - 1 ensures r.turns[k].rc == X.SQLITE_OK {
      X.OnlyLastFails(script, r.turns, sql, r.rest, w.log, cb, k);
    }
    forall id ensures X.PreparedCount(X.AllEvents(r.turns), id) == X.FinalizedCount(X.AllEvents(r.turns), id) {
      X.FinalizedAsPrepared(script, r.turns, sql, r.rest, w.log, cb, id);
    }
  }

  // ---------- whole runs ----------

  lemma SeenFinalizes(script: X.Script, cb: X.Callback, w: World, e: S.Event, id: nat)
    requires X.Lawful(script) && X.PreparedCount(w.log, id) == X.FinalizedCount(w.log, id)
    ensures var v := Seen(script, cb, w, e); X.PreparedCount(v.log, id) == X.FinalizedCount(v.log, id)
  {
    match e.what
    case Skipped =>
    case Meta =>
      var note := [X.Noted(e.first)];
      assert note[..0] == [];
      X.CountsConcat(w.log, note, id);
    case Executed(sql) =>
      BatchExecutes(script, cb, w, sql);
      X.CountsConcat(w.log, X.AllEvents(ExecIn(script, cb, w, sql).turns), id);
  }

  /** Over whole runs of the shell every statement is finalized as often as it was prepared. */
  lemma {:induction false} RunFinalizes(script: X.Script, cb: X.Callback, w: World, h: seq<S.Event>, id: nat)
    requires X.Lawful(script) && X.PreparedCount(w.log, id) == X.FinalizedCount(w.log, id)
    ensures var v := After(script, cb, w, h); X.PreparedCount(v.log, id) == X.FinalizedCount(v.log, id)
    decreases |h|
  {
    if h != [] {
      var init := h[..|h| - 1];
      RunFinalizes(script, cb, w, init, id);
      SeenFinalizes(script, cb, After(script, cb, w, init), h[|h| - 1], id);
    }
  }

  /** The batches among the first `n` events of which shell_exec() returned an error. */
  function FailedBatches(script: X.Script, cb: X.Callback, w: World, events: seq<S.Event>, n: nat): nat
    requires n <= |events|
  {
    if n == 0 then 0
    else
      var e := events[n - 1];
      FailedBatches(script, cb, w, events, n - 1)
      + if e.what.Executed? && ExecAfter(script, cb, w, events[..n - 1], e.what.sql).rc != X.SQLITE_OK then 1 else 0
  }

  /** The dot-commands among them that failed. */
  function FailedCommands(env: S.Env, lines: seq<S.Input>, events: seq<S.Event>, n: nat): nat
    requires n <= |events| && S.AllOk(env, lines, events)
  {
    if n == 0 then 0
    else
      var e := events[n - 1];
      assert S.EventOk(env, lines, e);
      FailedCommands(env, lines, events, n - 1)
      + if e.what.Meta? && S.Fails(env, lines, events[..n - 1], e) then 1 else 0
  }

  /** The error count is that of the batches whose shell_exec() returned an error, and of the dot-commands that failed. */
  lemma {:induction false} ErrorsCounted(env: S.Env, script: X.Script, cb: X.Callback, w: World, lines: seq<S.Input>, events: seq<S.Event>, n: nat)
    requires RunsOn(env, script, cb, w) && n <= |events| && S.AllOk(env, lines, events)
    ensures S.Errors(env, lines, events, n) == FailedBatches(script, cb, w, events, n) + FailedCommands(env, lines, events, n)
  {
    if n > 0 {
      ErrorsCounted(env, script, cb, w, lines, events, n - 1);
      var e := events[n - 1];
      assert S.EventOk(env, lines, e);
      if e.what.Executed? {
        var failed := ExecAfter(script, cb, w, events[..n - 1], e.what.sql).rc != X.SQLITE_OK;
        assert env.fails(events[..n - 1], e.what.sql) == failed;
      }
    }
  }
}
