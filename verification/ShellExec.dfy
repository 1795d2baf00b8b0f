/**
 shell_exec(): all statements of a text, prepared, stepped and finalized one
 after the other, against an engine that keeps the documented contract of
 sqlite3_prepare_v2(), sqlite3_step() and sqlite3_finalize().
 */
module ShellExec {
  import opened Text
  import opened Blank
  import opened ShellState

  const SQLITE_OK := 0
  const SQLITE_ABORT := 4
  const SQLITE_NOMEM := 7
  const SQLITE_ROW := 100
  const SQLITE_DONE := 101

  // ---------- the engine ----------

  /** A call that the engine saw, with the statement it was about and its result, or a dot-command that was run. */
  datatype Event = Prepared(text: string, stmt: Option<nat>, rc: int) | Stepped(id: nat, rc: int) | Finalized(id: nat, rc: int)
    | Noted(line: nat)

  /**
   What preparing a text leads to: an error; no statement, for a comment or white
   space; or a statement, with the rows it will return and the code that ends it.
   */
  datatype Outcome = Error(rc: int) | Empty(used: nat) | Statement(used: nat, rows: nat, final: int)

  /** The engine decides by all that happened before and the text. */
  type Script = (seq<Event>, string) -> Outcome

  /** Errors are not SQLITE_OK, every other outcome uses up text, and statements end in SQLITE_DONE or an error. */
  ghost predicate Lawful(script: Script) {
    forall log, text | text != "" :: LawfulOutcome(script(log, text), text)
  }

  predicate LawfulOutcome(o: Outcome, text: string) {
    match o
    case Error(rc) => rc != SQLITE_OK
    case Empty(used) => 0 < used <= |text|
    case Statement(used, _, final) => 0 < used <= |text| && final != SQLITE_OK && final != SQLITE_ROW
  }

  /** A prepared statement: the rows still to come, the code after them, and the code of the last step. */
  datatype Stmt = Stmt(rows: nat, final: int, last: int)

  function FinalizeCode(last: int): int {
    if last == SQLITE_OK || last == SQLITE_ROW || last == SQLITE_DONE then SQLITE_OK else last
  }

  class Engine {
    const script: Script
    var log: seq<Event>
    var live: map<nat, Stmt>
    var next: nat

    constructor (script: Script)
      ensures this.script == script && log == [] && live == map[] && next == 0
    {
      this.script, log, live, next := script, [], map[], 0;
    }

    /** Handles in use are below the next one to be given out. */
    ghost predicate Valid()
      reads this
    {
      forall id | id in live :: id < next
    }

    /** sqlite3_prepare_v2(): on success the number of characters used, and a handle if there was a statement. */
    method Prepare(text: string) returns (rc: int, stmt: Option<nat>, used: nat)
      requires Valid()
      modifies this
      ensures Valid()
      ensures var o := script(old(log), text);
              && log == old(log) + [Prepared(text, stmt, rc)] && next == old(next) + (if o.Statement? then 1 else 0)
              && (stmt.Some? <==> o.Statement?)
              && (o.Error? ==> rc == o.rc && live == old(live))
              && (o.Empty? ==> rc == SQLITE_OK && used == o.used && live == old(live))
              && (o.Statement? ==> rc == SQLITE_OK && used == o.used && stmt.value == old(next) && stmt.value !in old(live)
                                   && live == old(live)[stmt.value := Stmt(o.rows, o.final, SQLITE_OK)])
    {
      rc, stmt, used := SQLITE_OK, None, 0;
      match script(log, text) {
        case Error(e) =>
          rc := e;
        case Empty(n) =>
          used := n;
        case Statement(n, rows, final) =>
          used, stmt := n, Some(next);
          live := live[next := Stmt(rows, final, SQLITE_OK)];
          next := next + 1;
      }
      log := log + [Prepared(text, stmt, rc)];
    }

    /** sqlite3_step() on a statement that was not finalized. */
    method Step(id: nat) returns (rc: int)
      requires Valid() && id in live
      modifies this
      ensures Valid() && log == old(log) + [Stepped(id, rc)] && next == old(next)
      ensures var s := old(live)[id];
              rc == (if s.rows > 0 then SQLITE_ROW else s.final)
              && live == old(live)[id := Stmt(if s.rows > 0 then s.rows - 1 else 0, s.final, rc)]
    {
      var s := live[id];
      rc := if s.rows > 0 then SQLITE_ROW else s.final;
      live := live[id := Stmt(if s.rows > 0 then s.rows - 1 else 0, s.final, rc)];
      log := log + [Stepped(id, rc)];
    }

    /** sqlite3_finalize() on a statement that was not finalized: its handle is gone. */
    method Finalize(id: nat) returns (rc: int)
      requires Valid() && id in live
      modifies this
      ensures Valid() && live == old(live) - {id} && next == old(next)
      ensures rc == FinalizeCode(old(live)[id].last) && log == old(log) + [Finalized(id, rc)]
    {
      rc := FinalizeCode(live[id].last);
      live := live - {id};
      log := log + [Finalized(id, rc)];
    }

    /** A dot-command may change the database in ways that are not modelled. */
    method Note(line: nat)
      requires Valid()
      modifies this
      ensures Valid() && live == old(live) && next == old(next) && log == old(log) + [Noted(line)]
    {
      log := log + [Noted(line)];
    }
  }

  // ---------- the callback ----------

  /** What becomes of a row: there may be no memory to hand it over, and the callback may ask to stop. */
  datatype RowFate = GoOn | Stop | NoMemory

  /** xCallback, if there is one: the fate of a row, by all that happened before. */
  type Callback = Option<seq<Event> -> RowFate>

  /** The first of rows `k` to `rows` after which there is no going on; `log` is what happened before the first step. */
  function StopAt(cb: Callback, log: seq<Event>, id: nat, rows: nat, k: nat): (n: Option<nat>)
    requires k <= rows + 1
    ensures n.Some? ==> k <= n.value <= rows && cb.Some? && cb.value(log + Rows(id, n.value)) != GoOn
    decreases rows + 1 - k
  {
    if cb.None? || k == rows + 1 then None
    else if cb.value(log + Rows(id, k)) != GoOn then Some(k)
    else StopAt(cb, log, id, rows, k + 1)
  }

  /** The steps of a statement: its rows, and then an answer that is no row, unless it is stopped at a row. */
  function Steps(cb: Callback, log: seq<Event>, id: nat, rows: nat, final: int): seq<Event> {
    var stop := StopAt(cb, log, id, rows, 1);
    if stop.Some? then Rows(id, stop.value) else Rows(id, rows) + [Stepped(id, final)]
  }

  /** The last answer of a statement. */
  function LastCode(cb: Callback, log: seq<Event>, id: nat, rows: nat, final: int): int {
    if StopAt(cb, log, id, rows, 1).Some? then SQLITE_ROW else final
  }

  /** The statement was stopped for want of memory. */
  predicate OutOfMemory(cb: Callback, log: seq<Event>, id: nat, rows: nat) {
    var stop := StopAt(cb, log, id, rows, 1);
    stop.Some? && cb.value(log + Rows(id, stop.value)) == NoMemory
  }

  /** The result of a statement: that of sqlite3_finalize(), unless memory ran out. */
  function ResultCode(cb: Callback, log: seq<Event>, id: nat, rows: nat, final: int): int {
    if OutOfMemory(cb, log, id, rows) then SQLITE_NOMEM else FinalizeCode(LastCode(cb, log, id, rows, final))
  }

  function Rows(id: nat, n: nat): seq<Event> {
    if n == 0 then [] else Rows(id, n - 1) + [Stepped(id, SQLITE_ROW)]
  }

  /** `n` answers SQLITE_ROW of one statement. */
  lemma {:induction false} RowsAre(id: nat, n: nat)
    ensures |Rows(id, n)| == n && forall k | 0 <= k < n :: Rows(id, n)[k] == Stepped(id, 100)
  {
    if n > 0 {
      RowsAre(id, n - 1);
    }
  }

  /** The rows of a statement are all taken, up to row `n`. */
  ghost predicate GoesTo(cb: Callback, log: seq<Event>, id: nat, n: nat) {
    cb.Some? ==> forall j | 1 <= j <= n :: cb.value(log + Rows(id, j)) == GoOn
  }

  lemma {:induction false} StopsFirst(cb: Callback, log: seq<Event>, id: nat, rows: nat, k: nat, j: nat)
    requires cb.Some? && k <= j <= rows
    ensures var n := StopAt(cb, log, id, rows, k); (n.Some? ==> j < n.value) ==> cb.value(log + Rows(id, j)) == GoOn
    decreases j - k
  {
    if k < j {
      StopsFirst(cb, log, id, rows, k + 1, j);
    }
  }

  /** Without a row that stops it a statement is stepped to its end, and the code of its end is the result. */
  lemma RunsToTheEnd(cb: Callback, log: seq<Event>, id: nat, rows: nat, final: int)
    requires GoesTo(cb, log, id, rows) && final != 0 && final != 100
    ensures Steps(cb, log, id, rows, final) == Rows(id, rows) + [Stepped(id, final)]
    ensures FinalizeCode(LastCode(cb, log, id, rows, final)) == if final == 101 then 0 else final
    ensures ResultCode(cb, log, id, rows, final) == if final == 101 then 0 else final
  {
  }

  /** At the first row that stops it a statement is stepped no further; only want of memory is an error. */
  lemma StopsAtRow(cb: Callback, log: seq<Event>, id: nat, rows: nat, final: int, n: nat)
    requires 1 <= n <= rows && cb.Some? && GoesTo(cb, log, id, n - 1) && cb.value(log + Rows(id, n)) != GoOn
    ensures Steps(cb, log, id, rows, final) == Rows(id, n)
    ensures FinalizeCode(LastCode(cb, log, id, rows, final)) == 0
    ensures ResultCode(cb, log, id, rows, final) == if cb.value(log + Rows(id, n)) == NoMemory then 7 else 0
  {
    StopsFirst(cb, log, id, rows, 1, n);
  }

  // ---------- what an execution is ----------

  /** A statement that was run: its handle, the rows it would return and the answer after them. */
  datatype Ran = Ran(id: nat, rows: nat, final: int)

  /** One turn of the loop: the text that it used up, the events it caused, the code it ended with, and the statement it ran. */
  datatype Turn = Turn(used: string, events: seq<Event>, rc: int, ran: Option<Ran>)

  /** The text that the engine said it used, with the white space after it and nothing more. */
  ghost predicate Uses(used: nat, text: string, taken: string) {
    && taken <= text && used <= |taken|
    && (forall k | used <= k < |taken| :: IsSpace(text[k]))
    && (|taken| < |text| ==> !IsSpace(text[|taken|]))
  }

  /** What a turn makes of the outcome of preparing its text. */
  ghost predicate Answers(o: Outcome, text: string, t: Turn) {
    match o
    case Error(rc) => t.rc == rc != SQLITE_OK && t.ran.None?
    case Empty(used) => t.rc == SQLITE_OK && t.ran.None? && Uses(used, text, t.used)
    case Statement(used, rows, final) =>
      && t.ran.Some? && t.ran.value.rows == rows && t.ran.value.final == final
      && (t.rc == SQLITE_OK ==> Uses(used, text, t.used))
  }

  /**
   A turn keeps the protocol: it prepares the text at hand, and if that gave a
   statement it steps it until it ends or is stopped at a row, and finalizes it,
   once, with nothing in between. It uses up text exactly when it ends in SQLITE_OK,
   and then as much as the engine says. `log` is what happened before.
   */
  ghost predicate TurnOk(script: Script, t: Turn, text: string, log: seq<Event>, cb: Callback) {
    && t.used <= text && (t.rc == SQLITE_OK <==> t.used != "")
    && Answers(script(log, text), text, t)
    && if t.ran.None? then t.events == [Prepared(text, None, t.rc)] else StatementTurn(t, t.ran.value, text, log, cb)
  }

  ghost predicate StatementTurn(t: Turn, r: Ran, text: string, log: seq<Event>, cb: Callback) {
    var begin := [Prepared(text, Some(r.id), SQLITE_OK)];
    && r.final != SQLITE_ROW
    && t.events == begin + Steps(cb, log + begin, r.id, r.rows, r.final)
                   + [Finalized(r.id, FinalizeCode(LastCode(cb, log + begin, r.id, r.rows, r.final)))]
    && t.rc == ResultCode(cb, log + begin, r.id, r.rows, r.final)
  }

  /**
   A callback that asks to stop ends its own statement only: the code SQLITE_ABORT
   is overwritten by that of sqlite3_finalize(), and the execution goes on.
   */
  lemma StopIsNoError(script: Script, t: Turn, r: Ran, text: string, log: seq<Event>, cb: Callback)
    requires TurnOk(script, t, text, log, cb) && t.ran == Some(r)
    requires var log' := log + [Prepared(text, Some(r.id), SQLITE_OK)];
             StopAt(cb, log', r.id, r.rows, 1).Some? && !OutOfMemory(cb, log', r.id, r.rows)
    ensures t.rc == SQLITE_OK && t.used != ""
  {
  }

  function AllEvents(ts: seq<Turn>): seq<Event> {
    if ts == [] then [] else AllEvents(ts[..|ts| - 1]) + ts[|ts| - 1].events
  }

  function AllUsed(ts: seq<Turn>): string {
    if ts == [] then "" else AllUsed(ts[..|ts| - 1]) + ts[|ts| - 1].used
  }

  /** The turns of an execution of `text`, of which `rest` is left: each on what the turns before it left, none after an error. */
  ghost predicate Executed(script: Script, ts: seq<Turn>, text: string, rest: string, log: seq<Event>, cb: Callback)
    decreases |ts|
  {
    if ts == [] then rest == text
    else
      var t := ts[|ts| - 1];
      var before := t.used + rest;
      && before != "" && TurnOk(script, t, before, log + AllEvents(ts[..|ts| - 1]), cb) && (|ts| > 1 ==> ts[|ts| - 2].rc == SQLITE_OK)
      && Executed(script, ts[..|ts| - 1], text, before, log, cb)
  }

  /** The text used up, in order, and the text left are the text that was given. */
  lemma {:induction false} TextConserved(script: Script, ts: seq<Turn>, text: string, rest: string, log: seq<Event>, cb: Callback)
    requires Executed(script, ts, text, rest, log, cb)
    ensures AllUsed(ts) + rest == text
    decreases |ts|
  {
    if ts != [] {
      var t := ts[|ts| - 1];
      TextConserved(script, ts[..|ts| - 1], text, t.used + rest, log, cb);
      Reassociate(AllUsed(ts[..|ts| - 1]), t.used, rest);
    }
  }

  /** Every turn but the last ends in SQLITE_OK: nothing is run after an error. */
  lemma {:induction false} OnlyLastFails(script: Script, ts: seq<Turn>, text: string, rest: string, log: seq<Event>, cb: Callback, k: nat)
    requires Executed(script, ts, text, rest, log, cb) && k + 1 < |ts|
    ensures ts[k].rc == SQLITE_OK && ts[k].used != ""
    decreases |ts|
  {
    var init := ts[..|ts| - 1];
    var before := ts[|ts| - 1].used + rest;
    if k + 2 == |ts| {
      assert init[|init| - 1] == ts[k];
    } else {
      assert init[k] == ts[k];
      OnlyLastFails(script, init, text, before, log, cb, k);
    }
  }

  /** The texts that were prepared, in order. */
  function PreparedTexts(es: seq<Event>): seq<string> {
    if es == [] then []
    else PreparedTexts(es[..|es| - 1]) + if es[|es| - 1].Prepared? then [es[|es| - 1].text] else []
  }

  lemma {:induction false} PreparedTextsConcat(a: seq<Event>, b: seq<Event>)
    ensures PreparedTexts(a + b) == PreparedTexts(a) + PreparedTexts(b)
    decreases |b|
  {
    if b == [] {
      assert a + b == a;
    } else {
      PreparedTextsConcat(a, b[..|b| - 1]);
      assert (a + b)[..|a + b| - 1] == a + b[..|b| - 1];
    }
  }

  lemma {:induction false} NothingPrepared(es: seq<Event>)
    requires forall k | 0 <= k < |es| :: !es[k].Prepared?
    ensures PreparedTexts(es) == []
    decreases |es|
  {
    if es != [] {
      NothingPrepared(es[..|es| - 1]);
    }
  }

  /** A turn prepares its own text and nothing else. */
  lemma TurnPrepares(script: Script, t: Turn, text: string, log: seq<Event>, cb: Callback)
    requires TurnOk(script, t, text, log, cb)
    ensures PreparedTexts(t.events) == [text]
  {
    if t.ran.None? {
      assert t.events[..0] == [];
    } else {
      var r := t.ran.value;
      var log' := log + [Prepared(text, Some(r.id), SQLITE_OK)];
      StepsPrepareNothing(cb, log', r.id, r.rows, r.final);
      BracketPrepares(text, r.id, Steps(cb, log', r.id, r.rows, r.final), FinalizeCode(LastCode(cb, log', r.id, r.rows, r.final)));
    }
  }

  lemma StepsPrepareNothing(cb: Callback, log: seq<Event>, id: nat, rows: nat, final: int)
    ensures PreparedTexts(Steps(cb, log, id, rows, final)) == []
  {
    var stop := StopAt(cb, log, id, rows, 1);
    var n := if stop.Some? then stop.value else rows;
    RowsAre(id, n);
    NothingPrepared(Rows(id, n));
    assert [Stepped(id, final)][..0] == [];
    PreparedTextsConcat(Rows(id, n), [Stepped(id, final)]);
  }

  lemma BracketPrepares(text: string, id: nat, steps: seq<Event>, rc: int)
    requires PreparedTexts(steps) == []
    ensures PreparedTexts([Prepared(text, Some(id), SQLITE_OK)] + steps + [Finalized(id, rc)]) == [text]
  {
    var a, c := [Prepared(text, Some(id), SQLITE_OK)], [Finalized(id, rc)];
    assert a[..0] == [] && c[..0] == [];
    PreparedTextsConcat(a, steps);
    PreparedTextsConcat(a + steps, c);
  }

  /** The last turn prepares what the turns before it left. */
  lemma LastPrepared(script: Script, ts: seq<Turn>, t: Turn, text: string, rest: string, log: seq<Event>, cb: Callback)
    requires Executed(script, ts + [t], text, rest, log, cb)
    ensures PreparedTexts(AllEvents(ts + [t])) == PreparedTexts(AllEvents(ts)) + [t.used + rest]
    ensures Executed(script, ts, text, t.used + rest, log, cb) && TurnOk(script, t, t.used + rest, log + AllEvents(ts), cb)
  {
    assert (ts + [t])[..|ts|] == ts;
    TurnPrepares(script, t, t.used + rest, log + AllEvents(ts), cb);
    PreparedTextsConcat(AllEvents(ts), t.events);
  }

  /** After `text` was prepared with this outcome, the next statement starts at `rest`. */
  ghost predicate Follows(o: Outcome, text: string, rest: string) {
    !o.Error? && |rest| <= |text| && text[|text| - |rest|..] == rest && Uses(o.used, text, text[..|text| - |rest|])
  }

  lemma {:induction false} PreparedOnce(script: Script, ts: seq<Turn>, text: string, rest: string, log: seq<Event>, cb: Callback)
    requires Executed(script, ts, text, rest, log, cb)
    ensures var ps := PreparedTexts(AllEvents(ts)); |ps| == |ts| && (ts != [] ==> ps[0] == text)
    decreases |ts|
  {
    if ts != [] {
      var init, t := ts[..|ts| - 1], ts[|ts| - 1];
      assert ts == init + [t];
      LastPrepared(script, init, t, text, rest, log, cb);
      PreparedOnce(script, init, text, t.used + rest, log, cb);
    }
  }

  /** What turn `k` prepared is followed by what the next turn prepared, or by what is left. */
  ghost predicate FollowedAt(script: Script, ts: seq<Turn>, rest: string, log: seq<Event>, k: nat)
    requires k < |ts| == |PreparedTexts(AllEvents(ts))|
  {
    var ps := PreparedTexts(AllEvents(ts));
    ts[k].rc == SQLITE_OK ==> Follows(script(log + AllEvents(ts[..k]), ps[k]), ps[k], if k + 1 < |ts| then ps[k + 1] else rest)
  }

  /**
   The texts that are prepared are the places where the statements of the text start: first
   the whole text, and then each time what follows the statement before and the white space after it.
   */
  ghost predicate StatementByStatement(script: Script, ts: seq<Turn>, text: string, rest: string, log: seq<Event>) {
    var ps := PreparedTexts(AllEvents(ts));
    && |ps| == |ts| && (if ts == [] then rest == text else ps[0] == text)
    && forall k | 0 <= k < |ts| :: FollowedAt(script, ts, rest, log, k)
  }

  lemma {:induction false} PreparedAt(script: Script, ts: seq<Turn>, text: string, rest: string, log: seq<Event>, cb: Callback, k: nat)
    requires Executed(script, ts, text, rest, log, cb) && k < |ts| == |PreparedTexts(AllEvents(ts))|
    ensures FollowedAt(script, ts, rest, log, k)
    decreases |ts|
  {
    var init, t := ts[..|ts| - 1], ts[|ts| - 1];
    var before := t.used + rest;
    assert ts == init + [t];
    LastPrepared(script, init, t, text, rest, log, cb);
    PreparedOnce(script, init, text, before, log, cb);
    assert init[..k] == ts[..k];
    if k == |init| {
      assert init[..k] == init;
      LastFollows(script, t, before, rest, log + AllEvents(init), cb);
    } else {
      PreparedAt(script, init, text, before, log, cb, k);
    }
  }

  /** Every execution goes statement by statement, so that SQLITE_OK means that each of them was prepared. */
  lemma EveryStatementPrepared(script: Script, ts: seq<Turn>, text: string, rest: string, log: seq<Event>, cb: Callback)
    requires Executed(script, ts, text, rest, log, cb)
    ensures StatementByStatement(script, ts, text, rest, log)
  {
    PreparedOnce(script, ts, text, rest, log, cb);
    forall k | 0 <= k < |ts| ensures FollowedAt(script, ts, rest, log, k) {
      PreparedAt(script, ts, text, rest, log, cb, k);
    }
  }

  lemma LastFollows(script: Script, t: Turn, text: string, rest: string, log: seq<Event>, cb: Callback)
    requires text == t.used + rest && TurnOk(script, t, text, log, cb)
    ensures t.rc == SQLITE_OK ==> Follows(script(log, text), text, rest)
  {
    UsesFollows(script(log, text), t.used, rest);
  }

  lemma UsesFollows(o: Outcome, used: string, rest: string)
    ensures !o.Error? && Uses(o.used, used + rest, used) ==> Follows(o, used + rest, rest)
  {
    var text := used + rest;
    assert text[..|used|] == used && text[|used|..] == rest;
  }

  /** How often a statement was prepared, and how often finalized. */
  function PreparedCount(es: seq<Event>, id: nat): nat {
    if es == [] then 0
    else PreparedCount(es[..|es| - 1], id) + if es[|es| - 1].Prepared? && es[|es| - 1].stmt == Some(id) then 1 else 0
  }

  function FinalizedCount(es: seq<Event>, id: nat): nat {
    if es == [] then 0
    else FinalizedCount(es[..|es| - 1], id) + if es[|es| - 1].Finalized? && es[|es| - 1].id == id then 1 else 0
  }

  lemma {:induction false} CountsConcat(a: seq<Event>, b: seq<Event>, id: nat)
    ensures PreparedCount(a + b, id) == PreparedCount(a, id) + PreparedCount(b, id)
    ensures FinalizedCount(a + b, id) == FinalizedCount(a, id) + FinalizedCount(b, id)
    decreases |b|
  {
    if b == [] {
      assert a + b == a;
    } else {
      CountsConcat(a, b[..|b| - 1], id);
      assert (a + b)[..|a + b| - 1] == a + b[..|b| - 1];
    }
  }

  lemma {:induction false} RowsCount(i: nat, n: nat, id: nat)
    ensures PreparedCount(Rows(i, n), id) == 0 && FinalizedCount(Rows(i, n), id) == 0
  {
    if n > 0 {
      RowsCount(i, n - 1, id);
      assert Rows(i, n)[..|Rows(i, n)| - 1] == Rows(i, n - 1);
    }
  }

  lemma StepsCount(cb: Callback, log: seq<Event>, i: nat, rows: nat, final: int, id: nat)
    ensures var es := Steps(cb, log, i, rows, final); PreparedCount(es, id) == 0 && FinalizedCount(es, id) == 0
  {
    var stop := StopAt(cb, log, i, rows, 1);
    if stop.Some? {
      RowsCount(i, stop.value, id);
    } else {
      RowsCount(i, rows, id);
      CountsConcat(Rows(i, rows), [Stepped(i, final)], id);
      assert [Stepped(i, final)][..0] == [];
    }
  }

  lemma StatementCounts(t: Turn, r: Ran, text: string, log: seq<Event>, cb: Callback, id: nat)
    requires StatementTurn(t, r, text, log, cb)
    ensures PreparedCount(t.events, id) == FinalizedCount(t.events, id) == if r.id == id then 1 else 0
  {
    var log' := log + [Prepared(text, Some(r.id), SQLITE_OK)];
    StepsCount(cb, log', r.id, r.rows, r.final, id);
    BracketCounts(text, r.id, Steps(cb, log', r.id, r.rows, r.final),
      FinalizeCode(LastCode(cb, log', r.id, r.rows, r.final)), id);
  }

  lemma BracketCounts(text: string, i: nat, steps: seq<Event>, rc: int, id: nat)
    requires PreparedCount(steps, id) == 0 && FinalizedCount(steps, id) == 0
    ensures var es := [Prepared(text, Some(i), SQLITE_OK)] + steps + [Finalized(i, rc)];
            PreparedCount(es, id) == FinalizedCount(es, id) == if i == id then 1 else 0
  {
    var a, c := [Prepared(text, Some(i), SQLITE_OK)], [Finalized(i, rc)];
    assert a[..0] == [] && c[..0] == [];
    CountsConcat(a, steps, id);
    CountsConcat(a + steps, c, id);
  }

  /** Over a whole execution every statement is finalized exactly as often as it was prepared. */
  lemma {:induction false} FinalizedAsPrepared(script: Script, ts: seq<Turn>, text: string, rest: string, log: seq<Event>, cb: Callback, id: nat)
    requires Executed(script, ts, text, rest, log, cb)
    ensures PreparedCount(AllEvents(ts), id) == FinalizedCount(AllEvents(ts), id)
    decreases |ts|
  {
    if ts != [] {
      var t := ts[|ts| - 1];
      FinalizedAsPrepared(script, ts[..|ts| - 1], text, t.used + rest, log, cb, id);
      CountsConcat(AllEvents(ts[..|ts| - 1]), t.events, id);
      TurnCounts(script, t, t.used + rest, log + AllEvents(ts[..|ts| - 1]), cb, id);
    }
  }

  lemma TurnCounts(script: Script, t: Turn, text: string, log: seq<Event>, cb: Callback, id: nat)
    requires TurnOk(script, t, text, log, cb)
    ensures PreparedCount(t.events, id) == FinalizedCount(t.events, id)
  {
    if t.ran.None? {
      assert t.events[..0] == [];
    } else {
      StatementCounts(t, t.ran.value, text, log, cb, id);
    }
  }

  // ---------- shell_exec ----------

  /** The state of a statement after `n` rows, and one more step unless the callback stopped it there. */
  ghost predicate Stepping(e: Engine, id: nat, s: Stmt, log: seq<Event>, n: nat, rc: int)
    reads e
  {
    && e.Valid() && id in e.live && n <= s.rows
    && rc == (if n < s.rows then SQLITE_ROW else s.final)
    && e.live[id] == Stmt(if n < s.rows then s.rows - n - 1 else 0, s.final, rc)
    && e.log == log + (Rows(id, n) + [Stepped(id, rc)])
  }

  /**
   Step a statement until it ends, memory runs out or the callback asks to stop, which
   counts as SQLITE_ABORT; each row is handed to the callback, which counts it.
   */
  method StepToEnd(e: Engine, p: CallbackData, id: nat, cb: Callback, ghost s: Stmt) returns (rc: int)
    requires e.Valid() && id in e.live && e.live[id] == s && s.final != SQLITE_ROW
    modifies e, p`cnt
    ensures e.Valid() && id in e.live && e.live - {id} == old(e.live) - {id} && e.next == old(e.next)
    ensures e.live[id].last == LastCode(cb, old(e.log), id, s.rows, s.final)
    ensures e.log == old(e.log) + Steps(cb, old(e.log), id, s.rows, s.final)
    ensures var stop := StopAt(cb, old(e.log), id, s.rows, 1);
            var nomem := OutOfMemory(cb, old(e.log), id, s.rows);
            && rc == (if nomem then SQLITE_NOMEM else if stop.Some? then SQLITE_ABORT else s.final)
            && p.cnt == old(p.cnt) + if cb.None? then 0 else if nomem then stop.value - 1 else if stop.Some? then stop.value else s.rows
  {
    ghost var n, log := 0, e.log;
    rc := e.Step(id);
    while rc == SQLITE_ROW
      invariant Stepping(e, id, s, log, n, rc) && e.live - {id} == old(e.live) - {id} && e.next == old(e.next)
      invariant StopAt(cb, log, id, s.rows, n + 1) == StopAt(cb, log, id, s.rows, 1)
      invariant p.cnt == old(p.cnt) + if cb.Some? then n else 0
      decreases s.rows - n
    {
      if cb.Some? {
        assert e.log == log + Rows(id, n + 1);
        var fate := cb.value(e.log);
        if fate == NoMemory {
          return SQLITE_NOMEM;
        }
        p.cnt := p.cnt + 1;
        if fate == Stop {
          return SQLITE_ABORT;
        }
      }
      rc := e.Step(id);
      n := n + 1;
    }
  }

  /** One statement: stepped, finalized, and forgotten. The code of sqlite3_finalize() replaces any but SQLITE_NOMEM. */
  method RunStatement(e: Engine, p: CallbackData, id: nat, cb: Callback, ghost s: Stmt) returns (rc: int)
    requires e.Valid() && id in e.live && e.live[id] == s && s.final != SQLITE_ROW
    modifies e, p`cnt, p`pStmt
    ensures e.Valid() && e.live == old(e.live) - {id} && e.next == old(e.next) && p.pStmt == None
    ensures rc == ResultCode(cb, old(e.log), id, s.rows, s.final)
    ensures e.log == old(e.log) + (Steps(cb, old(e.log), id, s.rows, s.final)
                                   + [Finalized(id, FinalizeCode(LastCode(cb, old(e.log), id, s.rows, s.final)))])
  {
    p.pStmt := Some(id);
    p.cnt := 0;
    rc := StepToEnd(e, p, id, cb, s);
    var rc2 := e.Finalize(id);
    if rc != SQLITE_NOMEM {
      rc := rc2;
    }
    p.pStmt := None;
  }

  /** zLeftover with the white space before the next statement skipped. */
  method SkipTo(text: string, used: nat) returns (n: nat)
    requires used <= |text| && NulFree(text)
    ensures n == SkipSpaces(text, used)
  {
    n := used;
    while IsSpace(At(text, n))
      invariant used <= n <= |text| && SkipSpaces(text, n) == SkipSpaces(text, used)
      decreases |text| - n
    {
      n := n + 1;
    }
  }

  // ---------- the execution of a text as a function ----------

  /** How much text a prepared statement uses up, with the white space after it. */
  function Taken(text: string, used: nat): (n: nat)
    ensures n <= |text|
  {
    if used <= |text| then SkipSpaces(text, used) else 0
  }

  /** One turn of the loop of shell_exec(). */
  function TurnOf(script: Script, cb: Callback, log: seq<Event>, next: nat, text: string): (t: Turn)
    ensures t.used <= text
  {
    match script(log, text)
    case Error(rc) => Turn("", [Prepared(text, None, rc)], rc, None)
    case Empty(used) => Turn(text[..Taken(text, used)], [Prepared(text, None, SQLITE_OK)], SQLITE_OK, None)
    case Statement(used, rows, final) =>
      var begin := [Prepared(text, Some(next), SQLITE_OK)];
      var rc := ResultCode(cb, log + begin, next, rows, final);
      Turn(if rc == SQLITE_OK then text[..Taken(text, used)] else "",
           begin + Steps(cb, log + begin, next, rows, final)
           + [Finalized(next, FinalizeCode(LastCode(cb, log + begin, next, rows, final)))],
           rc, Some(Ran(next, rows, final)))
  }

  lemma TurnOfOk(script: Script, cb: Callback, log: seq<Event>, next: nat, text: string)
    requires Lawful(script) && text != ""
    ensures TurnOk(script, TurnOf(script, cb, log, next, text), text, log, cb)
  {
    var o := script(log, text);
    assert LawfulOutcome(o, text);
    if !o.Error? {
      SkipsOnlySpaces(text, o.used);
    }
  }

  /** The handles that a turn was given. */
  function Ids(t: Turn): nat {
    if t.ran.Some? then 1 else 0
  }

  function AllIds(ts: seq<Turn>): nat {
    if ts == [] then 0 else AllIds(ts[..|ts| - 1]) + Ids(ts[|ts| - 1])
  }

  /** The result of shell_exec(), the text that it left, and its turns. */
  datatype Execution = Execution(rc: int, rest: string, turns: seq<Turn>)

  /** shell_exec() on a text, by all that happened before and the next handle to be given out. */
  function Execute(script: Script, cb: Callback, log: seq<Event>, next: nat, text: string): Execution
    decreases |text|
  {
    if text == "" then Execution(SQLITE_OK, "", [])
    else
      var t := TurnOf(script, cb, log, next, text);
      if t.rc != SQLITE_OK || t.used == "" then Execution(t.rc, text, [t])
      else Continued([t], Execute(script, cb, log + t.events, NextId(t, next), RestOf(t, text)))
  }

  function NextId(t: Turn, next: nat): nat {
    next + Ids(t)
  }

  function RestOf(t: Turn, text: string): (rest: string)
    requires t.used <= text
    ensures |rest| == |text| - |t.used|
  {
    text[|t.used|..]
  }

  /** What follows the turns `ts`. */
  function Continued(ts: seq<Turn>, r: Execution): Execution {
    Execution(r.rc, r.rest, ts + r.turns)
  }

  /** What one turn leaves to be executed. */
  lemma ExecuteNext(script: Script, cb: Callback, log: seq<Event>, next: nat, text: string, t: Turn,
                    log': seq<Event>, next': nat, rest: string, r: Execution)
    requires Lawful(script) && text != "" && t == TurnOf(script, cb, log, next, text)
    requires log' == log + t.events && next' == next + Ids(t) && rest == text[|t.used|..] && r == Execute(script, cb, log', next', rest)
    ensures Execute(script, cb, log, next, text) == if t.rc != SQLITE_OK then Execution(t.rc, text, [t]) else Continued([t], r)
    ensures t.rc == SQLITE_OK <==> t.used != ""
  {
    TurnUses(script, cb, log, next, text);
    ExecuteUnfolds(script, cb, log, next, text, t);
    ExecuteSame(script, cb, log + t.events, NextId(t, next), RestOf(t, text), log', next', rest);
  }

  lemma ExecuteSame(script: Script, cb: Callback, log: seq<Event>, next: nat, text: string, log': seq<Event>, next': nat, text': string)
    requires log == log' && next == next' && text == text'
    ensures Execute(script, cb, log, next, text) == Execute(script, cb, log', next', text')
  {
  }

  lemma TurnUses(script: Script, cb: Callback, log: seq<Event>, next: nat, text: string)
    requires Lawful(script) && text != ""
    ensures var t := TurnOf(script, cb, log, next, text); t.rc == SQLITE_OK <==> t.used != ""
  {
    TurnOfOk(script, cb, log, next, text);
  }

  lemma ExecuteUnfolds(script: Script, cb: Callback, log: seq<Event>, next: nat, text: string, t: Turn)
    requires text != "" && t == TurnOf(script, cb, log, next, text) && (t.rc == SQLITE_OK <==> t.used != "")
    ensures Execute(script, cb, log, next, text) ==
            if t.rc != SQLITE_OK then Execution(t.rc, text, [t])
            else Continued([t], Execute(script, cb, log + t.events, NextId(t, next), RestOf(t, text)))
  {
  }

  lemma ContinuedTwice(ts: seq<Turn>, t: Turn, r: Execution)
    ensures Continued(ts, Continued([t], r)) == Continued(ts + [t], r)
    ensures Continued(ts, Execution(t.rc, r.rest, [t])) == Execution(t.rc, r.rest, ts + [t])
  {
    assert ts + ([t] + r.turns) == ts + [t] + r.turns;
  }

  /** A turn keeps the protocol as the next one of an execution. */
  lemma TurnExtends(script: Script, cb: Callback, log: seq<Event>, ts: seq<Turn>, log': seq<Event>, next: nat,
                    text: string, rest: string, t: Turn)
    requires Lawful(script) && rest != "" && t == TurnOf(script, cb, log', next, rest) && log' == log + AllEvents(ts)
    requires Executed(script, ts, text, rest, log, cb) && (ts != [] ==> ts[|ts| - 1].rc == SQLITE_OK)
    ensures Executed(script, ts + [t], text, rest[|t.used|..], log, cb) && log' + t.events == log + AllEvents(ts + [t])
  {
    TurnOfOk(script, cb, log', next, rest);
    NextTurn(script, ts, t, text, rest, rest[|t.used|..], log, log', cb);
    Joined(log' + t.events, log', log, AllEvents(ts), t.events);
  }

  /** The function gives executions in the sense of the protocol, also as the rest of one that has begun. */
  lemma {:induction false} ExecuteKeepsProtocol(script: Script, cb: Callback, log: seq<Event>, ts: seq<Turn>, log': seq<Event>, next: nat,
                                                text: string, rest: string, r: Execution)
    requires Lawful(script) && Executed(script, ts, text, rest, log, cb) && (ts != [] ==> ts[|ts| - 1].rc == SQLITE_OK)
    requires log' == log + AllEvents(ts) && r == Execute(script, cb, log', next, rest)
    ensures Executed(script, ts + r.turns, text, r.rest, log, cb) && (r.rc == SQLITE_OK <==> r.rest == "")
    decreases |rest|
  {
    if rest == "" {
      assert ts + r.turns == ts;
    } else {
      var t := TurnOf(script, cb, log', next, rest);
      var log2, next2, rest2 := log' + t.events, next + Ids(t), rest[|t.used|..];
      var r2 := Execute(script, cb, log2, next2, rest2);
      ExecuteNext(script, cb, log', next, rest, t, log2, next2, rest2, r2);
      TurnExtends(script, cb, log, ts, log', next, text, rest, t);
      if t.rc == SQLITE_OK {
        ExecuteKeepsProtocol(script, cb, log, ts + [t], log2, next2, text, rest2, r2);
        ContinuedTwice(ts, t, r2);
      } else {
        assert rest[|t.used|..] == rest;
      }
    }
  }

  // ---------- the loop ----------

  /** The body of the loop of shell_exec(), for text that is not used up. */
  method ExecTurn(e: Engine, p: CallbackData, text: string, cb: Callback) returns (rc: int, msg: bool, n: nat, ghost t: Turn)
    requires e.Valid() && Lawful(e.script) && text != "" && NulFree(text) && p.pStmt == None
    modifies e, p`cnt, p`pStmt
    ensures e.Valid() && e.live == old(e.live) && p.pStmt == None
    ensures n == |t.used| && t.rc == rc && t == TurnOf(e.script, cb, old(e.log), old(e.next), text)
    ensures e.log == old(e.log) + t.events && e.next == old(e.next) + Ids(t) && msg == (rc != SQLITE_OK)
  {
    var stmt, used;
    ghost var o := e.script(e.log, text);
    assert LawfulOutcome(o, text);
    n, msg := 0, false;
    rc, stmt, used := e.Prepare(text);
    ghost var events := [Prepared(text, stmt, rc)];
    if rc != SQLITE_OK {
      msg := true;
    } else {
      if stmt.Some? {
        ghost var s := Stmt(o.rows, o.final, SQLITE_OK);
        ghost var begun := e.log;
        rc := RunStatement(e, p, stmt.value, cb, s);
        events := events + Steps(cb, begun, stmt.value, s.rows, s.final)
          + [Finalized(stmt.value, FinalizeCode(LastCode(cb, begun, stmt.value, s.rows, s.final)))];
      }
      if rc == SQLITE_OK {
        n := SkipTo(text, used);
      } else {
        msg := true;
      }
    }
    t := Turn(text[..n], events, rc, if stmt.Some? then Some(Ran(stmt.value, o.rows, o.final)) else None);
  }

  lemma NextTurn(script: Script, ts: seq<Turn>, t: Turn, text: string, before: string, rest: string, log: seq<Event>, log': seq<Event>, cb: Callback)
    requires before != "" && before == t.used + rest && Executed(script, ts, text, before, log, cb)
    requires log' == log + AllEvents(ts) && TurnOk(script, t, before, log', cb) && (ts != [] ==> ts[|ts| - 1].rc == SQLITE_OK)
    ensures Executed(script, ts + [t], text, rest, log, cb) && AllEvents(ts + [t]) == AllEvents(ts) + t.events
  {
    assert (ts + [t])[..|ts|] == ts;
  }

  lemma Joined(a: seq<Event>, b: seq<Event>, c: seq<Event>, d: seq<Event>, es: seq<Event>)
    requires a == b + es && b == c + d
    ensures a == c + (d + es)
  {
  }

  lemma AddTurn(ts: seq<Turn>, t: Turn)
    ensures AllEvents(ts + [t]) == AllEvents(ts) + t.events && AllIds(ts + [t]) == AllIds(ts) + Ids(t)
  {
    assert (ts + [t])[..|ts|] == ts;
  }

  /** shell_exec(): the code it returns, whether it saved an error message, and what it left of the text. */
  method Exec(e: Engine, p: CallbackData, zSql: string, cb: Callback)
    returns (rc: int, msg: bool, rest: string, ghost ts: seq<Turn>)
    requires e.Valid() && Lawful(e.script) && NulFree(zSql) && p.pStmt == None
    modifies e, p`cnt, p`pStmt
    ensures e.Valid() && e.live == old(e.live) && p.pStmt == None
    ensures Execution(rc, rest, ts) == Execute(e.script, cb, old(e.log), old(e.next), zSql)
    ensures e.log == old(e.log) + AllEvents(ts) && e.next == old(e.next) + AllIds(ts)
    ensures Executed(e.script, ts, zSql, rest, old(e.log), cb)
    ensures rc == SQLITE_OK <==> rest == ""
    ensures msg <==> rc != SQLITE_OK
  {
    assert e.log + AllEvents([]) == e.log;
    ExecuteKeepsProtocol(e.script, cb, e.log, [], e.log, e.next, zSql, zSql, Execute(e.script, cb, e.log, e.next, zSql));
    rc, msg, rest, ts := ExecLoop(e, p, zSql, cb);
    assert [] + ts == ts;
  }

  method ExecLoop(e: Engine, p: CallbackData, zSql: string, cb: Callback)
    returns (rc: int, msg: bool, rest: string, ghost ts: seq<Turn>)
    requires e.Valid() && Lawful(e.script) && NulFree(zSql) && p.pStmt == None
    modifies e, p`cnt, p`pStmt
    ensures e.Valid() && e.live == old(e.live) && p.pStmt == None
    ensures Execution(rc, rest, ts) == Execute(e.script, cb, old(e.log), old(e.next), zSql)
    ensures e.log == old(e.log) + AllEvents(ts) && e.next == old(e.next) + AllIds(ts)
    ensures msg <==> rc != SQLITE_OK
  {
    rc, msg, rest, ts := SQLITE_OK, false, zSql, [];
    ghost var goal := Execute(e.script, cb, e.log, e.next, zSql);
    assert goal == Continued([], goal) && e.log == e.log + AllEvents([]);
    while rest != "" && rc == SQLITE_OK
      invariant e.Valid() && e.live == old(e.live) && p.pStmt == None && NulFree(rest)
      invariant e.log == old(e.log) + AllEvents(ts) && e.next == old(e.next) + AllIds(ts) && msg == (rc != SQLITE_OK)
      invariant if rc == SQLITE_OK then goal == Continued(ts, Execute(e.script, cb, e.log, e.next, rest)) else goal == Execution(rc, rest, ts)
      decreases |rest|, if rc == SQLITE_OK then 1 else 0
    {
      ghost var t;
      rc, msg, rest, t := TakeTurn(e, p, rest, cb, ts, goal, old(e.log), old(e.next));
      ts := ts + [t];
    }
    if rc == SQLITE_OK {
      assert ts + [] == ts;
    }
  }

  /** One turn, as a step towards the whole execution `goal`. */
  method TakeTurn(e: Engine, p: CallbackData, rest: string, cb: Callback, ghost ts: seq<Turn>, ghost goal: Execution,
                  ghost log: seq<Event>, ghost next: nat)
    returns (rc: int, msg: bool, rest': string, ghost t: Turn)
    requires e.Valid() && Lawful(e.script) && rest != "" && NulFree(rest) && p.pStmt == None
    requires goal == Continued(ts, Execute(e.script, cb, e.log, e.next, rest))
    requires e.log == log + AllEvents(ts) && e.next == next + AllIds(ts)
    modifies e, p`cnt, p`pStmt
    ensures e.Valid() && e.live == old(e.live) && p.pStmt == None
    ensures e.log == log + AllEvents(ts + [t]) && e.next == next + AllIds(ts + [t])
    ensures msg == (rc != SQLITE_OK) && NulFree(rest')
    ensures if rc == SQLITE_OK then |rest'| < |rest| else rest' == rest
    ensures if rc == SQLITE_OK then goal == Continued(ts + [t], Execute(e.script, cb, e.log, e.next, rest'))
            else goal == Execution(rc, rest', ts + [t])
  {
    var n;
    rc, msg, n, t := ExecTurn(e, p, rest, cb);
    rest' := rest[n..];
    ghost var r := Execute(e.script, cb, e.log, e.next, rest');
    ExecuteNext(e.script, cb, old(e.log), old(e.next), rest, t, e.log, e.next, rest', r);
    ContinuedTwice(ts, t, r);
    AddTurn(ts, t);
    Joined(e.log, old(e.log), log, AllEvents(ts), t.events);
  }
}
