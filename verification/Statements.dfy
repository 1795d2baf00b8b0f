/**
 process_input(): lines of input are skipped, run as dot-commands, or gathered
 into batches of SQL that are executed as soon as they are complete.
 */
module Statements {
  import opened Text
  import opened Blank

  /** What became of lines `first` to `last` of the input; lines are numbered from 1. */
  datatype Event = Event(first: nat, last: nat, what: Fate)

  /** A blank line is skipped, a dot-command is run, and a batch of SQL is executed. */
  datatype Fate = Skipped | Meta | Executed(sql: string)

  /**
   Everything outside: sqlite3_complete(), the results of dot-commands and of
   executed batches, and bail_on_error, which dot-commands may change. The last
   three may depend on all that happened before.
   */
  datatype Env = Env(complete: string -> bool,
                     meta: (seq<Event>, string) -> int,
                     fails: (seq<Event>, string) -> bool,
                     bail: seq<Event> -> bool,
                     interactive: bool)

  /** SQL that waits for its end: its first line and its text. */
  datatype Pending = Pending(from: nat, sql: string)

  datatype State = State(events: seq<Event>, pending: Option<Pending>, lineno: nat, errCnt: nat, exited: bool)

  const START := State([], None, 0, 0, false)

  /** A line of input with what the shell asks about it. */
  datatype Input = Input(text: string, blank: bool, dot: bool, terminator: bool)

  function Classify(line: string): Input {
    Input(line, IsBlank(line, 0), At(line, 0) == '.', IsTerminator(line))
  }

  /** A terminator line counts as a semicolon, if what waits is complete up to one. */
  function SqlLine(env: Env, prior: Option<string>, line: Input): string {
    if line.terminator && (prior.None? || env.complete(prior.value + ";")) then ";" else line.text
  }

  /** The batch with one more line. */
  function Extended(prior: Option<string>, text: string): string {
    if prior.None? then text else prior.value + "\n" + text
  }

  function Prior(st: State): Option<string> {
    if st.pending.None? then None else Some(st.pending.value.sql)
  }

  /** The line at hand, number st.lineno, is SQL: it joins what waits, and a complete batch is executed. */
  function SqlTaken(env: Env, st: State, line: Input): State {
    var text := SqlLine(env, Prior(st), line);
    var sql := Extended(Prior(st), text);
    var from := if st.pending.None? then st.lineno else st.pending.value.from;
    if ';' in text && env.complete(sql) then
      st.(events := st.events + [Event(from, st.lineno, Executed(sql))], pending := None,
          errCnt := st.errCnt + if env.fails(st.events, sql) then 1 else 0)
    else st.(pending := Some(Pending(from, sql)))
  }

  /** The line at hand is a dot-command. */
  function MetaRun(env: Env, st: State, line: Input): State {
    var rc := env.meta(st.events, line.text);
    st.(events := st.events + [Event(st.lineno, st.lineno, Meta)], exited := st.exited || rc == 2,
        errCnt := st.errCnt + if rc == 0 || rc == 2 then 0 else 1)
  }

  /** One line of input, without the newline that ended it. */
  function Step(env: Env, st: State, line: Input): State {
    var now := st.(lineno := st.lineno + 1);
    if now.pending.None? && line.blank then now.(events := now.events + [Event(now.lineno, now.lineno, Skipped)])
    else if now.pending.None? && line.dot then MetaRun(env, now, line)
    else SqlTaken(env, now, line)
  }

  /** The condition of the loop. */
  predicate GoesOn(env: Env, st: State) {
    !st.exited && (st.errCnt == 0 || !env.bail(st.events) || env.interactive)
  }

  function Run(env: Env, st: State, lines: seq<Input>): State
    requires st.lineno <= |lines|
    decreases |lines| - st.lineno
  {
    if st.lineno == |lines| || !GoesOn(env, st) then st
    else Run(env, Step(env, st, lines[st.lineno]), lines)
  }

  // ---------- conservation ----------

  /** Lines `lo` to `hi` joined by newlines, terminator lines replaced by a semicolon. */
  function BatchText(env: Env, lines: seq<Input>, lo: nat, hi: nat): string
    requires 1 <= lo <= hi <= |lines|
    decreases hi
  {
    var prior := BatchPrior(env, lines, lo, hi);
    Extended(prior, SqlLine(env, prior, lines[hi - 1]))
  }

  function BatchPrior(env: Env, lines: seq<Input>, lo: nat, hi: nat): Option<string>
    requires 1 <= lo <= hi <= |lines|
    decreases hi, 0
  {
    if lo == hi then None else Some(BatchText(env, lines, lo, hi - 1))
  }

  /** The batch is complete at line `hi`: a semicolon on that line, and nothing left open. */
  predicate Ends(env: Env, lines: seq<Input>, lo: nat, hi: nat)
    requires 1 <= lo <= hi <= |lines|
  {
    ';' in SqlLine(env, BatchPrior(env, lines, lo, hi), lines[hi - 1]) && env.complete(BatchText(env, lines, lo, hi))
  }

  /** Lines `lo` to `hi` are SQL that did not end before `hi`. */
  predicate Unended(env: Env, lines: seq<Input>, lo: nat, hi: nat)
    requires 1 <= lo <= hi <= |lines|
  {
    && !lines[lo - 1].blank && !lines[lo - 1].dot
    && forall m | lo <= m < hi :: !Ends(env, lines, lo, m)
  }

  /** An event tells the truth about its lines. */
  predicate EventOk(env: Env, lines: seq<Input>, e: Event) {
    1 <= e.first <= e.last <= |lines| &&
    match e.what
    case Skipped => e.first == e.last && lines[e.first - 1].blank
    case Meta => e.first == e.last && !lines[e.first - 1].blank && lines[e.first - 1].dot
    case Executed(sql) =>
      Unended(env, lines, e.first, e.last) && Ends(env, lines, e.first, e.last) && sql == BatchText(env, lines, e.first, e.last)
  }

  predicate AllOk(env: Env, lines: seq<Input>, events: seq<Event>) {
    forall i {:trigger EventOk(env, lines, events[i])} | 0 <= i < |events| :: EventOk(env, lines, events[i])
  }

  /** The last line that the first `i` events account for. */
  function LineBefore(events: seq<Event>, i: nat): nat
    requires i <= |events|
  {
    if i == 0 then 0 else events[i - 1].last
  }

  /** Each event starts on the line after the one before it. */
  predicate Chained(events: seq<Event>) {
    forall i {:trigger LineBefore(events, i)} | 0 <= i < |events| :: events[i].first == LineBefore(events, i) + 1
  }

  /** What happened at an event, after the events before it, counts as an error. */
  predicate Fails(env: Env, lines: seq<Input>, before: seq<Event>, e: Event)
    requires 1 <= e.first <= e.last <= |lines|
  {
    match e.what
    case Skipped => false
    case Meta => var rc := env.meta(before, lines[e.first - 1].text); rc != 0 && rc != 2
    case Executed(sql) => env.fails(before, sql)
  }

  function Errors(env: Env, lines: seq<Input>, events: seq<Event>, n: nat): nat
    requires n <= |events| && AllOk(env, lines, events)
  {
    if n == 0 then 0
    else
      assert EventOk(env, lines, events[n - 1]);
      Errors(env, lines, events, n - 1) + if Fails(env, lines, events[..n - 1], events[n - 1]) then 1 else 0
  }

  /** What waits is exactly the lines after the last event, and it has not ended. */
  predicate Waiting(env: Env, lines: seq<Input>, st: State)
    requires st.lineno <= |lines|
  {
    var done := LineBefore(st.events, |st.events|);
    if st.pending.None? then done == st.lineno
    else
      && st.pending.value.from == done + 1 <= st.lineno
      && Unended(env, lines, done + 1, st.lineno) && !Ends(env, lines, done + 1, st.lineno)
      && st.pending.value.sql == BatchText(env, lines, done + 1, st.lineno)
  }

  /**
   Conservation. The events follow each other without gap or overlap, each true of
   its lines; what waits is the rest; and the error count is that of the failures.
   */
  ghost predicate Faithful(env: Env, lines: seq<Input>, st: State) {
    && st.lineno <= |lines|
    && AllOk(env, lines, st.events) && Chained(st.events)
    && Waiting(env, lines, st)
    && st.errCnt == Errors(env, lines, st.events, |st.events|)
  }

  lemma {:induction false} ErrorsPrefix(env: Env, lines: seq<Input>, events: seq<Event>, e: Event, n: nat)
    requires n <= |events| && AllOk(env, lines, events) && AllOk(env, lines, events + [e])
    ensures Errors(env, lines, events + [e], n) == Errors(env, lines, events, n)
  {
    if n > 0 {
      ErrorsPrefix(env, lines, events, e, n - 1);
      assert (events + [e])[..n - 1] == events[..n - 1];
    }
  }

  lemma ChainedAdd(events: seq<Event>, e: Event)
    requires Chained(events) && e.first == LineBefore(events, |events|) + 1
    ensures Chained(events + [e]) && LineBefore(events + [e], |events| + 1) == e.last
  {
    var es := events + [e];
    forall i | 0 <= i < |es| ensures es[i].first == LineBefore(es, i) + 1 {
      assert i < |events| ==> es[i] == events[i];
      assert LineBefore(es, i) == LineBefore(events, i);
    }
  }

  lemma AllOkAdd(env: Env, lines: seq<Input>, events: seq<Event>, e: Event)
    requires AllOk(env, lines, events) && EventOk(env, lines, e)
    ensures AllOk(env, lines, events + [e])
  {
  }

  lemma ErrorsAdd(env: Env, lines: seq<Input>, events: seq<Event>, e: Event)
    requires AllOk(env, lines, events) && AllOk(env, lines, events + [e]) && EventOk(env, lines, e)
    ensures Errors(env, lines, events + [e], |events| + 1)
            == Errors(env, lines, events, |events|) + if Fails(env, lines, events, e) then 1 else 0
  {
    ErrorsPrefix(env, lines, events, e, |events|);
    assert (events + [e])[..|events|] == events;
  }

  /** An event that is true of the next lines may follow. */
  lemma AddEvent(env: Env, lines: seq<Input>, st: State, e: Event, exited: bool)
    requires Faithful(env, lines, st) && EventOk(env, lines, e)
    requires e.first == LineBefore(st.events, |st.events|) + 1
    ensures var errors := st.errCnt + if Fails(env, lines, st.events, e) then 1 else 0;
            Faithful(env, lines, State(st.events + [e], None, e.last, errors, exited))
  {
    AllOkAdd(env, lines, st.events, e);
    ChainedAdd(st.events, e);
    ErrorsAdd(env, lines, st.events, e);
  }

  lemma UnendedNext(env: Env, lines: seq<Input>, lo: nat, n: nat)
    requires 1 <= lo <= n < |lines| && Unended(env, lines, lo, n) && !Ends(env, lines, lo, n)
    ensures Unended(env, lines, lo, n + 1)
  {
  }

  /** A further line of SQL extends the batch, whose text so far is what waits. */
  lemma NextSqlLine(env: Env, lines: seq<Input>, st: State)
    requires st.lineno < |lines| && Waiting(env, lines, st)
    requires st.pending.None? ==> !lines[st.lineno].blank && !lines[st.lineno].dot
    ensures var lo := LineBefore(st.events, |st.events|) + 1;
            && lo <= st.lineno + 1 && Unended(env, lines, lo, st.lineno + 1)
            && BatchPrior(env, lines, lo, st.lineno + 1) == Prior(st)
            && (st.pending.Some? ==> st.pending.value.from == lo)
            && (st.pending.None? ==> lo == st.lineno + 1)
  {
    if st.pending.Some? {
      UnendedNext(env, lines, LineBefore(st.events, |st.events|) + 1, st.lineno);
    }
  }

  /** What the step does with a line of SQL, in terms of the batch. */
  lemma SqlStep(env: Env, lines: seq<Input>, st: State, lo: nat)
    requires 1 <= lo <= st.lineno + 1 <= |lines| && BatchPrior(env, lines, lo, st.lineno + 1) == Prior(st)
    requires st.pending.None? ==> !lines[st.lineno].blank && !lines[st.lineno].dot && lo == st.lineno + 1
    requires st.pending.Some? ==> st.pending.value.from == lo
    ensures var n := st.lineno + 1;
            var sql := BatchText(env, lines, lo, n);
            Step(env, st, lines[st.lineno]) ==
            if Ends(env, lines, lo, n) then
              State(st.events + [Event(lo, n, Executed(sql))], None, n,
                    st.errCnt + if env.fails(st.events, sql) then 1 else 0, st.exited)
            else st.(pending := Some(Pending(lo, sql)), lineno := n)
  {
  }

  lemma BatchEnds(env: Env, lines: seq<Input>, st: State, lo: nat, n: nat)
    requires Faithful(env, lines, st) && lo == LineBefore(st.events, |st.events|) + 1 <= n <= |lines|
    requires Unended(env, lines, lo, n) && Ends(env, lines, lo, n)
    ensures var sql := BatchText(env, lines, lo, n);
            var errors := st.errCnt + if env.fails(st.events, sql) then 1 else 0;
            Faithful(env, lines, State(st.events + [Event(lo, n, Executed(sql))], None, n, errors, st.exited))
  {
    AddEvent(env, lines, st, Event(lo, n, Executed(BatchText(env, lines, lo, n))), st.exited);
  }

  lemma BatchWaits(env: Env, lines: seq<Input>, st: State, lo: nat, n: nat)
    requires Faithful(env, lines, st) && lo == LineBefore(st.events, |st.events|) + 1 <= n <= |lines|
    requires Unended(env, lines, lo, n) && !Ends(env, lines, lo, n)
    ensures Faithful(env, lines, st.(pending := Some(Pending(lo, BatchText(env, lines, lo, n))), lineno := n))
  {
  }

  lemma SqlStepFaithful(env: Env, lines: seq<Input>, st: State)
    requires Faithful(env, lines, st) && st.lineno < |lines|
    requires st.pending.None? ==> !lines[st.lineno].blank && !lines[st.lineno].dot
    ensures Faithful(env, lines, Step(env, st, lines[st.lineno]))
  {
    NextSqlLine(env, lines, st);
    var n := st.lineno + 1;
    var lo := LineBefore(st.events, |st.events|) + 1;
    SqlStep(env, lines, st, lo);
    if Ends(env, lines, lo, n) {
      BatchEnds(env, lines, st, lo, n);
    } else {
      BatchWaits(env, lines, st, lo, n);
    }
  }

  /** Every step keeps conservation. */
  lemma StepFaithful(env: Env, lines: seq<Input>, st: State)
    requires Faithful(env, lines, st) && st.lineno < |lines|
    ensures Faithful(env, lines, Step(env, st, lines[st.lineno]))
    ensures Step(env, st, lines[st.lineno]).lineno == st.lineno + 1
  {
    var line := lines[st.lineno];
    var n := st.lineno + 1;
    if st.pending.None? && line.blank {
      AddEvent(env, lines, st, Event(n, n, Skipped), st.exited);
    } else if st.pending.None? && line.dot {
      AddEvent(env, lines, st, Event(n, n, Meta), st.exited || env.meta(st.events, line.text) == 2);
    } else {
      SqlStepFaithful(env, lines, st);
    }
  }

  /**
   Conservation over whole runs: every line that was read is in exactly one skipped
   line, dot-command, executed batch or the waiting text, in order, and reading
   stops early only where the loop condition says so.
   */
  lemma {:induction false} RunFaithful(env: Env, lines: seq<Input>, st: State)
    requires Faithful(env, lines, st)
    ensures var end := Run(env, st, lines);
            Faithful(env, lines, end) && (end.lineno < |lines| ==> !GoesOn(env, end))
    decreases |lines| - st.lineno
  {
    if st.lineno < |lines| && GoesOn(env, st) {
      StepFaithful(env, lines, st);
      RunFaithful(env, lines, Step(env, st, lines[st.lineno]));
    }
  }

  // ---------- what each kind of line does ----------

  /** A terminator line is not blank and no dot-command. */
  lemma TerminatorIsSql(line: string)
    requires IsTerminator(line)
    ensures !IsBlank(line, 0) && At(line, 0) != '.'
  {
    BlankSkips(line, 0);
  }

  lemma {:induction false} BlankSkips(z: string, i: nat)
    requires i <= |z|
    ensures IsBlank(z, i) == IsBlank(z, SkipSpaces(z, i))
    decreases |z| - i
  {
    if i < |z| && IsSpace(z[i]) {
      BlankSkips(z, i + 1);
    }
  }

  /** The batch `sql`, from line `from` on, is executed at line `n` if it may end there; else it waits. */
  function Joined(env: Env, st: State, from: nat, n: nat, sql: string, ends: bool): State {
    if ends && env.complete(sql) then
      State(st.events + [Event(from, n, Executed(sql))], None, n, st.errCnt + (if env.fails(st.events, sql) then 1 else 0), st.exited)
    else State(st.events, Some(Pending(from, sql)), n, st.errCnt, st.exited)
  }

  /** A blank line with nothing pending is an event and nothing else. */
  lemma BlankLine(env: Env, st: State, line: string)
    requires st.pending.None? && IsBlank(line, 0)
    ensures var n := st.lineno + 1;
            Step(env, st, Classify(line)) == State(st.events + [Event(n, n, Skipped)], None, n, st.errCnt, st.exited)
  {
  }

  /** A dot-command is run with nothing pending only: 2 ends the reading, 0 is no error, all else counts as one. */
  lemma DotLine(env: Env, st: State, line: string)
    requires st.pending.None? && !IsBlank(line, 0) && line != "" && line[0] == '.'
    ensures var n, rc := st.lineno + 1, env.meta(st.events, line);
            var next := Step(env, st, Classify(line));
            && next.events == st.events + [Event(n, n, Meta)] && next.pending == None && next.lineno == n
            && next.errCnt == st.errCnt + (if rc != 0 && rc != 2 then 1 else 0)
            && (next.exited <==> st.exited || rc == 2) && (rc == 2 ==> !GoesOn(env, next))
  {
  }

  /** A line of SQL that begins a batch is its text, but a terminator line is a semicolon. */
  lemma FirstSqlLine(env: Env, st: State, line: string)
    requires st.pending.None? && !IsBlank(line, 0) && At(line, 0) != '.'
    ensures var n := st.lineno + 1;
            Step(env, st, Classify(line)) ==
            if IsTerminator(line) then Joined(env, st, n, n, ";", true) else Joined(env, st, n, n, line, ';' in line)
  {
  }

  /** So a terminator line with nothing pending is the batch of one semicolon, executed if that is complete. */
  lemma LoneTerminator(env: Env, st: State, line: string)
    requires st.pending.None? && IsTerminator(line)
    ensures var n := st.lineno + 1; Step(env, st, Classify(line)) == Joined(env, st, n, n, ";", true)
  {
    TerminatorIsSql(line);
    FirstSqlLine(env, st, line);
  }

  /**
   A line after others of its batch joins them behind a newline, whatever it is: also a blank
   line or a dot-command. But a terminator line joins as a semicolon where a semicolon would
   complete the batch, and as it is where it would not.
   */
  lemma FurtherSqlLine(env: Env, st: State, from: nat, sql: string, line: string)
    requires st.pending == Some(Pending(from, sql))
    ensures var n := st.lineno + 1;
            Step(env, st, Classify(line)) ==
            if IsTerminator(line) && env.complete(sql + ";") then Joined(env, st, from, n, sql + "\n;", true)
            else Joined(env, st, from, n, sql + "\n" + line, ';' in line)
  {
    assert sql + "\n" + ";" == sql + "\n;";
  }

  /** Reading goes on exactly until it is ended by a dot-command, or by an error with bail_on_error set and no one at the keyboard. */
  lemma LoopCondition(env: Env, st: State, lines: seq<Input>)
    requires st.lineno < |lines|
    ensures st.exited || (st.errCnt > 0 && env.bail(st.events) && !env.interactive) ==> Run(env, st, lines) == st
    ensures !st.exited && (st.errCnt == 0 || !env.bail(st.events) || env.interactive) ==>
              Run(env, st, lines) == Run(env, Step(env, st, lines[st.lineno]), lines)
  {
  }

  // ---------- one more line ----------

  /** A run over one more line takes one more step, unless the reading has ended. */
  lemma {:induction false} RunOneMore(env: Env, st: State, lines: seq<Input>, line: Input)
    requires st.lineno <= |lines|
    ensures var end := Run(env, st, lines);
            Run(env, st, lines + [line]) == if end.lineno == |lines| && GoesOn(env, end) then Step(env, end, line) else end
    decreases |lines| - st.lineno
  {
    if st.lineno == |lines| {
      assert (lines + [line])[st.lineno] == line;
      StepLine(env, st, line);
    } else if GoesOn(env, st) {
      assert (lines + [line])[st.lineno] == lines[st.lineno];
      StepLine(env, st, lines[st.lineno]);
      RunOneMore(env, Step(env, st, lines[st.lineno]), lines, line);
    }
  }

  lemma StepLine(env: Env, st: State, line: Input)
    ensures Step(env, st, line).lineno == st.lineno + 1
  {
  }
}
