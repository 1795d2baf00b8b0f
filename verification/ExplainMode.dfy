/**
 .explain, which saves the output settings and puts them back, among the other
 commands that change them: .mode, .headers and .width.
 */
module ExplainMode {
  import opened Text
  import opened ShellState
  import opened Quoting

  /** The settings that .explain saves. */
  datatype Layout = Layout(mode: Mode, header: int, widths: seq<int>)

  datatype Settings = Settings(now: Layout, saved: Option<Layout>)

  datatype Command = Explain(val: int) | SetMode(name: string) | Headers(val: int) | Width(ws: seq<int>)

  /** The names that `.mode` takes, other than those of insert mode with a table. */
  function ModeNamed(name: string): Option<Mode> {
    if name == "line" || name == "lines" then Some(Line)
    else if name == "column" || name == "columns" then Some(Column)
    else if name == "list" || name == "tabs" then Some(List)
    else if name == "html" then Some(Html)
    else if name == "tcl" then Some(Tcl)
    else if name == "csv" then Some(Csv)
    else if name == "insert" then Some(Insert)
    else None
  }

  const EXPLAIN_WIDTHS := [4, 13, 4, 4, 4, 13, 2, 13]

  /** The memset() before the widths are set clears 100 bytes, which are the first 25 widths. */
  const CLEARED := 25

  function ExplainWidth(was: seq<int>, i: nat): int
    requires i < |was|
  {
    if i < 8 then EXPLAIN_WIDTHS[i] else if i < CLEARED then 0 else was[i]
  }

  /** `.width` sets at most the first 99 widths. */
  function NewWidth(was: seq<int>, ws: seq<int>, i: nat): int
    requires i < |was|
  {
    if i < |ws| && i < WIDTHS - 1 then ws[i] else was[i]
  }

  function Apply(c: Command, s: Settings): Settings {
    var l := s.now;
    match c
    case Explain(val) =>
      if val == 1 then
        Settings(Layout(Mode.Explain, 1, seq(|l.widths|, i requires 0 <= i < |l.widths| => ExplainWidth(l.widths, i))),
                 if s.saved.None? then Some(l) else s.saved)
      else if s.saved.Some? then Settings(s.saved.value, None)
      else s
    case SetMode(name) => if ModeNamed(name).Some? then s.(now := l.(mode := ModeNamed(name).value)) else s
    case Headers(val) => s.(now := l.(header := val))
    case Width(ws) => s.(now := l.(widths := seq(|l.widths|, i requires 0 <= i < |l.widths| => NewWidth(l.widths, ws, i))))
  }

  /** Turned on, .explain sets mode, header and eight widths, clears 17 more and leaves the other widths; what was saved stays. */
  lemma ExplainSets(s: Settings)
    requires |s.now.widths| == 100
    ensures var t := Apply(Command.Explain(1), s);
            && t.now.mode == Mode.Explain && t.now.header == 1
            && t.now.widths == [4, 13, 4, 4, 4, 13, 2, 13] + seq(17, _ => 0) + s.now.widths[25..]
            && t.saved == Some(if s.saved.Some? then s.saved.value else s.now)
  {
  }

  /** Turning it on again changes nothing, and turning it off without having turned it on does not either. */
  lemma ExplainTwice(s: Settings, val: int)
    ensures Apply(Command.Explain(1), Apply(Command.Explain(1), s)) == Apply(Command.Explain(1), s)
    ensures val != 1 && s.saved.None? ==> Apply(Command.Explain(val), s) == s
    ensures val != 1 && s.saved.None? ==> Apply(Command.Explain(val), Apply(Command.Explain(1), s)) == s
  {
  }

  /** .headers and .width set what they are about and nothing else: .width the first widths, at most 99. */
  lemma OthersSet(s: Settings, val: int, ws: seq<int>)
    requires |s.now.widths| == 100
    ensures Apply(Headers(val), s) == Settings(Layout(s.now.mode, val, s.now.widths), s.saved)
    ensures var n := if |ws| <= 99 then |ws| else 99;
            Apply(Width(ws), s) == Settings(Layout(s.now.mode, s.now.header, ws[..n] + s.now.widths[n..]), s.saved)
  {
    var n := if |ws| <= 99 then |ws| else 99;
    assert Apply(Width(ws), s).now.widths == ws[..n] + s.now.widths[n..];
  }

  const MODE_NAMES := map["line" := Line, "lines" := Line, "column" := Column, "columns" := Column, "list" := List,
                          "tabs" := List, "html" := Html, "tcl" := Tcl, "csv" := Csv, "insert" := Insert]

  /** .mode takes ten names, and sets the mode and nothing else; any other name changes nothing. */
  lemma ModesSet(s: Settings, name: string)
    ensures Apply(SetMode(name), s) ==
            if name in MODE_NAMES then Settings(Layout(MODE_NAMES[name], s.now.header, s.now.widths), s.saved) else s
  {
  }

  /** The settings after the first `n` commands. */
  function After(cmds: seq<Command>, s: Settings, n: nat): Settings
    requires n <= |cmds|
  {
    if n == 0 then s else Apply(cmds[n - 1], After(cmds, s, n - 1))
  }

  /** Command `k` switched from not saved to saved, and nothing was put back up to command `n`. */
  ghost predicate LastSwitch(cmds: seq<Command>, s: Settings, k: nat, n: nat) {
    && k < n <= |cmds|
    && After(cmds, s, k).saved == None
    && forall i | k < i <= n :: After(cmds, s, i).saved.Some?
  }

  /** What is saved is what held just before the most recent switch. */
  lemma {:induction false} SavedFromSwitch(cmds: seq<Command>, s: Settings, n: nat) returns (k: nat)
    requires s.saved == None && n <= |cmds| && After(cmds, s, n).saved.Some?
    ensures LastSwitch(cmds, s, k, n) && After(cmds, s, n).saved == Some(After(cmds, s, k).now)
  {
    if After(cmds, s, n - 1).saved == None {
      k := n - 1;
    } else {
      k := SavedFromSwitch(cmds, s, n - 1);
    }
  }

  lemma OneLastSwitch(cmds: seq<Command>, s: Settings, j: nat, k: nat, n: nat)
    requires LastSwitch(cmds, s, j, n) && LastSwitch(cmds, s, k, n)
    ensures j == k
  {
  }

  /**
   In every run that starts with nothing saved, an .explain that turns explain off
   restores exactly the mode, header and widths that held just before the most
   recent switch from not saved to saved, whatever came between.
   */
  lemma ExplainRestores(cmds: seq<Command>, s: Settings, k: nat, n: nat)
    requires s.saved == None && n < |cmds| && LastSwitch(cmds, s, k, n)
    requires cmds[n].Explain? && cmds[n].val != 1
    ensures After(cmds, s, n + 1) == Settings(After(cmds, s, k).now, None)
    ensures cmds[k] == Command.Explain(1)
  {
    var j := SavedFromSwitch(cmds, s, n);
    OneLastSwitch(cmds, s, j, k, n);
    assert After(cmds, s, k + 1).saved.Some?;
  }

  // ---------- the commands ----------

  ghost function View(p: CallbackData): Settings
    reads p, p.colWidth, p.prevColWidth
  {
    Settings(Layout(p.mode, p.showHeader, p.colWidth[..]),
             if p.prevValid then Some(Layout(p.prevMode, p.prevShowHeader, p.prevColWidth[..])) else None)
  }

  /** memcpy() between two arrays of widths. */
  method CopyWidths(dst: array<int>, src: array<int>)
    requires dst.Length == src.Length && dst != src
    modifies dst
    ensures dst[..] == src[..]
  {
    forall i | 0 <= i < dst.Length {
      dst[i] := src[i];
    }
  }

  /** The widths of explain mode: memset(), then eight assignments. */
  method SetExplainWidths(w: array<int>)
    requires w.Length == WIDTHS
    modifies w
    ensures forall i | 0 <= i < WIDTHS :: w[i] == ExplainWidth(old(w[..]), i)
  {
    forall i | 0 <= i < CLEARED {
      w[i] := 0;
    }
    w[0], w[1], w[2], w[3] := 4, 13, 4, 4;
    w[4], w[5], w[6], w[7] := 4, 13, 2, 13;
  }

  /** .explain with the value of its argument, 1 without one. */
  method ExplainCommand(p: CallbackData, val: int)
    requires p.Valid()
    modifies p`mode, p`showHeader, p`prevValid, p`prevMode, p`prevShowHeader, p.colWidth, p.prevColWidth
    ensures View(p) == Apply(Command.Explain(val), old(View(p)))
  {
    if val == 1 {
      if !p.prevValid {
        p.prevValid := true;
        p.prevMode := p.mode;
        p.prevShowHeader := p.showHeader;
        CopyWidths(p.prevColWidth, p.colWidth);
      }
      p.mode := Mode.Explain;
      p.showHeader := 1;
      SetExplainWidths(p.colWidth);
    } else if p.prevValid {
      p.prevValid := false;
      p.mode := p.prevMode;
      p.showHeader := p.prevShowHeader;
      CopyWidths(p.colWidth, p.prevColWidth);
    }
  }

  /** .headers */
  method HeadersCommand(p: CallbackData, val: int)
    requires p.Valid()
    modifies p`showHeader
    ensures View(p) == Apply(Headers(val), old(View(p)))
  {
    p.showHeader := val;
  }

  /** .width with the values of its arguments. */
  method WidthCommand(p: CallbackData, ws: seq<int>)
    requires p.Valid()
    modifies p.colWidth
    ensures View(p) == Apply(Width(ws), old(View(p)))
  {
    var j := 1;
    while j < |ws| + 1 && j < WIDTHS
      invariant 1 <= j <= WIDTHS && j <= |ws| + 1
      invariant forall i | 0 <= i < WIDTHS :: p.colWidth[i] == if i < j - 1 then ws[i] else old(p.colWidth[i])
      invariant p.prevColWidth[..] == old(p.prevColWidth[..])
    {
      p.colWidth[j - 1] := ws[j - 1];
      j := j + 1;
    }
  }

  /** .mode with one argument; the csv and tabs modes also set the separator. An unknown name is an error. */
  method ModeCommand(p: CallbackData, name: string) returns (rc: int)
    requires p.Valid()
    modifies p`mode, p`separator, p`zDestTable
    ensures View(p) == Apply(SetMode(name), old(View(p)))
    ensures rc == if ModeNamed(name).Some? then 0 else 1
    ensures p.separator == if name == "csv" then "," else if name == "tabs" then "\t" else old(p.separator)
    ensures p.zDestTable == if name == "insert" then Some(DestName("table")) else old(p.zDestTable)
  {
    rc := 0;
    if name == "line" || name == "lines" {
      p.mode := Line;
    } else if name == "column" || name == "columns" {
      p.mode := Column;
    } else if name == "list" {
      p.mode := List;
    } else if name == "html" {
      p.mode := Html;
    } else if name == "tcl" {
      p.mode := Tcl;
    } else if name == "csv" {
      p.mode := Csv;
      p.separator := ",";
    } else if name == "tabs" {
      p.mode := List;
      p.separator := "\t";
    } else if name == "insert" {
      p.mode := Insert;
      SetDestTable(p, Some("table"));
    } else {
      rc := 1;
    }
  }

  /** .mode with two arguments, which only insert mode takes. */
  method ModeTableCommand(p: CallbackData, name: string, table: string) returns (rc: int)
    requires p.Valid() && NulFree(table)
    modifies p`mode, p`zDestTable
    ensures View(p) == if name == "insert" then Apply(SetMode(name), old(View(p))) else old(View(p))
    ensures p.zDestTable == if name == "insert" then Some(DestName(table)) else old(p.zDestTable)
    ensures rc == if name == "insert" then 0 else 1
  {
    rc := 0;
    if name == "insert" {
      p.mode := Insert;
      SetDestTable(p, Some(table));
    } else {
      rc := 1;
    }
  }
}
