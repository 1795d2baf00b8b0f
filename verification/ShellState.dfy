/**
 struct callback_data: the output settings and state of the shell. The file
 behind `out` is the text written to it so far.
 */
module ShellState {
  import opened Text

  datatype Mode = Line | Column | List | Semi | Html | Insert | Tcl | Csv | Explain

  const WIDTHS := 100

  class CallbackData {
    var cnt: nat
    var out: string
    var mode: Mode
    var showHeader: int
    var zDestTable: Option<string>
    var separator: string
    var nullvalue: string
    var pStmt: Option<nat>
    const colWidth: array<int>

    // explainPrev: the settings saved by .explain
    var prevValid: bool
    var prevMode: Mode
    var prevShowHeader: int
    const prevColWidth: array<int>

    ghost predicate Valid() {
      colWidth.Length == WIDTHS && prevColWidth.Length == WIDTHS && colWidth != prevColWidth
    }

    /** main_init(): list mode, separator "|", no header, nothing saved. */
    constructor ()
      ensures Valid() && fresh(colWidth) && fresh(prevColWidth)
      ensures cnt == 0 && out == "" && mode == List && showHeader == 0 && zDestTable == None
      ensures separator == "|" && nullvalue == "" && pStmt == None && !prevValid
      ensures forall i | 0 <= i < WIDTHS :: colWidth[i] == 0
    {
      cnt, out, mode, showHeader, zDestTable := 0, "", List, 0, None;
      separator, nullvalue, pStmt := "|", "", None;
      colWidth := new int[WIDTHS](i => 0);
      prevValid, prevMode, prevShowHeader := false, Line, 0;
      prevColWidth := new int[WIDTHS](i => 0);
    }
  }
}
