/**
 The user log, twice: log_msg() of zvm.c keeps a pointer and the space left, and
 log_msg2() of zrt.c, which replaced it, keeps a cursor. Both leave the same log.
 */
module UserLog {
  import opened Text
  import opened Channels
  import opened Integers

  const OK_CODE := 0
  const PARAM_CODE := 1
  const SIZE_CODE := 2
  const PTR_CODE := 3
  const LARGE_CODE := 5

  function Zeros(n: nat): seq<char> {
    seq(n, _ => '\0')
  }

  function Concat(msgs: seq<string>): string {
    if msgs == [] then "" else Concat(msgs[..|msgs| - 1]) + msgs[|msgs| - 1]
  }

  /** A log of `size` bytes after all of `text` was sent to it: what fits, and nothing else. */
  function Filled(text: string, size: nat): (r: seq<char>)
    ensures |r| == size
  {
    if |text| <= size then text + Zeros(size - |text|) else text[..size]
  }

  // ---------- the old log ----------

  /** The buffer and the byte behind it, the offset of the pointer in it, and the space left, which may be negative. */
  datatype OldLog = OldLog(data: seq<char>, at: nat, left: int)

  /** An empty log; `spare` is the byte behind it. */
  function OldSet(size: nat, spare: char): OldLog {
    OldLog(Zeros(size) + [spare], 0, size)
  }

  /** What log_msg() leaves and answers; strncat() appends what fits and a terminator. */
  function OldStep(l: OldLog, msg: string): (OldLog, int)
    requires l.left >= 1 ==> l.at + l.left < |l.data|
  {
    if l.left < 1 then (l, SIZE_CODE)
    else if msg == "" then (l, PARAM_CODE)
    else
      var n := if |msg| <= l.left then |msg| else l.left;
      (OldLog(l.data[..l.at] + msg[..n] + "\0" + l.data[l.at + n + 1..], l.at + |msg|, l.left - |msg|),
       if l.left < |msg| then LARGE_CODE else OK_CODE)
  }

  /**
   The old log holds what fits of `text`, is terminated where it points, and offset and
   space add up to its size. The byte behind it is overwritten once `text` fills the log.
   */
  predicate OldHolds(l: OldLog, text: string, size: nat, spare: char) {
    && l.at + l.left == size && |l.data| == size + 1
    && l.data == Filled(text, size) + [if 0 < size <= |text| then '\0' else spare]
    && (if l.left >= 1 then l.at == |text| else |text| >= size)
  }

  lemma OldSetHolds(size: nat, spare: char)
    ensures OldHolds(OldSet(size, spare), "", size, spare)
  {
  }

  lemma OldStepHolds(l: OldLog, text: string, size: nat, spare: char, msg: string)
    requires OldHolds(l, text, size, spare)
    ensures OldHolds(OldStep(l, msg).0, text + msg, size, spare)
  {
    var m := OldStep(l, msg).0;
    if l.left < 1 || msg == "" {
      assert l.left < 1 ==> (text + msg)[..size] == text[..size];
      assert msg == "" ==> text + msg == text;
    } else if |msg| < l.left {
      assert m.data == text + msg + Zeros(size - |text| - |msg|) + [spare];
    } else {
      assert m.data == text + msg[..l.left] + "\0";
      assert (text + msg)[..size] == text + msg[..l.left];
    }
  }

  function OldAfter(size: nat, spare: char, msgs: seq<string>): (l: OldLog)
    ensures OldHolds(l, Concat(msgs), size, spare)
    decreases |msgs|
  {
    if msgs == [] then OldSetHolds(size, spare); OldSet(size, spare)
    else
      var l := OldAfter(size, spare, msgs[..|msgs| - 1]);
      OldStepHolds(l, Concat(msgs[..|msgs| - 1]), size, spare, msgs[|msgs| - 1]);
      OldStep(l, msgs[|msgs| - 1]).0
  }

  /**
   What log_msg() answers after any messages, by how much they fill of the log: 2 if all of it,
   1 for an empty message, 0 exactly if the message fits, and 5 if it does not.
   */
  lemma CodeAfter(size: nat, spare: char, msgs: seq<string>, msg: string)
    ensures var sent, rc := |Concat(msgs)|, OldStep(OldAfter(size, spare, msgs), msg).1;
            && (rc == 2 <==> sent >= size)
            && (rc == 1 <==> sent < size && msg == "")
            && (rc == 0 <==> msg != "" && sent < size && sent + |msg| <= size)
            && (rc == 5 <==> sent < size < sent + |msg|)
  {
    assert OldHolds(OldAfter(size, spare, msgs), Concat(msgs), size, spare);
  }

  /** Where log_msg() puts the terminator of a message: behind the log exactly if the message fills the space left. */
  lemma TerminatorBehind(l: OldLog, size: nat, msg: string)
    requires l.left >= 1 && msg != "" && l.at + l.left == size && |l.data| == size + 1 && l.data[size] != '\0'
    ensures OldStep(l, msg).0.data[size] == '\0' <==> |msg| >= l.left
  {
  }

  /**
   Over any messages to an empty log, log_msg() overwrites the byte behind the log exactly
   if together they reach its size, and so first with the message that makes them reach it.
   */
  lemma Overrun(size: nat, spare: char, msgs: seq<string>, k: nat)
    requires spare != '\0' && k < |msgs|
    ensures OldAfter(size, spare, msgs).data[size] != spare <==> 0 < size <= |Concat(msgs)|
    ensures OldAfter(size, spare, msgs[..k]).data[size] == spare != OldAfter(size, spare, msgs[..k + 1]).data[size]
            <==> |Concat(msgs[..k])| < size <= |Concat(msgs[..k + 1])|
  {
    assert OldHolds(OldAfter(size, spare, msgs), Concat(msgs), size, spare);
    var a, b := msgs[..k], msgs[..k + 1];
    assert OldHolds(OldAfter(size, spare, a), Concat(a), size, spare);
    assert OldHolds(OldAfter(size, spare, b), Concat(b), size, spare);
    assert b[..|b| - 1] == a;
  }

  // ---------- the new log ----------

  /** The log channel holds what fits of `text`, and its cursor is behind it. */
  predicate NewHolds(f: File, text: string, size: nat) {
    f.Valid() && f.data == Filled(text, size) && f.pos == if |text| <= size then |text| else size
  }

  lemma NewStepHolds(f: File, text: string, size: nat, msg: string)
    requires NewHolds(f, text, size)
    ensures NewHolds(f.Put(msg), text + msg, size)
  {
    var g := f.Put(msg);
    if |text| > size {
      assert (text + msg)[..size] == text[..size];
    } else if |text| + |msg| <= size {
      assert g.data == text + msg + Zeros(size - |text| - |msg|);
    } else {
      assert g.data == text + msg[..size - |text|];
      assert (text + msg)[..size] == text + msg[..size - |text|];
    }
  }

  function NewAfter(size: nat, msgs: seq<string>): (f: File)
    requires size <= MAX_POS
    ensures NewHolds(f, Concat(msgs), size)
    decreases |msgs|
  {
    if msgs == [] then File(Zeros(size), 0, 0, true)
    else
      var f := NewAfter(size, msgs[..|msgs| - 1]);
      NewStepHolds(f, Concat(msgs[..|msgs| - 1]), size, msgs[|msgs| - 1]);
      f.Put(msgs[|msgs| - 1])
  }

  /**
   From an empty log, after any messages, both logs hold the same bytes: the first
   `size` of all the messages together, and zeros behind them if they are fewer.
   */
  lemma LogsAgree(size: nat, spare: char, msgs: seq<string>)
    requires size <= MAX_POS
    ensures OldAfter(size, spare, msgs).data[..size] == NewAfter(size, msgs).data == Filled(Concat(msgs), size)
    ensures OldAfter(size, spare, msgs).at + OldAfter(size, spare, msgs).left == size
  {
    var l, f := OldAfter(size, spare, msgs), NewAfter(size, msgs);
    assert OldHolds(l, Concat(msgs), size, spare) && NewHolds(f, Concat(msgs), size);
    assert l.data[..size] == Filled(Concat(msgs), size);
  }

  // ---------- zvm.c ----------

  /** The buffer of the log channel and its size. */
  datatype LogChannel = LogChannel(buffer: array?<char>, bsize: nat)

  /** The static variables _log and _log_size. */
  class Logger {
    var buffer: array?<char>
    var at: nat
    var left: int

    constructor ()
      ensures buffer == null
    {
      buffer, at, left := null, 0, 0;
    }

    /** The buffer has a byte to spare for a terminator, and the log ends where the pointer is. */
    ghost predicate Ready()
      reads this, buffer
    {
      buffer != null && (left >= 1 ==> at + left < buffer.Length && buffer[at] == '\0')
    }

    ghost function View(): OldLog
      reads this, buffer
      requires buffer != null
    {
      OldLog(buffer[..], at, left)
    }

    /** log_set(): a missing setup or a missing buffer is an error, but only the first changes nothing. */
    method LogSet(setup: Option<LogChannel>) returns (rc: int)
      modifies this
      ensures setup.None? ==> rc == PARAM_CODE && buffer == old(buffer) && at == old(at) && left == old(left)
      ensures setup.Some? ==> var c := setup.value;
                              && buffer == c.buffer && at == 0 && left == c.bsize
                              && rc == (if c.buffer == null then PTR_CODE else OK_CODE)
                              && (c.buffer != null && c.bsize < c.buffer.Length && c.buffer[0] == '\0' ==> Ready())
    {
      if setup.None? {
        return PARAM_CODE;
      }
      buffer, at, left := setup.value.buffer, 0, setup.value.bsize;
      rc := if buffer == null then PTR_CODE else OK_CODE;
    }

    /** strncat(_log, msg, n): append what fits of `msg` to the string `s` that starts at the pointer. */
    method StrNCat(msg: string, n: nat, ghost s: string)
      requires buffer != null && HoldsAt(buffer, at, s) && at + |s| + n < buffer.Length
      modifies buffer
      ensures var e, k := at + |s|, if |msg| <= n then |msg| else n;
              buffer[..] == old(buffer[..e]) + msg[..k] + "\0" + old(buffer[e + k + 1..])
    {
      HoldsEach(buffer, at, s);
      var e := at;
      while buffer[e] != '\0'
        invariant at <= e <= at + |s|
        decreases at + |s| - e
      {
        e := e + 1;
      }
      var k := if |msg| <= n then |msg| else n;
      ghost var was := buffer[..];
      forall i | 0 <= i < k {
        buffer[e + i] := msg[i];
      }
      buffer[e + k] := '\0';
      assert buffer[..] == was[..e] + msg[..k] + "\0" + was[e + k + 1..];
    }

    /** log_msg(); a null message is treated like an empty one. */
    method LogMsg(zMsg: Option<string>) returns (rc: int)
      requires buffer != null ==> Ready()
      requires zMsg.Some? ==> NulFree(zMsg.value)
      modifies this, buffer
      ensures buffer == old(buffer)
      ensures buffer == null ==> rc == PTR_CODE && at == old(at) && left == old(left)
      ensures buffer != null ==> Ready() && (View(), rc) == OldStep(old(View()), if zMsg.None? then "" else zMsg.value)
    {
      if buffer == null {
        return PTR_CODE;
      }
      if left < 1 {
        return SIZE_CODE;
      }
      if zMsg.None? || zMsg.value == "" {
        return PARAM_CODE;
      }
      var msg := zMsg.value;
      rc := OK_CODE;
      if left < |msg| {
        rc := LARGE_CODE;
      }
      StrNCat(msg, left, "");
      at := at + |msg|;
      left := left - |msg|;
    }
  }

  // ---------- log_int ----------

  /** log_int(): the decimal text of a number goes to the log. */
  method LogInt(ch: seq<Channel>, dec: int) returns (rc: int)
    requires Separate(ch) && AllValid(Views(ch)) && -0x8000_0000 < dec < 0x8000_0000
    modifies ch[LOG], ch[LOG].buffer
    ensures Views(ch) == Step(old(Views(ch)), Log(IntText(dec, 10))) && rc == 0
  {
    DecimalFits(dec);
    var text := new char[17];
    Itoa(dec, text, 10);
    var msg := TextAt(text, 0, IntText(dec, 10));
    rc := LogMsg2(ch, Some(msg));
  }
}
