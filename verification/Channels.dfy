/**
 The three standard channels of the ZeroVM runtime, mapped into memory: zrt_read,
 zrt_write, zrt_lseek and log_msg2 over shared cursors.
 */
module Channels {
  import opened Text

  const ERR_CODE := -1
  const EPERM := 1
  const EBADF := 9
  const MAX_POS := 0x7fff_ffff

  const INPUT := 0
  const OUTPUT := 1
  const LOG := 2

  // ---------- the reference: random-access files of fixed size ----------

  datatype File = File(data: seq<char>, pos: nat, fsize: int, mapped: bool) {
    /** The cursor is inside the file, or at its end. */
    predicate Valid() {
      pos <= |data| <= MAX_POS
    }

    /** How much of a transfer of `len` bytes fits. */
    function Room(len: nat): (n: nat)
      requires Valid()
      ensures n <= len && pos + n <= |data| && (n == len || pos + n == |data|)
    {
      if pos + len > |data| then |data| - pos else len
    }

    function Put(bytes: seq<char>): (f: File)
      requires Valid()
      ensures f.Valid() && |f.data| == |data|
    {
      var n := Room(|bytes|);
      this.(data := data[..pos] + bytes[..n] + data[pos + n..], pos := pos + n)
    }

    function Got(len: nat): seq<char>
      requires Valid()
    {
      data[pos..pos + Room(len)]
    }

    function Skip(len: nat): (f: File)
      requires Valid()
      ensures f.Valid()
    {
      this.(pos := pos + Room(len))
    }
  }

  datatype Call = Read(fd: int, len: int) | Write(fd: int, bytes: seq<char>) | Seek(fd: int, offset: int, whence: int) | Log(msg: string)

  /** What a call answers: its code, the bytes it read, and for a seek the new position. */
  datatype Answer = Answer(rc: int, bytes: seq<char>, pos: int)

  type Files = fs: seq<File> | |fs| == 3 witness [File("", 0, 0, true), File("", 0, 0, true), File("", 0, 0, true)]

  predicate AllValid(fs: Files) {
    fs[0].Valid() && fs[1].Valid() && fs[2].Valid()
  }

  /** SHOWID, which every zrt_lseek() writes to the log before anything else. */
  function ShowId(fs: Files): (r: Files)
    requires AllValid(fs)
    ensures AllValid(r)
  {
    fs[LOG := fs[LOG].Put("zrt_lseek").Put("() is called\n")]
  }

  /** The position that a seek asks for, if its arguments are accepted. */
  function Target(fs: Files, fd: int, offset: int, whence: int): Option<int>
    requires 0 <= fd <= 2
  {
    var p := if whence == 0 then offset else if whence == 1 then fs[fd].pos + offset else fs[fd].fsize + offset;
    if 0 <= whence <= 2 && 0 <= p <= MAX_POS then Some(p) else None
  }

  function ReadCode(fs: Files, fd: int, len: int): int {
    if fd != INPUT then -EBADF else if len < 0 || len > MAX_POS then -EPERM else if !fs[fd].mapped then -EBADF else 0
  }

  function WriteCode(fs: Files, fd: int, len: int): int {
    if fd < OUTPUT || fd > LOG then -EBADF else if len < 0 || len > MAX_POS then -EPERM else if !fs[fd].mapped then -EBADF else 0
  }

  /** The files after a call. */
  function Step(fs: Files, c: Call): Files
    requires AllValid(fs)
  {
    match c
    case Read(fd, len) => if ReadCode(fs, fd, len) != 0 then fs else fs[fd := fs[fd].Skip(len)]
    case Write(fd, bytes) => if WriteCode(fs, fd, |bytes|) != 0 then fs else fs[fd := fs[fd].Put(bytes)]
    case Seek(fd, offset, whence) =>
      var l := ShowId(fs);
      if !(0 <= fd <= 2) || Target(l, fd, offset, whence).None? then l
      else l[fd := l[fd].(pos := Target(l, fd, offset, whence).value)]
    case Log(msg) => fs[LOG := fs[LOG].Put(msg)]
  }

  /** The answer to a call; the code of a transfer is the number of bytes moved. */
  function Reply(fs: Files, c: Call): Answer
    requires AllValid(fs)
  {
    match c
    case Read(fd, len) =>
      var rc := ReadCode(fs, fd, len);
      if rc != 0 then Answer(rc, "", 0) else Answer(|fs[fd].Got(len)|, fs[fd].Got(len), 0)
    case Write(fd, bytes) =>
      var rc := WriteCode(fs, fd, |bytes|);
      Answer(if rc != 0 then rc else fs[fd].Room(|bytes|), "", 0)
    case Seek(fd, offset, whence) =>
      if !(0 <= fd <= 2) then Answer(-EBADF, "", offset)
      else
        var t := Target(ShowId(fs), fd, offset, whence);
        if t.None? then Answer(-EPERM, "", offset) else Answer(0, "", t.value)
    case Log(_) => Answer(0, "", 0)
  }

  /** A seek that is accepted lands inside the buffer of its channel. */
  predicate Lands(fs: Files, c: Call)
    requires AllValid(fs)
  {
    c.Seek? && 0 <= c.fd <= 2 ==>
      var t := Target(ShowId(fs), c.fd, c.offset, c.whence);
      t.Some? ==> t.value <= |fs[c.fd].data|
  }

  /** Exactly the seeks that land keep every cursor within its buffer; buffers never change size. */
  lemma StepKeeps(fs: Files, c: Call)
    requires AllValid(fs)
    ensures AllValid(Step(fs, c)) <==> Lands(fs, c)
    ensures forall i | 0 <= i < 3 :: |Step(fs, c)[i].data| == |fs[i].data|
  {
  }

  // ---------- what each call does, in numbers ----------

  function Min(a: int, b: int): int {
    if a <= b then a else b
  }

  /** `f` with the part of `bytes` that fits written at its cursor, which moves behind it. */
  ghost predicate Written(f: File, bytes: seq<char>, g: File) {
    && f.pos <= g.pos && g.pos - f.pos == Min(|bytes|, |f.data| - f.pos) && g.pos <= |g.data| == |f.data|
    && g.data == f.data[..f.pos] + bytes[..g.pos - f.pos] + f.data[g.pos..]
    && g.fsize == f.fsize && g.mapped == f.mapped
  }

  lemma SplicedTwice(d: seq<char>, p: nat, x: seq<char>, q: nat, y: seq<char>, r: nat, e: seq<char>)
    requires p <= q <= r <= |d| && |x| == q - p && |y| == r - q && e == d[..p] + x + d[q..]
    ensures e[..q] + y + e[r..] == d[..p] + (x + y) + d[r..]
  {
    assert e[..q] == d[..p] + x && e[r..] == d[r..];
  }

  lemma Together(a: seq<char>, n: nat, b: seq<char>, m: nat)
    requires n <= |a| && m <= |b| && (m > 0 ==> n == |a|)
    ensures (a + b)[..n + m] == a[..n] + b[..m]
  {
  }

  /** Two writes in a row are one write of both texts. */
  lemma WrittenTwice(f: File, a: seq<char>, g: File, b: seq<char>, h: File)
    requires f.pos <= |f.data| && Written(f, a, g) && Written(g, b, h)
    ensures Written(f, a + b, h)
  {
    var n, m := g.pos - f.pos, h.pos - g.pos;
    SplicedTwice(f.data, f.pos, a[..n], g.pos, b[..m], h.pos, g.data);
    Together(a, n, b, m);
  }

  /** The seek lines in the log, and the other channels as they were. */
  lemma SeekLogs(fs: Files)
    requires AllValid(fs)
    ensures var gs := ShowId(fs);
            gs[0] == fs[0] && gs[1] == fs[1] && Written(fs[2], "zrt_lseek() is called\n", gs[2])
  {
    assert "zrt_lseek" + "() is called\n" == "zrt_lseek() is called\n";
    var g := fs[2].Put("zrt_lseek");
    WrittenTwice(fs[2], "zrt_lseek", g, "() is called\n", g.Put("() is called\n"));
  }

  /** A cursor and the answer after a seek that asks for position `p`. */
  ghost predicate SoughtAt(p: int, offset: int, before: nat, after: nat, a: Answer) {
    if 0 <= p <= 0x7fff_ffff then after == p && a == Answer(0, "", p) else after == before && a == Answer(-1, "", offset)
  }

  /**
   A seek first writes its line to the log, and then moves one cursor: to `offset`, by `offset`
   or to `offset` behind the end of the file. Any other `whence` and any position
   below 0 or above 2^31 - 1 moves nothing, and nothing but that cursor moves.
   */
  lemma SeekMoves(fs: Files, fd: int, offset: int, whence: int)
    requires AllValid(fs)
    ensures var c := Seek(fd, offset, whence);
            var logged, gs, a := ShowId(fs), Step(fs, c), Reply(fs, c);
            && logged[0] == fs[0] && logged[1] == fs[1] && Written(fs[2], "zrt_lseek() is called\n", logged[2])
            && (fd < 0 || fd > 2 ==> gs == logged && a == Answer(-9, "", offset))
            && (0 <= fd <= 2 ==>
                  var before := logged[fd].pos;
                  && (forall i | 0 <= i < 3 && i != fd :: gs[i] == logged[i])
                  && gs[fd] == logged[fd].(pos := gs[fd].pos)
                  && (whence == 0 ==> SoughtAt(offset, offset, before, gs[fd].pos, a))
                  && (whence == 1 ==> SoughtAt(before + offset, offset, before, gs[fd].pos, a))
                  && (whence == 2 ==> SoughtAt(fs[fd].fsize + offset, offset, before, gs[fd].pos, a))
                  && (whence < 0 || whence > 2 ==> gs[fd].pos == before && a == Answer(-1, "", offset)))
  {
    SeekLogs(fs);
  }

  /** On input and output, SEEK_CUR by 0 moves nothing and tells the position. */
  lemma SeekTells(fs: Files, fd: int)
    requires AllValid(fs) && 0 <= fd <= 1
    ensures Reply(fs, Seek(fd, 0, 1)) == Answer(0, "", fs[fd].pos) && Step(fs, Seek(fd, 0, 1))[fd] == fs[fd]
  {
    SeekMoves(fs, fd, 0, 1);
  }

  /** Two relative seeks that are accepted add up. */
  lemma SeeksAdd(fs: Files, fd: int, a: int, b: int)
    requires AllValid(fs) && 0 <= fd <= 1 && 0 <= fs[fd].pos + a <= |fs[fd].data| && 0 <= fs[fd].pos + a + b <= MAX_POS
    ensures var mid := Step(fs, Seek(fd, a, 1));
            && AllValid(mid)
            && Step(mid, Seek(fd, b, 1))[fd] == Step(fs, Seek(fd, a + b, 1))[fd]
            && Reply(mid, Seek(fd, b, 1)) == Reply(fs, Seek(fd, a + b, 1)) == Answer(0, "", fs[fd].pos + a + b)
  {
    StepKeeps(fs, Seek(fd, a, 1));
  }

  /** Reading after a seek gives the bytes from the position sought. */
  lemma SeekThenRead(fs: Files, k: nat, len: nat)
    requires AllValid(fs) && fs[INPUT].mapped && k <= |fs[INPUT].data| && len <= MAX_POS
    ensures var mid := Step(fs, Seek(INPUT, k, 0));
            var n := Min(len, |fs[INPUT].data| - k);
            AllValid(mid) && Reply(mid, Read(INPUT, len)) == Answer(n, fs[INPUT].data[k..k + n], 0)
  {
    StepKeeps(fs, Seek(INPUT, k, 0));
  }

  /** A read: the answer, and what becomes of the channels. */
  lemma ReadMoves(fs: Files, fd: int, len: int)
    requires AllValid(fs)
    ensures var gs, a := Step(fs, Read(fd, len)), Reply(fs, Read(fd, len));
            && gs[1] == fs[1] && gs[2] == fs[2] && gs[0] == fs[0].(pos := gs[0].pos)
            && if fd != 0 then a == Answer(-9, "", 0) && gs == fs
               else if len < 0 || len > 0x7fff_ffff then a == Answer(-1, "", 0) && gs == fs
               else if !fs[0].mapped then a == Answer(-9, "", 0) && gs == fs
               else var n := Min(len, |fs[0].data| - fs[0].pos);
                    gs[0].pos == fs[0].pos + n && a == Answer(n, fs[0].data[fs[0].pos..fs[0].pos + n], 0)
  {
  }

  /** A write: the answer, and what becomes of the channels. */
  lemma WriteMoves(fs: Files, fd: int, bytes: seq<char>)
    requires AllValid(fs)
    ensures var gs, a := Step(fs, Write(fd, bytes)), Reply(fs, Write(fd, bytes));
            && gs[0] == fs[0] && (fd != 1 ==> gs[1] == fs[1]) && (fd != 2 ==> gs[2] == fs[2])
            && if fd < 1 || fd > 2 then a == Answer(-9, "", 0)
               else if |bytes| > 0x7fff_ffff then a == Answer(-1, "", 0) && gs == fs
               else if !fs[fd].mapped then a == Answer(-9, "", 0) && gs == fs
               else Written(fs[fd], bytes, gs[fd]) && a == Answer(gs[fd].pos - fs[fd].pos, "", 0)
  {
  }

  /** A message goes to the log channel at its cursor. */
  lemma LogMoves(fs: Files, msg: string)
    requires AllValid(fs)
    ensures var gs := Step(fs, Log(msg));
            gs[0] == fs[0] && gs[1] == fs[1] && Written(fs[2], msg, gs[2]) && Reply(fs, Log(msg)) == Answer(0, "", 0)
  {
  }

  // ---------- runs ----------

  /** Every seek of the run lands. */
  predicate AllLand(fs: Files, calls: seq<Call>)
    requires AllValid(fs)
    decreases |calls|
  {
    calls == [] || (Lands(fs, calls[0]) && (StepKeeps(fs, calls[0]); AllLand(Step(fs, calls[0]), calls[1..])))
  }

  function Run(fs: Files, calls: seq<Call>): (r: Files)
    requires AllValid(fs) && AllLand(fs, calls)
    ensures AllValid(r)
    decreases |calls|
  {
    if calls == [] then fs else StepKeeps(fs, calls[0]); Run(Step(fs, calls[0]), calls[1..])
  }

  /** All that the run read, in order. */
  function AllRead(fs: Files, calls: seq<Call>): seq<char>
    requires AllValid(fs) && AllLand(fs, calls)
    decreases |calls|
  {
    if calls == [] then "" else StepKeeps(fs, calls[0]); Reply(fs, calls[0]).bytes + AllRead(Step(fs, calls[0]), calls[1..])
  }

  predicate NoInputSeek(calls: seq<Call>) {
    forall i | 0 <= i < |calls| :: !(calls[i].Seek? && calls[i].fd == INPUT)
  }

  /** The input is never written, and reads without seeks give it out piece by piece: what they return is what the cursor passed. */
  lemma {:induction false} ReadsConcatenate(fs: Files, calls: seq<Call>)
    requires AllValid(fs) && AllLand(fs, calls) && NoInputSeek(calls)
    ensures var end := Run(fs, calls)[INPUT];
            end.data == fs[INPUT].data && fs[INPUT].pos <= end.pos && AllRead(fs, calls) == fs[INPUT].data[fs[INPUT].pos..end.pos]
    decreases |calls|
  {
    if calls != [] {
      var c, next := calls[0], Step(fs, calls[0]);
      StepKeeps(fs, c);
      assert !(c.Seek? && c.fd == INPUT);
      InputStep(fs, c);
      assert forall i | 0 <= i < |calls[1..]| :: calls[1..][i] == calls[i + 1];
      ReadsConcatenate(next, calls[1..]);
      PiecesJoin(fs[INPUT].data, fs[INPUT].pos, next[INPUT].pos, Run(next, calls[1..])[INPUT].pos);
    }
  }

  lemma PiecesJoin(s: seq<char>, a: nat, b: nat, c: nat)
    requires a <= b <= c <= |s|
    ensures s[a..b] + s[b..c] == s[a..c]
  {
  }

  lemma InputStep(fs: Files, c: Call)
    requires AllValid(fs) && !(c.Seek? && c.fd == INPUT)
    ensures var f, g := fs[INPUT], Step(fs, c)[INPUT];
            g.data == f.data && f.pos <= g.pos <= |f.data| && Reply(fs, c).bytes == f.data[f.pos..g.pos]
  {
  }

  /** What a call hands over to be written to the output. */
  function Sent(mapped: bool, c: Call): seq<char> {
    if c.Write? && c.fd == OUTPUT && |c.bytes| <= MAX_POS && mapped then c.bytes else ""
  }

  function AllSent(mapped: bool, calls: seq<Call>): seq<char> {
    if calls == [] then "" else Sent(mapped, calls[0]) + AllSent(mapped, calls[1..])
  }

  lemma OutputStep(fs: Files, c: Call)
    requires AllValid(fs) && !(c.Seek? && c.fd == OUTPUT)
    ensures Written(fs[OUTPUT], Sent(fs[OUTPUT].mapped, c), Step(fs, c)[OUTPUT])
  {
    var f := fs[OUTPUT];
    assert f.data == f.data[..f.pos] + f.data[f.pos..];
    if c.Write? {
      WriteMoves(fs, c.fd, c.bytes);
    }
  }

  /** Writes without seeks on the output put their bytes one behind the other, as far as they fit. */
  lemma {:induction false} WritesConcatenate(fs: Files, calls: seq<Call>)
    requires AllValid(fs) && AllLand(fs, calls) && forall i | 0 <= i < |calls| :: !(calls[i].Seek? && calls[i].fd == OUTPUT)
    ensures Written(fs[OUTPUT], AllSent(fs[OUTPUT].mapped, calls), Run(fs, calls)[OUTPUT])
    decreases |calls|
  {
    var f := fs[OUTPUT];
    if calls == [] {
      assert f.data == f.data[..f.pos] + f.data[f.pos..];
    } else {
      var c, next := calls[0], Step(fs, calls[0]);
      StepKeeps(fs, c);
      OutputStep(fs, c);
      WritesConcatenate(next, calls[1..]);
      WrittenTwice(f, Sent(f.mapped, c), next[OUTPUT], AllSent(f.mapped, calls[1..]), Run(next, calls[1..])[OUTPUT]);
    }
  }

  // ---------- last write wins ----------

  /** Bytes that were written at a position. */
  datatype Patch = Patch(at: nat, bytes: seq<char>)

  /** The byte at `o` after the patches: that of the last one to cover it. */
  function ByteAfter(ps: seq<Patch>, o: nat, before: char): char
    decreases |ps|
  {
    if ps == [] then before
    else
      var p := ps[|ps| - 1];
      if p.at <= o < p.at + |p.bytes| then p.bytes[o - p.at] else ByteAfter(ps[..|ps| - 1], o, before)
  }

  lemma {:induction false} ByteAfterConcat(ps: seq<Patch>, qs: seq<Patch>, o: nat, before: char)
    ensures ByteAfter(ps + qs, o, before) == ByteAfter(qs, o, ByteAfter(ps, o, before))
    decreases |qs|
  {
    if qs == [] {
      assert ps + qs == ps;
    } else {
      ByteAfterConcat(ps, qs[..|qs| - 1], o, before);
      assert (ps + qs)[..|ps + qs| - 1] == ps + qs[..|qs| - 1];
    }
  }

  function PutPatch(f: File, bytes: seq<char>): Patch
    requires f.Valid()
  {
    Patch(f.pos, bytes[..f.Room(|bytes|)])
  }

  /** What a call writes to channel `fd`: the bytes that fit, at the cursor. */
  function Patches(fs: Files, c: Call, fd: nat): seq<Patch>
    requires AllValid(fs) && fd < 3
  {
    match c
    case Read(_, _) => []
    case Write(to, bytes) => if to == fd && WriteCode(fs, to, |bytes|) == 0 then [PutPatch(fs[fd], bytes)] else []
    case Log(msg) => if fd == LOG then [PutPatch(fs[LOG], msg)] else []
    case Seek(_, _, _) =>
      if fd == LOG then [PutPatch(fs[LOG], "zrt_lseek"), PutPatch(fs[LOG].Put("zrt_lseek"), "() is called\n")] else []
  }

  function RunPatches(fs: Files, calls: seq<Call>, fd: nat): seq<Patch>
    requires AllValid(fs) && AllLand(fs, calls) && fd < 3
    decreases |calls|
  {
    if calls == [] then [] else StepKeeps(fs, calls[0]); Patches(fs, calls[0], fd) + RunPatches(Step(fs, calls[0]), calls[1..], fd)
  }

  lemma PutByte(f: File, bytes: seq<char>, o: nat)
    requires f.Valid() && o < |f.data|
    ensures f.Put(bytes).data[o] == ByteAfter([PutPatch(f, bytes)], o, f.data[o])
  {
    assert [PutPatch(f, bytes)][..0] == [];
  }

  lemma SeekByte(f: File, o: nat)
    requires f.Valid() && o < |f.data|
    ensures var g := f.Put("zrt_lseek");
            g.Put("() is called\n").data[o] == ByteAfter([PutPatch(f, "zrt_lseek"), PutPatch(g, "() is called\n")], o, f.data[o])
  {
    var g := f.Put("zrt_lseek");
    PutByte(f, "zrt_lseek", o);
    PutByte(g, "() is called\n", o);
    ByteAfterConcat([PutPatch(f, "zrt_lseek")], [PutPatch(g, "() is called\n")], o, f.data[o]);
  }

  lemma StepByte(fs: Files, c: Call, fd: nat, o: nat)
    requires AllValid(fs) && fd < 3 && o < |fs[fd].data|
    ensures o < |Step(fs, c)[fd].data| && Step(fs, c)[fd].data[o] == ByteAfter(Patches(fs, c, fd), o, fs[fd].data[o])
  {
    StepKeeps(fs, c);
    match c
    case Read(_, _) =>
    case Write(_, bytes) => PutByte(fs[fd], bytes, o);
    case Log(msg) => PutByte(fs[fd], msg, o);
    case Seek(_, _, _) => SeekByte(fs[fd], o);
  }

  /** After any run each byte of a channel is that of the last write to cover it, the log lines of the seeks included. */
  lemma {:induction false} LastWriteWins(fs: Files, calls: seq<Call>, fd: nat, o: nat)
    requires AllValid(fs) && AllLand(fs, calls) && fd < 3 && o < |fs[fd].data|
    ensures |Run(fs, calls)[fd].data| == |fs[fd].data|
    ensures Run(fs, calls)[fd].data[o] == ByteAfter(RunPatches(fs, calls, fd), o, fs[fd].data[o])
    decreases |calls|
  {
    if calls != [] {
      var next := Step(fs, calls[0]);
      StepKeeps(fs, calls[0]);
      StepByte(fs, calls[0], fd, o);
      LastWriteWins(next, calls[1..], fd, o);
      ByteAfterConcat(Patches(fs, calls[0], fd), RunPatches(next, calls[1..], fd), o, fs[fd].data[o]);
    }
  }

  // ---------- the runtime ----------

  /** One entry of setup.channels with its cursor in pos_ptr[]. */
  class Channel {
    const buffer: array<char>
    const fsize: int
    const mapped: bool
    var pos: nat

    constructor (buffer: array<char>, fsize: int, mapped: bool)
      ensures this.buffer == buffer && this.fsize == fsize && this.mapped == mapped && pos == 0
    {
      this.buffer, this.fsize, this.mapped, pos := buffer, fsize, mapped, 0;
    }

    ghost function View(): File
      reads this, buffer
    {
      File(buffer[..], pos, fsize, mapped)
    }

    /** The MAPPED case of zrt_read(). */
    method ReadMapped(len: nat) returns (rc: int, bytes: seq<char>)
      requires View().Valid()
      modifies this
      ensures View() == old(View()).Skip(len) && bytes == old(View()).Got(len) && rc == |bytes|
    {
      var length := len;
      if pos + length > buffer.Length {
        length := buffer.Length - pos;
      }
      bytes := buffer[pos..pos + length];
      pos := pos + length;
      rc := length;
    }

    /** The MAPPED case of zrt_write(), and log_msg2(): what fits is copied to the buffer. */
    method WriteMapped(bytes: seq<char>) returns (rc: int)
      requires View().Valid()
      modifies this, buffer
      ensures View() == old(View()).Put(bytes) && rc == old(View()).Room(|bytes|)
    {
      var length := |bytes|;
      if pos + length > buffer.Length {
        length := buffer.Length - pos;
      }
      ghost var was := buffer[..];
      forall i | 0 <= i < length {
        buffer[pos + i] := bytes[i];
      }
      assert buffer[..] == was[..pos] + bytes[..length] + was[pos + length..];
      pos := pos + length;
      rc := length;
    }
  }

  ghost predicate Separate(ch: seq<Channel>) {
    |ch| == 3 && forall i, j | 0 <= i < j < 3 :: ch[i] != ch[j] && ch[i].buffer != ch[j].buffer
  }

  ghost function Views(ch: seq<Channel>): Files
    requires |ch| == 3
    reads ch, set i | 0 <= i < 3 :: ch[i].buffer
  {
    [ch[0].View(), ch[1].View(), ch[2].View()]
  }

  /** zrt_read() on descriptors up to 2. */
  method ZrtRead(ch: seq<Channel>, fd: int, len: int) returns (rc: int, bytes: seq<char>)
    requires Separate(ch) && AllValid(Views(ch)) && fd <= 2
    modifies ch
    ensures Views(ch) == Step(old(Views(ch)), Read(fd, len))
    ensures Answer(rc, bytes, 0) == Reply(old(Views(ch)), Read(fd, len))
  {
    bytes := "";
    if fd != INPUT {
      return -EBADF, "";
    }
    if len < 0 || len > MAX_POS {
      return -EPERM, "";
    }
    if !ch[fd].mapped {
      return -EBADF, "";
    }
    rc, bytes := ch[fd].ReadMapped(len);
  }

  /** zrt_write() on descriptors up to 2. */
  method ZrtWrite(ch: seq<Channel>, fd: int, bytes: seq<char>) returns (rc: int)
    requires Separate(ch) && AllValid(Views(ch)) && fd <= 2
    modifies ch, set i | 0 <= i < 3 :: ch[i].buffer
    ensures Views(ch) == Step(old(Views(ch)), Write(fd, bytes))
    ensures Answer(rc, "", 0) == Reply(old(Views(ch)), Write(fd, bytes))
  {
    if fd < OUTPUT || fd > LOG {
      return -EBADF;
    }
    if |bytes| > MAX_POS {
      return -EPERM;
    }
    if !ch[fd].mapped {
      return -EBADF;
    }
    rc := ch[fd].WriteMapped(bytes);
  }

  /** log_msg2(); a null message is an error and leaves no trace. */
  method LogMsg2(ch: seq<Channel>, msg: Option<string>) returns (rc: int)
    requires Separate(ch) && AllValid(Views(ch))
    modifies ch[LOG], ch[LOG].buffer
    ensures msg.None? ==> Views(ch) == old(Views(ch)) && rc == ERR_CODE
    ensures msg.Some? ==> Views(ch) == Step(old(Views(ch)), Log(msg.value)) && rc == 0
  {
    if msg.None? {
      return ERR_CODE;
    }
    var n := ch[LOG].WriteMapped(msg.value);
    rc := 0;
  }

  /** SHOWID in zrt_lseek(). */
  method LogSeek(ch: seq<Channel>)
    requires Separate(ch) && AllValid(Views(ch))
    modifies ch[LOG], ch[LOG].buffer
    ensures Views(ch) == ShowId(old(Views(ch)))
  {
    ghost var fs := Views(ch);
    var rc := LogMsg2(ch, Some("zrt_lseek"));
    assert Views(ch)[LOG] == fs[LOG].Put("zrt_lseek");
    rc := LogMsg2(ch, Some("() is called\n"));
    assert Views(ch)[LOG] == fs[LOG].Put("zrt_lseek").Put("() is called\n");
  }

  /** The switch of zrt_lseek(): the position asked for, or nothing for a bad `whence` or a position out of range. */
  method SeekTarget(ch: seq<Channel>, fd: int, offset: int, whence: int) returns (p: Option<int>)
    requires Separate(ch) && 0 <= fd <= 2
    ensures p == Target(Views(ch), fd, offset, whence)
  {
    var newPos := offset;
    if whence == 1 {
      newPos := ch[fd].pos + offset;
    } else if whence == 2 {
      newPos := ch[fd].fsize + offset;
    } else if whence != 0 {
      return None;
    }
    p := if newPos < 0 || newPos > MAX_POS then None else Some(newPos);
  }

  /** zrt_lseek(); the new position is handed back where the offset was. */
  method ZrtLseek(ch: seq<Channel>, fd: int, offset: int, whence: int) returns (rc: int, newOffset: int)
    requires Separate(ch) && AllValid(Views(ch))
    modifies ch, set i | 0 <= i < 3 :: ch[i].buffer
    ensures Views(ch) == Step(old(Views(ch)), Seek(fd, offset, whence))
    ensures Answer(rc, "", newOffset) == Reply(old(Views(ch)), Seek(fd, offset, whence))
    ensures AllValid(Views(ch)) <==> Lands(old(Views(ch)), Seek(fd, offset, whence))
  {
    StepKeeps(Views(ch), Seek(fd, offset, whence));
    newOffset := offset;
    LogSeek(ch);
    if fd < INPUT || fd > LOG {
      return -EBADF, newOffset;
    }
    var p := SeekTarget(ch, fd, offset, whence);
    if p.None? {
      return -EPERM, newOffset;
    }
    ch[fd].pos := p.value;
    newOffset := p.value;
    rc := 0;
  }
}
