/**
 Readers of printed text: a fixed text, a comma-separated list closed by a
 fixed text, and a file of statements. The item reader is a parameter.
 */
module Readers {
  import opened Text

  /** Result of a reader: the value and what follows it. */
  datatype Read<+T> = Fail | Got(value: T, rest: string)

  /** A reader that uses up text whenever it succeeds. */
  ghost predicate Shrinks<T>(item: string -> Read<T>) {
    forall t :: item(t).Got? ==> |item(t).rest| < |t|
  }

  /** Read a fixed text. */
  function Expect(t: string, lit: string): (r: Read<()>)
    ensures r.Got? ==> |r.rest| == |t| - |lit|
  {
    if lit <= t then Got((), t[|lit|..]) else Fail
  }

  lemma ExpectFinds(lit: string, rest: string)
    ensures Expect(lit + rest, lit) == Got((), rest)
  {
    assert (lit + rest)[|lit|..] == rest;
  }

  /** The longest run of characters of a class. */
  function RunLen(t: string, p: char -> bool): (n: nat)
    ensures n <= |t| && (forall i | 0 <= i < n :: p(t[i])) && (n < |t| ==> !p(t[n]))
  {
    if t == "" || !p(t[0]) then 0 else 1 + RunLen(t[1..], p)
  }

  lemma RunLenIs(s: string, p: char -> bool, rest: string)
    requires forall i | 0 <= i < |s| :: p(s[i])
    requires rest == "" || !p(rest[0])
    ensures RunLen(s + rest, p) == |s|
    ensures (s + rest)[..|s|] == s && (s + rest)[|s|..] == rest
  {
    var n := RunLen(s + rest, p);
    assert rest != "" ==> (s + rest)[|s|] == rest[0];
    if n < |s| {
      assert false;
    } else if |s| < n {
      assert false;
    }
  }

  // ---------- lists ----------

  /** One item or more, separated by commas, and the closing text. */
  function PrintItems(ws: seq<string>, close: string): string
    requires ws != []
  {
    ws[0] + if |ws| == 1 then close else "," + PrintItems(ws[1..], close)
  }

  function ReadItems<T>(t: string, item: string -> Read<T>, close: string): (r: Read<seq<T>>)
    requires Shrinks(item)
    ensures r.Got? ==> r.value != [] && |r.rest| < |t|
    decreases |t|
  {
    var x := item(t);
    if x.Fail? then Fail
    else if "," <= x.rest then
      var r := ReadItems(x.rest[1..], item, close);
      if r.Fail? then Fail else Got([x.value] + r.value, r.rest)
    else
      var e := Expect(x.rest, close);
      if e.Fail? then Fail else Got([x.value], e.rest)
  }

  /** The printed form `w` is read as `x` exactly when `good`, before any text that may follow it in a list. */
  ghost predicate ItemReads<T(!new)>(item: string -> Read<T>, x: T, w: string, good: bool, close: string) {
    forall rest: string {:trigger item(w + rest)} | rest != "" && (rest[0] == ',' || close <= rest) ::
      Verdict(item(w + rest), x, rest, good)
  }

  /** Read back exactly, or not at all. */
  ghost predicate Verdict<T>(r: Read<T>, x: T, rest: string, good: bool) {
    if good then r == Got(x, rest) else r.Fail? || r.value != x
  }

  lemma LastReads<T>(x: T, w: string, good: bool, rest: string, item: string -> Read<T>, close: string)
    requires Shrinks(item) && close != "" && close[0] != ','
    requires Verdict(item(w + (close + rest)), x, close + rest, good)
    ensures Verdict(ReadItems(w + (close + rest), item, close), [x], rest, good)
  {
    assert (close + rest)[0] == close[0];
    ExpectFinds(close, rest);
  }

  lemma NextReads<T>(x: T, w: string, good: bool, xs: seq<T>, goods: bool, u: string, rest: string,
                     item: string -> Read<T>, close: string)
    requires Shrinks(item)
    requires Verdict(item(w + ("," + u)), x, "," + u, good)
    requires Verdict(ReadItems(u, item, close), xs, rest, goods)
    ensures Verdict(ReadItems(w + ("," + u), item, close), [x] + xs, rest, good && goods)
  {
    assert ("," + u)[1..] == u;
    var r := ReadItems(w + ("," + u), item, close);
    if r.Got? && r.value == [x] + xs {
      assert r.value[0] == x && r.value[1..] == xs;
    }
  }

  /** A printed list is read back exactly when each of its items is. */
  lemma {:induction false} ItemsReadBack<T(!new)>(xs: seq<T>, ws: seq<string>, good: seq<bool>, rest: string,
                                                  item: string -> Read<T>, close: string)
    requires Shrinks(item) && close != "" && close[0] != ','
    requires |xs| == |ws| == |good| > 0
    requires forall i | 0 <= i < |xs| :: ItemReads(item, xs[i], ws[i], good[i], close)
    ensures Verdict(ReadItems(PrintItems(ws, close) + rest, item, close), xs, rest, forall i | 0 <= i < |good| :: good[i])
  {
    if |xs| == 1 {
      assert PrintItems(ws, close) + rest == ws[0] + (close + rest);
      LastReads(xs[0], ws[0], good[0], rest, item, close);
      assert xs == [xs[0]];
    } else {
      var u := PrintItems(ws[1..], close) + rest;
      assert PrintItems(ws, close) + rest == ws[0] + ("," + u);
      ItemsReadBack(xs[1..], ws[1..], good[1..], rest, item, close);
      var goods := forall i | 0 <= i < |good[1..]| :: good[1..][i];
      NextReads(xs[0], ws[0], good[0], xs[1..], goods, u, rest, item, close);
      assert xs == [xs[0]] + xs[1..] && good == [good[0]] + good[1..];
      assert (forall i | 0 <= i < |good| :: good[i]) <==> good[0] && goods;
    }
  }

  // ---------- files ----------

  function Flatten(ws: seq<string>): string {
    if ws == [] then "" else ws[0] + Flatten(ws[1..])
  }

  /** Every character of a text replaced by a text. */
  function FlatMap(f: char -> string, s: string): string {
    if s == "" then "" else f(s[0]) + FlatMap(f, s[1..])
  }

  lemma {:induction false} FlatMapConcat(f: char -> string, a: string, b: string)
    ensures FlatMap(f, a + b) == FlatMap(f, a) + FlatMap(f, b)
  {
    if a == "" {
      assert a + b == b;
    } else {
      FlatMapConcat(f, a[1..], b);
      assert (a + b)[0] == a[0] && (a + b)[1..] == a[1..] + b;
      Reassociate(f(a[0]), FlatMap(f, a[1..]), FlatMap(f, b));
    }
  }

  lemma FlatMapNext(f: char -> string, s: string, i: nat)
    requires i < |s|
    ensures FlatMap(f, s[..i + 1]) == FlatMap(f, s[..i]) + f(s[i])
  {
    assert s[..i + 1] == s[..i] + [s[i]];
    FlatMapConcat(f, s[..i], [s[i]]);
    assert [s[i]][1..] == "";
  }

  /** Read items until the text is used up. */
  function ReadAll<T>(t: string, item: string -> Read<T>): Option<seq<T>>
    requires Shrinks(item)
    decreases |t|
  {
    if t == "" then Some([])
    else
      var x := item(t);
      if x.Fail? then None
      else
        var r := ReadAll(x.rest, item);
        if r.None? then None else Some([x.value] + r.value)
  }

  /** The printed form `w` is read as `x` exactly when `good`, whatever follows it. */
  ghost predicate AlwaysReads<T(!new)>(item: string -> Read<T>, x: T, w: string, good: bool) {
    w != "" && forall rest {:trigger item(w + rest)} :: Verdict(item(w + rest), x, rest, good)
  }

  function Map<R, T>(f: R -> T, rows: seq<R>): (r: seq<T>)
    ensures |r| == |rows|
    ensures forall i | 0 <= i < |rows| :: r[i] == f(rows[i])
  {
    if rows == [] then [] else [f(rows[0])] + Map(f, rows[1..])
  }

  lemma MapCons<R, T>(f: R -> T, x: R, xs: seq<R>)
    ensures Map(f, [x] + xs) == [f(x)] + Map(f, xs)
  {
    assert ([x] + xs)[1..] == xs;
  }

  lemma {:induction false} SeqReadsBack<T(!new)>(xs: seq<T>, ws: seq<string>, good: seq<bool>, item: string -> Read<T>)
    requires Shrinks(item) && |xs| == |ws| == |good|
    requires forall i | 0 <= i < |xs| :: AlwaysReads(item, xs[i], ws[i], good[i])
    ensures ReadAll(Flatten(ws), item) == Some(xs) <==> forall i | 0 <= i < |good| :: good[i]
  {
    if xs != [] {
      SeqReadsBack(xs[1..], ws[1..], good[1..], item);
      assert xs == [xs[0]] + xs[1..];
      assert Verdict(item(ws[0] + Flatten(ws[1..])), xs[0], Flatten(ws[1..]), good[0]);
      assert (forall i | 0 <= i < |good| :: good[i]) <==> good[0] && forall i | 0 <= i < |good[1..]| :: good[1..][i];
    }
  }

  /** A file of printed items is read back, in order, exactly when each item is. */
  lemma AllReadBack<R(!new), T(!new)>(rows: seq<R>, value: R -> T, render: R -> string, good: R -> bool,
                                      item: string -> Read<T>)
    requires Shrinks(item)
    requires forall r {:trigger render(r)} :: AlwaysReads(item, value(r), render(r), good(r))
    ensures ReadAll(Flatten(Map(render, rows)), item) == Some(Map(value, rows)) <==> forall i | 0 <= i < |rows| :: good(rows[i])
  {
    SeqReadsBack(Map(value, rows), Map(render, rows), Map(good, rows), item);
  }
}
