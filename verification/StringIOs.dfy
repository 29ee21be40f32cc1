/** The memory file of Lib/StringIO.py: a buffer and a list of pending pieces that is flattened
    only when needed, with a length kept beside them. */
module StringIOs {
  import opened Basics

  // ---------- A flat file with a cursor ----------

  datatype Flat = Flat(content: string, pos: nat)

  datatype Operation =
    | Seek(offset: int, mode: int)
    | Read(n: int)
    | ReadLine
    | Write(s: string)
    | GetValue

  function Max0(n: int): nat {
    if n > 0 then n else 0
  }

  function Min(a: nat, b: nat): nat {
    if a <= b then a else b
  }

  function Slice(s: string, a: nat, b: nat): string {
    if a <= b <= |s| then s[a..b] else ""
  }

  /** string.find for a newline from a position on; None is -1. */
  function FindNewline(s: string, a: nat): (r: int)
    ensures r == -1 || (a <= r < |s| && s[r] == '\n')
    ensures forall i :: a <= i < (if r < 0 then |s| else r) ==> s[i] != '\n'
    decreases |s| - a
  {
    if a >= |s| then -1 else if s[a] == '\n' then a else FindNewline(s, a + 1)
  }

  /** What is in a file after s is written at pos: NULs fill a gap, old bytes are overwritten. */
  function Overwrite(content: string, pos: nat, s: string): string {
    if s == "" then content
    else
      var padded := content + Nuls(Max0(pos - |content|));
      padded[..pos] + s + Slice(padded, pos + |s|, |padded|)
  }

  /** The reference semantics: the file after one operation, and what the operation returns. */
  function FlatStep(f: Flat, op: Operation): (Flat, string) {
    match op
    case Seek(offset, mode) =>
      var base := if mode == 1 then f.pos else if mode == 2 then |f.content| else 0;
      (f.(pos := Max0(offset + base)), "")
    case Read(n) =>
      var rest := if f.pos <= |f.content| then f.content[f.pos..] else "";
      var out := if n < 0 then rest else rest[..Min(n, |rest|)];
      (f.(pos := f.pos + |out|), out)
    case ReadLine =>
      var i := FindNewline(f.content, f.pos);
      var out := Slice(f.content, f.pos, if i < 0 then |f.content| else i + 1);
      (f.(pos := f.pos + |out|), out)
    case Write(s) => (Flat(Overwrite(f.content, f.pos, s), f.pos + |s|), "")
    case GetValue => (f, f.content)
  }

  /** A write that begins before the end of the file and ends after it. */
  predicate Spans(f: Flat, op: Operation) {
    op.Write? && f.pos < |f.content| < f.pos + |op.s|
  }

  // ---------- The file as the code keeps it ----------

  /** Content, cursor, and the length field, which need not be the length of the content. */
  datatype State = State(content: string, len: nat, pos: nat)

  function Step(st: State, op: Operation): (State, string) {
    match op
    case Seek(offset, mode) =>
      var base := if mode == 1 then st.pos else if mode == 2 then st.len else 0;
      (st.(pos := Max0(offset + base)), "")
    case Read(n) =>
      var newpos := if n < 0 then st.len else Min(st.pos + n, st.len);
      (st.(pos := newpos), Clip(st.content, st.pos, newpos))
    case ReadLine =>
      var i := FindNewline(st.content, st.pos);
      var newpos: nat := if i < 0 then st.len else i + 1;
      (st.(pos := newpos), Clip(st.content, st.pos, newpos))
    case Write(s) =>
      if s == "" then (st, "")
      else
        var filled := if st.pos > st.len then State(st.content + Nuls(st.pos - st.len), st.pos, st.pos) else st;
        if filled.pos < filled.len then
          (State(Clip(filled.content, 0, filled.pos) + s + Clip(filled.content, filled.pos + |s|, |filled.content|),
                 filled.len, filled.pos + |s|), "")
        else (State(filled.content + s, filled.pos + |s|, filled.pos + |s|), "")
    case GetValue => (st, st.content)
  }

  /** Python's slice, which clips its bounds. */
  function Clip(s: string, a: nat, b: nat): string {
    Slice(s, a, Min(b, |s|))
  }

  predicate Consistent(st: State) {
    st.len == |st.content|
  }

  function Abstract(st: State): Flat {
    Flat(st.content, st.pos)
  }

  /** A read that begins beyond the end of the file: there is nothing to read. */
  predicate ReadsBeyond(f: Flat, op: Operation) {
    (op.Read? || op.ReadLine?) && |f.content| < f.pos
  }

  /** From a state whose length field is right, an operation does what it does on a flat file if and
      only if it is not a read from beyond the end, and the length field stays right if and only if
      it is not a write across the end. */
  lemma StepRefines(st: State, op: Operation)
    requires Consistent(st)
    ensures var (st', out) := Step(st, op);
      && (FlatStep(Abstract(st), op) == (Abstract(st'), out) <==> !ReadsBeyond(Abstract(st), op))
      && (Consistent(st') <==> !Spans(Abstract(st), op))
  {
    if op.Write? && op.s != "" {
      var gap := Max0(st.pos - |st.content|);
      var padded := st.content + Nuls(gap);
      if st.pos < st.len {
        assert padded == st.content;
      } else {
        assert |padded| == st.pos && padded[..st.pos] == padded;
        assert gap == 0 ==> padded == st.content;
        assert padded + op.s + "" == padded + op.s;
      }
    }
    if op.Read? && st.pos <= st.len {
      var k := if op.n < 0 then st.len - st.pos else Min(op.n, st.len - st.pos);
      assert st.content[st.pos..][..k] == st.content[st.pos..st.pos + k];
      assert st.content[st.pos..] == st.content[st.pos..st.len];
    }
  }

  predicate Regular(f: Flat, op: Operation) {
    !Spans(f, op) && !ReadsBeyond(f, op)
  }

  function Run(st: State, ops: seq<Operation>): (State, seq<string>)
    decreases |ops|
  {
    if ops == [] then (st, [])
    else
      var (s1, out) := Step(st, ops[0]);
      var (s2, outs) := Run(s1, ops[1..]);
      (s2, [out] + outs)
  }

  function FlatRun(f: Flat, ops: seq<Operation>): (Flat, seq<string>)
    decreases |ops|
  {
    if ops == [] then (f, [])
    else
      var (f1, out) := FlatStep(f, ops[0]);
      var (f2, outs) := FlatRun(f1, ops[1..]);
      (f2, [out] + outs)
  }

  /** The first operation of a run. */
  lemma FirstStep(f: Flat, a: Operation, more: seq<Operation>)
    ensures var (g, x) := FlatStep(f, a);
      FlatRun(f, [a] + more) == (FlatRun(g, more).0, [x] + FlatRun(g, more).1)
  {
    hide FlatStep;
    assert ([a] + more)[1..] == more;
  }

  lemma TwoSteps(f: Flat, a: Operation, b: Operation)
    ensures var (g, x) := FlatStep(f, a);
      var (h, y) := FlatStep(g, b);
      FlatRun(f, [a, b]) == (h, [x, y])
  {
    hide FlatStep;
    var (g, x) := FlatStep(f, a);
    var (h, y) := FlatStep(g, b);
    FirstStep(f, a, [b]);
    FirstStep(g, b, []);
    NoSteps(h);
    assert [a] + [b] == [a, b] && [b] + [] == [b];
    assert [x] + [y] == [x, y] && [y] + [] == [y];
  }

  lemma NoSteps(f: Flat)
    ensures FlatRun(f, []) == (f, [])
  {
  }

  /** What the reference is: from the end, a write appends. */
  lemma AppendAtEnd(f: Flat, s: string)
    ensures FlatRun(f, [Seek(0, 2)] + [Write(s), GetValue]).1 == ["", "", f.content + s]
  {
    FirstStep(f, Seek(0, 2), [Write(s), GetValue]);
    TwoSteps(f.(pos := |f.content|), Write(s), GetValue);
    assert f.content + "" == f.content && f.content + s + "" == f.content + s;
  }

  /** A write from beyond the end leaves characters of code 0 in the gap. */
  lemma GapIsFilled(f: Flat, n: nat, s: string)
    requires s != ""
    ensures var outs := FlatRun(f, [Seek(|f.content| + n, 0)] + [Write(s), GetValue]).1;
      && |outs| == 3 && |outs[2]| == |f.content| + n + |s|
      && outs[2][..|f.content|] == f.content && outs[2][|f.content| + n..] == s
      && forall i :: |f.content| <= i < |f.content| + n ==> outs[2][i] as int == 0
  {
    FirstStep(f, Seek(|f.content| + n, 0), [Write(s), GetValue]);
    TwoSteps(f.(pos := |f.content| + n), Write(s), GetValue);
    var g, padded := f.(pos := |f.content| + n), f.content + Nuls(n);
    assert padded[..|padded|] == padded;
    assert FlatStep(g, Write(s)).0.content == padded + s;
  }

  /** What was written anywhere is read back after a seek from where the write ended. */
  lemma WriteThenRead(f: Flat, k: nat, s: string)
    requires s != ""
    ensures var g := FlatStep(f.(pos := k), Write(s)).0;
      && FlatStep(f, Seek(k, 0)).0 == f.(pos := k)
      && FlatRun(g, [Seek(0 - |s|, 1), Read(|s|)]).1 == ["", s]
  {
    var g := FlatStep(f.(pos := k), Write(s)).0;
    TwoSteps(g, Seek(0 - |s|, 1), Read(|s|));
    assert g.content[k..k + |s|] == s;
    assert g.content[k..][..|s|] == s;
  }

  /** No seek goes before the start of the file, and a read to the end from there returns all. */
  lemma SeekBefore(f: Flat, k: int, mode: int)
    requires k <= 0 && mode != 1 && mode != 2
    ensures FlatRun(f, [Seek(k, mode), Read(-1)]).1 == ["", f.content]
  {
    TwoSteps(f, Seek(k, mode), Read(-1));
    assert f.content[0..][..|f.content|] == f.content;
  }

  /** A line ends with its newline, or with the file, and the rest follows it. */
  lemma LineThenRest(f: Flat)
    requires f.pos <= |f.content|
    ensures var outs := FlatRun(f, [ReadLine, Read(-1)]).1;
      && |outs| == 2 && outs[0] + outs[1] == f.content[f.pos..]
      && (forall i :: 0 <= i < |outs[0]| - 1 ==> outs[0][i] != '\n')
      && (outs[0] == "" || outs[0][|outs[0]| - 1] != '\n' ==> outs[1] == "")
  {
    var i := FindNewline(f.content, f.pos);
    var e := if i < 0 then |f.content| else i + 1;
    LineIs(f, e);
    RestIs(f.(pos := e));
    hide FlatStep, FindNewline;
    TwoSteps(f, ReadLine, Read(-1));
    assert f.content[f.pos..e] + f.content[e..] == f.content[f.pos..];
  }

  lemma LineIs(f: Flat, e: nat)
    requires f.pos <= |f.content|
    requires e == if FindNewline(f.content, f.pos) < 0 then |f.content| else FindNewline(f.content, f.pos) + 1
    ensures f.pos <= e <= |f.content| && FlatStep(f, ReadLine) == (f.(pos := e), f.content[f.pos..e])
  {
  }

  lemma RestIs(f: Flat)
    requires f.pos <= |f.content|
    ensures FlatStep(f, Read(-1)) == (f.(pos := |f.content|), f.content[f.pos..])
  {
  }

  /** No operation of the run, on the flat file, writes across the end or reads beyond it. */
  predicate RegularRun(f: Flat, ops: seq<Operation>)
    decreases |ops|
  {
    ops == [] || (Regular(f, ops[0]) && RegularRun(FlatStep(f, ops[0]).0, ops[1..]))
  }

  /** Any such run is a run of the flat file: same results, same content, same cursor, and the length
      field is right at the end. */
  lemma {:induction false} RunRefines(st: State, ops: seq<Operation>)
    requires Consistent(st) && RegularRun(Abstract(st), ops)
    ensures var (st', outs) := Run(st, ops);
      FlatRun(Abstract(st), ops) == (Abstract(st'), outs) && Consistent(st')
    decreases |ops|
  {
    if ops != [] {
      StepRefines(st, ops[0]);
      RunRefines(Step(st, ops[0]).0, ops[1..]);
    }
  }

  /** Any other operation can be observed. After a write across the end, reading the file back from
      the start stops at the old end, short of what was written ... */
  lemma SpanningWriteIsLost(st: State, op: Operation)
    requires Consistent(st) && Spans(Abstract(st), op)
    ensures var readBack := [op, Seek(0, 0), Read(-1)];
      Run(st, readBack).1 != FlatRun(Abstract(st), readBack).1
  {
    StepRefines(st, op);
    RunThree(st, op, Seek(0, 0), Read(-1));
    var s2 := Step(Step(st, op).0, Seek(0, 0)).0;
    var f2 := FlatStep(FlatStep(Abstract(st), op).0, Seek(0, 0)).0;
    assert f2.content[0..] == f2.content;
    assert |Step(s2, Read(-1)).1| <= st.len < |FlatStep(f2, Read(-1)).1|;
  }

  /** ... and a read from beyond the end moves the cursor back to the end, so that the next write
      leaves no gap. */
  lemma ReadBeyondMovesBack(st: State, op: Operation)
    requires Consistent(st) && ReadsBeyond(Abstract(st), op)
    ensures var writeOn := [op, Write("x"), GetValue];
      Run(st, writeOn).1 != FlatRun(Abstract(st), writeOn).1
  {
    RunThree(st, op, Write("x"), GetValue);
    var s1, f1 := Step(st, op).0, FlatStep(Abstract(st), op).0;
    assert s1 == st.(pos := st.len) && f1 == Abstract(st);
    assert |Step(s1, Write("x")).0.content| == st.len + 1;
    assert |FlatStep(f1, Write("x")).0.content| == st.pos + 1;
  }

  lemma RunThree(st: State, a: Operation, b: Operation, c: Operation)
    ensures var s1, f1 := Step(st, a).0, FlatStep(Abstract(st), a).0;
      var s2, f2 := Step(s1, b).0, FlatStep(f1, b).0;
      && Run(st, [a, b, c]).1 == [Step(st, a).1, Step(s1, b).1, Step(s2, c).1]
      && FlatRun(Abstract(st), [a, b, c]).1 == [FlatStep(Abstract(st), a).1, FlatStep(f1, b).1, FlatStep(f2, c).1]
  {
    hide Step, FlatStep;
    var s1, f1 := Step(st, a).0, FlatStep(Abstract(st), a).0;
    var s2, f2 := Step(s1, b).0, FlatStep(f1, b).0;
    assert [a, b, c][1..] == [b, c] && [b, c][1..] == [c] && [c][1..] == [];
    assert Run(Step(s2, c).0, []) == (Step(s2, c).0, []);
    assert Run(s2, [c]).1 == [Step(s2, c).1] + [] == [Step(s2, c).1];
    assert Run(s1, [b, c]).1 == [Step(s1, b).1, Step(s2, c).1];
    assert FlatRun(FlatStep(f2, c).0, []) == (FlatStep(f2, c).0, []);
    assert FlatRun(f2, [c]).1 == [FlatStep(f2, c).1] + [] == [FlatStep(f2, c).1];
    assert FlatRun(f1, [b, c]).1 == [FlatStep(f1, b).1, FlatStep(f2, c).1];
  }

  // ---------- The object ----------

  function Flatten(list: seq<string>): string {
    if list == [] then "" else Flatten(list[..|list| - 1]) + list[|list| - 1]
  }

  lemma FlattenAppend(list: seq<string>, s: string)
    ensures Flatten(list + [s]) == Flatten(list) + s
  {
    assert (list + [s])[..|list|] == list;
  }

  lemma ThreePieces(a: string, b: string, c: string)
    ensures "" + Flatten([a, b, c]) == a + b + c
  {
    assert Flatten([]) == "";
    hide Flatten;
    FlattenAppend([], a);
    FlattenAppend([a], b);
    FlattenAppend([a, b], c);
    assert [] + [a] == [a] && [a] + [b] == [a, b] && [a, b] + [c] == [a, b, c];
    assert "" + a == a && "" + (a + b + c) == a + b + c;
  }

  class StringIO {
    var buf: string
    var buflist: seq<string>
    var pos: nat
    var len: nat

    ghost function View(): State
      reads this
    {
      State(buf + Flatten(buflist), len, pos)
    }

    constructor (buf: string)
      ensures View() == State(buf, |buf|, 0)
    {
      this.buf, buflist, pos, len := buf, [], 0, |buf|;
      new;
      assert buf + "" == buf;
    }

    /** What every reading operation starts with. */
    method Join()
      modifies this`buf, this`buflist
      ensures buflist == [] && View() == old(View()) && View().content == buf
    {
      if buflist != [] {
        buf := buf + Flatten(buflist);
        buflist := [];
      }
      assert buf + "" == buf;
    }

    method Seek(offset: int, mode: int := 0)
      modifies this
      ensures View() == Step(old(View()), Operation.Seek(offset, mode)).0
    {
      Join();
      var p := offset;
      if mode == 1 {
        p := p + pos;
      } else if mode == 2 {
        p := p + len;
      }
      pos := if p > 0 then p else 0;
    }

    method Read(n: int := -1) returns (r: string)
      modifies this
      ensures (View(), r) == Step(old(View()), Operation.Read(n))
    {
      Join();
      var newpos := if n < 0 then len else if pos + n <= len then pos + n else len;
      r := Clip(buf, pos, newpos);
      pos := newpos;
    }

    method ReadLine() returns (r: string)
      modifies this
      ensures (View(), r) == Step(old(View()), Operation.ReadLine)
    {
      Join();
      var i := FindNewline(buf, pos);
      var newpos := if i < 0 then len else i + 1;
      r := Clip(buf, pos, newpos);
      pos := newpos;
    }

    /** One more pending piece. */
    method Append(s: string)
      modifies this`buflist
      ensures View() == old(View()).(content := old(View()).content + s)
    {
      FlattenAppend(buflist, s);
      assert buf + (Flatten(buflist) + s) == buf + Flatten(buflist) + s;
      buflist := buflist + [s];
    }

    /** A write that begins before the end cuts the buffer in three. */
    method WriteInside(s: string)
      requires s != "" && pos < len
      modifies this
      ensures View() == Step(old(View()), Operation.Write(s)).0
    {
      hide Flatten, Nuls;
      Join();
      var newpos := pos + |s|;
      var a, b := Clip(buf, 0, pos), Clip(buf, newpos, |buf|);
      ThreePieces(a, s, b);
      hide Clip;
      buflist := [a, s, b];
      buf, pos := "", newpos;
    }

    method Write(s: string)
      modifies this
      ensures View() == Step(old(View()), Operation.Write(s)).0
    {
      if s == "" {
        return;
      }
      hide Flatten, Nuls, Clip;
      if pos > len {
        Append(Nuls(pos - len));
        len := pos;
      }
      if pos < len {
        WriteInside(s);
      } else {
        Append(s);
        len := pos + |s|;
        pos := pos + |s|;
      }
    }

    method GetValue() returns (r: string)
      modifies this
      ensures (View(), r) == Step(old(View()), Operation.GetValue)
    {
      Join();
      r := buf;
    }
  }
}
