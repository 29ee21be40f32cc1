/** The white-space handling of Lib/formatter.py: the flags of AbstractFormatter and the letter
    counters. */
module Formatters {
  import opened Basics
  import opened Words

  // ---------- The formatter ----------

  /** The flags, the flowing text of the current line, and the lines before it. */
  datatype State = State(
    nospace: bool, softspace: bool, paraEnd: bool, parskip: int, hardBreak: bool, haveLabel: bool,
    line: string, done: seq<string>)
  {
    function Broken(): State {
      this.(line := "", done := done + [line])
    }
  }

  const INITIAL := State(true, false, true, 0, true, false, "", [])

  /** `add_flowing_data`, given whether the data starts and ends with white space, and its words
      joined by single spaces. */
  function Send(st: State, prespace: bool, postspace: bool, text: string): State {
    if st.nospace && text == "" then st
    else if (prespace || st.softspace) && text == "" then st.(softspace := true, parskip := 0)
    else
      var lead := if (prespace || st.softspace) && !st.nospace then " " else "";
      State(false, postspace, false, 0, false, false, st.line + (lead + text), st.done)
  }

  function Flow(st: State, data: string): State {
    if data == "" then st else Send(st, IsSpace(data[0]), IsSpace(data[|data| - 1]), Squeeze(data))
  }

  datatype Operation =
    | FlowingData(data: string)
    | LineBreak
    | EndParagraph(blankline: int)
    | HorizontalRule
    | LabelData
    | FlushSoftspace
    | PushStyle
    | LiteralData(data: string)
    | AssertLineData(flag: bool)

  /** What each operation does to the flags and to the flowing text. */
  function Step(st: State, op: Operation): State {
    match op
    case FlowingData(data) => Flow(st, data)
    case LineBreak =>
      var b := if st.hardBreak || st.paraEnd then st else st.Broken().(haveLabel := false, parskip := 0);
      b.(hardBreak := true, nospace := true, softspace := false)
    case EndParagraph(blankline) =>
      var b := if st.hardBreak then st else st.Broken().(haveLabel := false);
      var p := if b.parskip < blankline && !b.haveLabel then b.(parskip := blankline, haveLabel := false) else b;
      p.(hardBreak := true, nospace := true, paraEnd := true, softspace := false)
    case HorizontalRule =>
      var b := if st.hardBreak then st else st.Broken();
      b.(hardBreak := true, nospace := true, haveLabel := false, paraEnd := false, softspace := false, parskip := 0)
    case LabelData =>
      var b := if st.haveLabel || !st.hardBreak then st.Broken() else st;
      b.(nospace := true, haveLabel := true, hardBreak := true, paraEnd := true, softspace := false, parskip := 0)
    case FlushSoftspace =>
      if st.softspace then
        State(true, false, false, 0, false, false, st.line + " ", st.done)
      else st
    case PushStyle =>
      if st.softspace then
        st.(hardBreak := false, paraEnd := false, softspace := false, nospace := true, line := st.line + " ")
      else st
    case LiteralData(data) =>
      if data == "" then st
      else
        var text := (if st.softspace then st.line + " " else st.line) + data;
        State(false, false, false, 0, data[|data| - 1] == '\n', false, LastLine(text), st.done + FullLines(text))
    case AssertLineData(flag) =>
      st.(nospace := !flag, hardBreak := !flag, paraEnd := false, parskip := 0, haveLabel := false)
  }

  // ---------- Feeding the data in pieces ----------

  lemma SendSpace(st: State, pre: bool, post: bool, text: string)
    ensures Send(st, true, post, text) == Send(Send(st, true, true, ""), pre, post, text)
  {
  }

  lemma SendLetter(st: State, c: string, pre: bool, post: bool, text: string)
    requires c != "" && (text == "" ==> pre && post)
    ensures Send(st, false, post, if text == "" then c else if pre then c + " " + text else c + text) ==
            Send(Send(st, false, false, c), pre, post, text)
  {
    var lead := if st.softspace && !st.nospace then " " else "";
    if text == "" {
    } else if pre {
      assert c + " " + text == c + (" " + text);
      Glue(st.line, lead, c, " " + text);
    } else {
      assert "" + text == text;
      Glue(st.line, lead, c, text);
    }
  }

  lemma Glue(a: string, b: string, c: string, d: string)
    ensures a + (b + (c + d)) == a + (b + c) + d
  {
  }

  lemma FlowFirstSpace(st: State, c: char, rest: string)
    requires rest != "" && IsSpace(c)
    ensures Flow(st, [c] + rest) == Flow(Flow(st, [c]), rest)
  {
    var data := [c] + rest;
    assert data[|data| - 1] == rest[|rest| - 1];
    assert [c] + "" == [c] && Squeeze("") == "";
    SqueezeSpace(c, rest);
    SqueezeSpace(c, "");
    hide Send, Squeeze, IsSpace;
    SendSpace(st, IsSpace(rest[0]), IsSpace(rest[|rest| - 1]), Squeeze(rest));
  }

  lemma FlowFirstLetter(st: State, c: char, rest: string)
    requires rest != "" && !IsSpace(c)
    ensures Flow(st, [c] + rest) == Flow(Flow(st, [c]), rest)
  {
    var data := [c] + rest;
    assert data[|data| - 1] == rest[|rest| - 1];
    assert [c] + "" == [c];
    SqueezeLetter(c, rest);
    SqueezeLetter(c, "");
    SplitNotEmpty(rest);
    AllSpace(rest);
    hide Send, Squeeze, IsSpace;
    SendLetter(st, [c], IsSpace(rest[0]), IsSpace(rest[|rest| - 1]), Squeeze(rest));
  }

  /** The first character can be fed on its own. */
  lemma FlowFirst(st: State, c: char, rest: string)
    requires rest != ""
    ensures Flow(st, [c] + rest) == Flow(Flow(st, [c]), rest)
  {
    hide Flow;
    if IsSpace(c) {
      FlowFirstSpace(st, c, rest);
    } else {
      FlowFirstLetter(st, c, rest);
    }
  }

  /** Feeding a then b is feeding a + b: same flags, same text, wherever the data is cut and
      whatever the formatter was doing before. */
  lemma {:induction false} FlowConcat(st: State, a: string, b: string)
    ensures Flow(Flow(st, a), b) == Flow(st, a + b)
    decreases |a|
  {
    if a == "" {
      assert a + b == b;
    } else if b == "" {
      assert a + b == a;
    } else {
      var c, rest := a[0], a[1..];
      assert a == [c] + rest && a + b == [c] + (rest + b);
      FlowFirst(st, c, rest + b);
      FlowConcat(Flow(st, [c]), rest, b);
      if rest != "" {
        FlowFirst(st, c, rest);
      } else {
        assert a == [c];
      }
    }
  }

  function FlowAll(st: State, chunks: seq<string>): State
    decreases |chunks|
  {
    if chunks == [] then st else FlowAll(Flow(st, chunks[0]), chunks[1..])
  }

  function Concat(chunks: seq<string>): string {
    if chunks == [] then "" else chunks[0] + Concat(chunks[1..])
  }

  /** Hence any way of cutting the data into any number of chunks gives the same. */
  lemma {:induction false} FlowChunks(st: State, chunks: seq<string>)
    ensures FlowAll(st, chunks) == Flow(st, Concat(chunks))
    decreases |chunks|
  {
    if chunks != [] {
      FlowChunks(Flow(st, chunks[0]), chunks[1..]);
      FlowConcat(st, chunks[0], Concat(chunks[1..]));
    }
  }

  // ---------- Clean lines ----------

  ghost predicate AllClean(st: State) {
    Clean(st.line) && forall l :: l in st.done ==> Clean(l)
  }

  /** The lines are clean, and the flags keep a blank from being sent where none may stand. */
  ghost predicate Inv(st: State) {
    && AllClean(st)
    && (st.line == "" || EndsWithSpace(st.line) ==> st.nospace && !st.softspace)
  }

  /** The current line ends after a letter, with no blank pending. */
  predicate AfterLetter(st: State) {
    st.line != "" && !EndsWithSpace(st.line) && !st.softspace
  }

  /** What a caller has to look at before the two operations that bypass the flags. Literal data must
      end after a letter and be clean between its newlines, but may begin with a blank after a letter;
      line data may only be asserted after a letter. */
  predicate Allowed(st: State, op: Operation) {
    match op
    case LiteralData(data) =>
      data == "" ||
      (var segments := Segments(data);
       && !IsSpace(data[|data| - 1])
       && (Clean(segments[0]) || (AfterLetter(st) && BlankThenClean(segments[0])))
       && forall l :: l in segments[1..] ==> Clean(l))
    case AssertLineData(flag) => flag ==> st.line != "" && !EndsWithSpace(st.line)
    case _ => true
  }

  lemma LiteralStep(st: State, data: string)
    requires Inv(st) && data != ""
    ensures Inv(Step(st, LiteralData(data))) <==> Allowed(st, LiteralData(data))
  {
    var pre := if st.softspace then st.line + " " else st.line;
    assert Clean(pre) by {
      if st.softspace { CleanSpace(st.line); }
    }
    assert AfterLetter(st) <==> pre != "" && !EndsWithSpace(pre);
    hide Clean, BlankThenClean, EndsWithSpace, FullLines, LastLine, IsSpace;
    LiteralEnd(pre, data);
    LiteralClean(pre, data);
    var next := Step(st, LiteralData(data));
    assert next.line == LastLine(pre + data) && next.done == st.done + FullLines(pre + data);
    assert forall l :: l in Segments(pre + data) <==> l in FullLines(pre + data) || l == LastLine(pre + data);
    assert AllClean(next) <==> forall l :: l in Segments(pre + data) ==> Clean(l);
  }

  lemma SendClean(st: State, pre: bool, post: bool, text: string)
    requires Inv(st) && Clean(text) && !EndsWithSpace(text) && (text == "" ==> pre)
    ensures Inv(Send(st, pre, post, text))
  {
    if text != "" {
      if (pre || st.softspace) && !st.nospace {
        CleanSpaced(st.line, text);
      } else {
        assert "" + text == text;
        CleanConcat(st.line, text);
      }
    }
  }

  lemma FlowClean(st: State, data: string)
    requires Inv(st)
    ensures Inv(Flow(st, data))
  {
    if data != "" {
      SqueezeClean(data);
      SplitNotEmpty(data);
      AllSpace(data);
      hide Squeeze, Send, Inv;
      SendClean(st, IsSpace(data[0]), IsSpace(data[|data| - 1]), Squeeze(data));
    }
  }

  /** Every operation keeps the policy exactly if it is allowed. */
  lemma StepClean(st: State, op: Operation)
    requires Inv(st)
    ensures Inv(Step(st, op)) <==> Allowed(st, op)
  {
    match op
    case FlowingData(data) =>
      FlowClean(st, data);
    case FlushSoftspace =>
      if st.softspace { CleanSpace(st.line); }
    case PushStyle =>
      if st.softspace { CleanSpace(st.line); }
    case LiteralData(data) =>
      hide Inv, Clean, Segments;
      if data != "" {
        LiteralStep(st, data);
      }
    case _ =>
      hide Clean;
  }

  function Run(st: State, ops: seq<Operation>): State
    decreases |ops|
  {
    if ops == [] then st else Run(Step(st, ops[0]), ops[1..])
  }

  predicate AllowedRun(st: State, ops: seq<Operation>)
    decreases |ops|
  {
    ops == [] || (Allowed(st, ops[0]) && AllowedRun(Step(st, ops[0]), ops[1..]))
  }

  lemma {:induction false} RunInv(st: State, ops: seq<Operation>)
    requires Inv(st)
    ensures AllowedRun(st, ops) <==> forall k :: 0 <= k <= |ops| ==> Inv(Run(st, ops[..k]))
    decreases |ops|
  {
    if ops == [] {
      assert ops[..0] == [];
    } else {
      StepClean(st, ops[0]);
      var next, rest := Step(st, ops[0]), ops[1..];
      hide Inv, Allowed, Step;
      forall k | 0 < k <= |ops| ensures Run(st, ops[..k]) == Run(next, rest[..k - 1]) {
        assert ops[..k][1..] == rest[..k - 1];
      }
      assert ops[..0] == [];
      if Inv(next) {
        RunInv(next, rest);
        if AllowedRun(next, rest) {
          forall k | 0 <= k <= |ops| ensures Inv(Run(st, ops[..k])) {
            assert k > 0 ==> Inv(Run(next, rest[..k - 1]));
          }
        } else {
          var k :| 0 <= k <= |rest| && !Inv(Run(next, rest[..k]));
          assert !Inv(Run(st, ops[..k + 1]));
        }
      } else {
        assert rest[..0] == [];
        assert !Inv(Run(st, ops[..1]));
      }
    }
  }

  /** Operations that are always allowed. */
  predicate Ordinary(op: Operation) {
    !op.LiteralData? && !op.AssertLineData?
  }

  ghost predicate AllOrdinary(ops: seq<Operation>) {
    forall op :: op in ops ==> Ordinary(op)
  }

  lemma {:induction false} OrdinaryRun(st: State, ops: seq<Operation>)
    requires AllOrdinary(ops)
    ensures AllowedRun(st, ops)
    decreases |ops|
  {
    if ops != [] {
      assert Ordinary(ops[0]) by { assert ops[0] in ops; }
      OrdinaryRun(Step(st, ops[0]), ops[1..]);
    }
  }

  /** All lines are clean, and stay so whatever ordinary operations follow. */
  ghost predicate Policy(st: State) {
    forall more :: AllOrdinary(more) ==> AllClean(Run(st, more))
  }

  /** The invariant is exactly that. */
  lemma InvIsPolicy(st: State)
    ensures Inv(st) <==> Policy(st)
  {
    if Inv(st) {
      forall more | AllOrdinary(more) ensures AllClean(Run(st, more)) {
        OrdinaryRun(st, more);
        RunInv(st, more);
        assert more[..|more|] == more;
      }
    } else if AllClean(st) {
      var op := if st.softspace then FlushSoftspace else FlowingData(" x");
      BlankIsUnclean(st);
      OneStep(st, op);
      assert AllOrdinary([op]);
    } else {
      assert Run(st, []) == st && AllOrdinary([]);
    }
  }

  lemma OneStep(st: State, op: Operation)
    ensures Run(st, [op]) == Step(st, op)
  {
    hide Step;
    assert [op][1..] == [];
  }

  /** Where the flags are wrong, a blank reaches the start of the line or another blank. */
  lemma BlankIsUnclean(st: State)
    requires st.line == "" || EndsWithSpace(st.line)
    ensures st.softspace ==> !Clean(Step(st, FlushSoftspace).line)
    ensures !st.softspace && !st.nospace ==> !Clean(Step(st, FlowingData(" x")).line)
  {
    var n := |st.line|;
    assert !Clean(st.line + " ") by {
      assert (st.line + " ")[n] == ' ';
      assert n > 0 ==> (st.line + " ")[n - 1] == st.line[n - 1];
    }
    SqueezeSpace(' ', "x");
    assert [' '] + "x" == " x" && ['x'] + "" == "x";
    SqueezeLetter('x', "");
    if !st.softspace && !st.nospace {
      var l := Step(st, FlowingData(" x")).line;
      assert l == st.line + (" " + "x");
      assert l[n] == ' ' && (n > 0 ==> l[n - 1] == st.line[n - 1]);
    }
  }

  /** The space policy on all runs: after every step all lines are clean and stay so whatever text,
      breaks, paragraphs, rules, labels and style changes follow, if and only if every step is
      allowed, as all but literal data and asserted line data always are. */
  lemma LinesAreClean(ops: seq<Operation>)
    ensures AllowedRun(INITIAL, ops) <==> forall k :: 0 <= k <= |ops| ==> Policy(Run(INITIAL, ops[..k]))
    ensures AllOrdinary(ops) ==> AllowedRun(INITIAL, ops)
  {
    RunInv(INITIAL, ops);
    hide Inv, Policy, Allowed, Step, AllowedRun;
    forall k | 0 <= k <= |ops| ensures Inv(Run(INITIAL, ops[..k])) <==> Policy(Run(INITIAL, ops[..k])) {
      InvIsPolicy(Run(INITIAL, ops[..k]));
    }
    if AllOrdinary(ops) {
      OrdinaryRun(INITIAL, ops);
    }
  }

  /** Literal data that ends a line is not allowed: a blank can follow at the start of the next one. */
  lemma LiteralDataBreaksPolicy()
    ensures !Clean(Run(INITIAL, [LiteralData("a\n"), FlowingData(" x")]).line)
  {
    var ops := [LiteralData("a\n"), FlowingData(" x")];
    assert ops[1..] == [FlowingData(" x")];
    var st := Step(INITIAL, ops[0]);
    assert st.line == "" by {
      assert INITIAL.line + "a\n" == "a\n";
    }
    OneStep(st, ops[1]);
    BlankIsUnclean(st);
  }

  /** Asserting line data where no text is has the same effect. */
  lemma AssertLineDataBreaksPolicy()
    ensures !Clean(Run(INITIAL, [AssertLineData(true), FlowingData(" x")]).line)
  {
    var ops := [AssertLineData(true), FlowingData(" x")];
    assert ops[1..] == [FlowingData(" x")];
    var st := Step(INITIAL, ops[0]);
    OneStep(st, ops[1]);
    BlankIsUnclean(st);
  }

  // ---------- Nothing is lost ----------

  /** All that the writer has received. */
  function AllText(st: State): string {
    Lines(st.done) + st.line
  }

  function TextOf(op: Operation): string {
    if op.FlowingData? || op.LiteralData? then op.data else ""
  }

  lemma FlowMarks(st: State, data: string)
    ensures Flow(st, data).done == st.done && Marks(Flow(st, data).line) == Marks(st.line) + Marks(data)
  {
    SqueezeKeepsWords(data);
    var text := Squeeze(data);
    MarksConcat(st.line, text);
    MarksConcat(st.line, " " + text);
    MarksConcat(" ", text);
    assert Marks(" ") == "" && "" + text == text && Marks(" " + text) == Marks(text);
    hide Squeeze, Marks, IsSpace;
    MarksOfNothing();
  }

  lemma BrokenMarks(st: State)
    ensures AllText(st.Broken()) == AllText(st)
  {
    LinesMore(st.done, st.line);
  }

  lemma BlankMore(st: State)
    ensures Marks(Lines(st.done) + (st.line + " ")) == Marks(AllText(st))
    ensures Marks(st.line + " ") == Marks(st.line)
  {
    var a, l := Lines(st.done), st.line;
    MarksOfNothing();
    hide Marks, Lines;
    MarksConcat(a, l);
    MarksConcat(a, l + " ");
    MarksConcat(l, " ");
    assert Marks(l) + "" == Marks(l);
  }

  lemma FlowKeepsText(st: State, data: string)
    ensures Marks(AllText(Flow(st, data))) == Marks(AllText(st)) + Marks(data)
  {
    FlowMarks(st, data);
    hide Flow, Marks, Lines;
    MarksConcat(Lines(st.done), st.line);
    MarksConcat(Lines(st.done), Flow(st, data).line);
    MarksAssociate(Marks(Lines(st.done)), Marks(st.line), Marks(data));
  }

  lemma LiteralKeepsText(st: State, data: string)
    requires data != ""
    ensures Marks(AllText(Step(st, LiteralData(data)))) == Marks(AllText(st)) + Marks(data)
  {
    var pre := if st.softspace then st.line + " " else st.line;
    BlankMore(st);
    hide Marks, Lines, FullLines, LastLine;
    LiteralMarks(st.done, pre + data);
    MarksConcat(pre, data);
    MarksConcat(Lines(st.done), st.line);
    MarksAssociate(Marks(Lines(st.done)), Marks(st.line), Marks(data));
  }

  /** No operation loses, adds or moves a character other than white space. */
  lemma StepKeepsText(st: State, op: Operation)
    ensures Marks(AllText(Step(st, op))) == Marks(AllText(st)) + Marks(TextOf(op))
  {
    MarksOfNothing();
    BrokenMarks(st);
    BlankMore(st);
    hide Marks, Lines, Flow, FullLines, LastLine;
    assert Marks(AllText(st)) + "" == Marks(AllText(st));
    match op
    case FlowingData(data) =>
      FlowKeepsText(st, data);
    case LiteralData(data) =>
      if data != "" { LiteralKeepsText(st, data); }
    case _ =>
  }

  function TextOfAll(ops: seq<Operation>): string {
    if ops == [] then "" else TextOf(ops[0]) + TextOfAll(ops[1..])
  }

  /** On any run the writer receives exactly the characters of the data, in order, but for white space. */
  lemma {:induction false} RunKeepsText(st: State, ops: seq<Operation>)
    ensures Marks(AllText(Run(st, ops))) == Marks(AllText(st)) + Marks(TextOfAll(ops))
    decreases |ops|
  {
    MarksOfNothing();
    if ops != [] {
      hide Step, Marks, AllText, TextOf;
      StepKeepsText(st, ops[0]);
      RunKeepsText(Step(st, ops[0]), ops[1..]);
      MarksConcat(TextOf(ops[0]), TextOfAll(ops[1..]));
    }
  }

  /** A break that has been noted has been sent. */
  predicate BreakSent(st: State) {
    st.hardBreak || st.paraEnd ==> st.line == ""
  }

  predicate Breaks(op: Operation) {
    op.LineBreak? || op.EndParagraph? || op.HorizontalRule? || op.LabelData?
  }

  /** That is so after every operation but one: asserting that there is no line data when there is. */
  lemma StepSendsBreak(st: State, op: Operation)
    requires BreakSent(st)
    ensures BreakSent(Step(st, op)) <==> op != AssertLineData(false) || st.line == ""
  {
    match op
    case LiteralData(data) =>
      if data != "" {
        var pre, init := if st.softspace then st.line + " " else st.line, data[..|data| - 1];
        assert pre + data == pre + init + [data[|data| - 1]];
        LastLineLetter(pre + init, data[|data| - 1]);
      }
    case FlowingData(data) =>
      if data != "" { SplitNotEmpty(data); }
    case _ =>
  }

  /** Then a break, a paragraph, a rule and a label come after the end of the line, which is broken
      once if it holds anything. */
  lemma LineIsBroken(st: State, op: Operation)
    requires BreakSent(st) && Breaks(op)
    ensures Step(st, op).line == ""
    ensures st.line != "" ==> Step(st, op).done == st.done + [st.line]
    ensures st.line == "" ==> Step(st, op).done == st.done || Step(st, op).done == st.done + [""]
    ensures st.hardBreak && !st.haveLabel ==> Step(st, op).done == st.done
  {
  }

  lemma {:induction false} RunSendsBreaks(st: State, ops: seq<Operation>)
    requires BreakSent(st) && AssertLineData(false) !in ops
    ensures BreakSent(Run(st, ops))
    decreases |ops|
  {
    if ops != [] {
      StepSendsBreak(st, ops[0]);
      hide Step, BreakSent;
      assert ops[0] in ops;
      RunSendsBreaks(Step(st, ops[0]), ops[1..]);
    }
  }

  /** On all runs without it, a break leaves no line pending. */
  lemma BreaksLeaveNoLine(ops: seq<Operation>, op: Operation)
    requires AssertLineData(false) !in ops && Breaks(op)
    ensures var st := Run(INITIAL, ops);
      Step(st, op).line == "" && (st.line != "" ==> Step(st, op).done == st.done + [st.line])
  {
    RunSendsBreaks(INITIAL, ops);
    LineIsBroken(Run(INITIAL, ops), op);
  }

  // ---------- Letter counters ----------

  /** The letter numeral of a positive counter: a, b, ..., z, aa, ab, ... */
  function Letters(base: char, counter: nat): string
    requires base == 'a' || base == 'A'
  {
    if counter == 0 then ""
    else Letters(base, (counter - 1) / 26) + [((base as int) + (counter - 1) % 26) as char]
  }

  function LettersValue(base: char, s: string): int {
    if s == "" then 0
    else 26 * LettersValue(base, s[..|s| - 1]) + (s[|s| - 1] as int - base as int + 1)
  }

  /** The numeral determines the counter, so no two counters share one. */
  lemma {:induction false} LettersRoundTrip(base: char, counter: nat)
    requires base == 'a' || base == 'A'
    ensures LettersValue(base, Letters(base, counter)) == counter
    ensures forall i :: 0 <= i < |Letters(base, counter)| ==> 0 <= Letters(base, counter)[i] as int - base as int < 26
  {
    if counter > 0 {
      var q := (counter - 1) / 26;
      LettersRoundTrip(base, q);
      assert Letters(base, counter)[..|Letters(base, counter)| - 1] == Letters(base, q);
    }
  }

  lemma LettersStep(base: char, q: nat, c: char)
    requires (base == 'a' || base == 'A') && base as int <= c as int < base as int + 26
    ensures Letters(base, 26 * q + (c as int - base as int) + 1) == Letters(base, q) + [c]
  {
    var x := c as int - base as int;
    assert (26 * q + x) / 26 == q && (26 * q + x) % 26 == x;
  }

  lemma LettersValueStep(base: char, p: string, c: char)
    ensures LettersValue(base, p + [c]) == 26 * LettersValue(base, p) + (c as int - base as int) + 1
  {
    assert (p + [c])[..|p|] == p;
  }

  /** And every word of letters is the numeral of some counter. */
  lemma {:induction false} LettersOnto(base: char, s: string)
    requires base == 'a' || base == 'A'
    requires forall i :: 0 <= i < |s| ==> base as int <= s[i] as int < base as int + 26
    ensures LettersValue(base, s) >= 0 && Letters(base, LettersValue(base, s)) == s
  {
    if s != "" {
      var p, c := s[..|s| - 1], s[|s| - 1];
      assert s == p + [c];
      hide Letters, LettersValue;
      LettersOnto(base, p);
      LettersValueStep(base, p, c);
      LettersStep(base, LettersValue(base, p), c);
    }
  }

  /** `format_letter`. */
  method FormatLetter(base: char, counter0: nat) returns (numeral: string)
    requires base == 'a' || base == 'A'
    ensures numeral == Letters(base, counter0)
  {
    var counter := counter0;
    numeral := "";
    while counter > 0
      invariant Letters(base, counter) + numeral == Letters(base, counter0)
    {
      var x := (counter - 1) % 26;
      ghost var rest := Letters(base, (counter - 1) / 26);
      assert Letters(base, counter) + numeral == rest + ([(base as int + x) as char] + numeral);
      counter := (counter - 1) / 26;
      numeral := [(base as int + x) as char] + numeral;
    }
    assert "" + numeral == numeral;
  }

  // ---------- The formatter object ----------

  class Formatter {
    var nospace: bool
    var softspace: bool
    var paraEnd: bool
    var parskip: int
    var hardBreak: bool
    var haveLabel: bool
    /** What the writer received: the text of the current line and the lines before it. */
    var line: string
    var done: seq<string>

    ghost function View(): State
      reads this
    {
      State(nospace, softspace, paraEnd, parskip, hardBreak, haveLabel, line, done)
    }

    constructor ()
      ensures View() == INITIAL
    {
      nospace, softspace, paraEnd, parskip, hardBreak, haveLabel := true, false, true, 0, true, false;
      line, done := "", [];
    }

    method SendLineBreak()
      modifies this`line, this`done
      ensures line == "" && done == old(done) + [old(line)]
    {
      done := done + [line];
      line := "";
    }

    method SendFlowingData(data: string)
      modifies this`line
      ensures line == old(line) + data
    {
      line := line + data;
    }

    method SendLiteralData(data: string)
      modifies this`line, this`done
      ensures line == LastLine(old(line) + data) && done == old(done) + FullLines(old(line) + data)
    {
      var text := line + data;
      line, done := LastLine(text), done + FullLines(text);
    }

    method AddFlowingData(data0: string)
      modifies this
      ensures View() == Step(old(View()), FlowingData(data0))
    {
      if data0 == "" {
        return;
      }
      var prespace := IsSpace(data0[0]);
      var postspace := IsSpace(data0[|data0| - 1]);
      var data := Join(Split(data0));
      if nospace && data == "" {
        return;
      } else if prespace || softspace {
        if data == "" {
          if !nospace {
            softspace := true;
            parskip := 0;
          }
          return;
        }
        if !nospace {
          data := " " + data;
        }
      }
      hardBreak, nospace, paraEnd, parskip, haveLabel := false, false, false, 0, false;
      softspace := postspace;
      assert "" + data == data;
      SendFlowingData(data);
    }

    method AddLineBreak()
      modifies this
      ensures View() == Step(old(View()), Operation.LineBreak)
    {
      if !(hardBreak || paraEnd) {
        SendLineBreak();
        haveLabel, parskip := false, 0;
      }
      hardBreak, nospace := true, true;
      softspace := false;
    }

    method EndParagraph(blankline: int)
      modifies this
      ensures View() == Step(old(View()), Operation.EndParagraph(blankline))
    {
      if !hardBreak {
        SendLineBreak();
        haveLabel := false;
      }
      if parskip < blankline && !haveLabel {
        parskip := blankline;
        haveLabel := false;
      }
      hardBreak, nospace, paraEnd := true, true, true;
      softspace := false;
    }

    method AddHorRule()
      modifies this
      ensures View() == Step(old(View()), HorizontalRule)
    {
      if !hardBreak {
        SendLineBreak();
      }
      hardBreak, nospace := true, true;
      haveLabel, paraEnd, softspace, parskip := false, false, false, 0;
    }

    method AddLabelData()
      modifies this
      ensures View() == Step(old(View()), LabelData)
    {
      if haveLabel || !hardBreak {
        SendLineBreak();
      }
      nospace, haveLabel, hardBreak, paraEnd := true, true, true, true;
      softspace, parskip := false, 0;
    }

    method AddLiteralData(data: string)
      modifies this
      ensures View() == Step(old(View()), Operation.LiteralData(data))
    {
      if data == "" {
        return;
      }
      if softspace {
        SendFlowingData(" ");
      }
      hardBreak := data[|data| - 1] == '\n';
      nospace, paraEnd, softspace, parskip, haveLabel := false, false, false, 0, false;
      SendLiteralData(data);
    }

    method FlushSoftspace()
      modifies this
      ensures View() == Step(old(View()), Operation.FlushSoftspace)
    {
      if softspace {
        hardBreak, paraEnd, parskip, haveLabel, softspace := false, false, 0, false, false;
        nospace := true;
        SendFlowingData(" ");
      }
    }

    /** The part of `push_style` and `push_font` that concerns the text. */
    method PushStyle()
      modifies this
      ensures View() == Step(old(View()), Operation.PushStyle)
    {
      if softspace {
        hardBreak, paraEnd, softspace := false, false, false;
        nospace := true;
        SendFlowingData(" ");
      }
    }

    method AssertLineData(flag: bool := true)
      modifies this
      ensures View() == Step(old(View()), Operation.AssertLineData(flag))
    {
      nospace, hardBreak := !flag, !flag;
      paraEnd, parskip, haveLabel := false, 0, false;
    }
  }

  // ---------- Words are kept apart ----------

  /** All that has been sent, with a newline after each line, and a blank if one is pending. */
  function Whole(st: State): string {
    Ended(st.done) + st.line + if st.softspace then " " else ""
  }

  /** A break starts a new line, all other operations go on. */
  function FedBy(op: Operation): string {
    if Breaks(op) then "\n" else TextOf(op)
  }

  /** Where a blank is not wanted there is none to be lost, and a break that has been noted was sent. */
  predicate Tidy(st: State) {
    (st.nospace ==> (st.line == "" || EndsWithSpace(st.line)) && !st.softspace) && BreakSent(st)
  }

  lemma BreakKeepsWords(st: State, op: Operation)
    requires Tidy(st) && Breaks(op)
    ensures SameWords(Whole(Step(st, op)), Whole(st) + "\n")
  {
    var a, w := Ended(st.done) + st.line, (if st.softspace then " " else "") + "\n";
    LineIsBroken(st, op);
    EndedMore(st.done, st.line);
    EndedIsFresh(st.done);
    hide Ended, Split;
    BlankEnd(a, w);
    BlankEnd(a, "\n");
    assert Whole(st) + "\n" == a + w;
    assert Whole(Step(st, op)) == a + "\n" || Whole(Step(st, op)) == a;
  }

  lemma BlankDataKeepsWords(st: State, data: string)
    requires Tidy(st) && data != "" && Squeeze(data) == ""
    ensures SameWords(Whole(Flow(st, data)), Whole(st) + data)
  {
    var a, soft := Ended(st.done) + st.line, if st.softspace then " " else "";
    BlankFlow(st, data);
    EndedIsFresh(st.done);
    hide Ended, Split, Squeeze, Flow, Blank;
    BlankEnd(a, soft + data);
    BlankIsBlank();
    BlankEnd(a, " ");
    assert Whole(st) + data == a + (soft + data);
  }

  lemma BlankFlow(st: State, data: string)
    requires Tidy(st) && data != "" && Squeeze(data) == ""
    ensures var a := Ended(st.done) + st.line;
      && Whole(Flow(st, data)) == (if st.nospace then a else a + " ")
      && Blank((if st.softspace then " " else "") + data)
  {
    SplitNotEmpty(data);
    AllSpace(data);
    assert SkipSpace(data) == "";
    assert Blank(data);
    hide Ended, Squeeze, Split;
    assert Ended(st.done) + st.line + "" == Ended(st.done) + st.line;
  }

  /** The words of the data go on where the line is, or start anew. */
  lemma ContinuedApart(a: string, soft: bool, anew: bool, data: string, text: string)
    requires data != "" && text != "" && Split(text) == Split(data) && (anew ==> !soft && Fresh(a))
    requires IsSpace(data[0]) || soft
    ensures Split(a + ((if anew then "" else " ") + text)) == Split(a + ((if soft then " " else "") + data))
  {
    BlankIsBlank();
    hide Split, Blank;
    if soft {
      SplitApart(a, " ", data);
      assert a + " " + data == a + (" " + data);
    } else {
      SplitCut(a, data);
      assert "" + data == data;
    }
    if anew {
      FreshContinuation(a, text);
      assert "" + text == text;
    } else {
      SplitApart(a, " ", text);
      assert a + " " + text == a + (" " + text);
    }
  }

  lemma Continued(a: string, soft: bool, anew: bool, data: string, text: string)
    requires data != "" && text == Squeeze(data) && text != "" && (anew ==> !soft && Fresh(a))
    ensures var lead := if (IsSpace(data[0]) || soft) && !anew then " " else "";
      Split(a + (lead + text)) == Split(a + ((if soft then " " else "") + data))
  {
    SqueezeKeepsWords(data);
    SqueezeClean(data);
    hide Squeeze, Split, IsSpace;
    if IsSpace(data[0]) || soft {
      ContinuedApart(a, soft, anew, data, text);
    } else {
      assert "" + text == text && "" + data == data;
      SameContinuation(a, text, data);
    }
  }

  lemma FlowEnd(a: string, lead: string, text: string, post: bool)
    requires text != "" && !EndsWithSpace(text)
    ensures Split(a + (lead + text) + (if post then " " else "")) == Split(a + (lead + text))
    ensures Fresh(a + (lead + text) + (if post then " " else "")) <==> post
  {
    var b := a + (lead + text);
    assert b != "" && b[|b| - 1] == text[|text| - 1];
    hide Split;
    if post {
      BlankEnd(b, " ");
    } else {
      assert b + "" == b;
    }
  }

  lemma TextKeepsWords(st: State, data: string)
    requires Tidy(st) && data != "" && Squeeze(data) != ""
    ensures SameWords(Whole(Flow(st, data)), Whole(st) + data)
  {
    var text, post := Squeeze(data), IsSpace(data[|data| - 1]);
    var a, soft := Ended(st.done) + st.line, if st.softspace then " " else "";
    var lead := if (IsSpace(data[0]) || st.softspace) && !st.nospace then " " else "";
    AtFresh(st, a);
    SqueezeClean(data);
    FlowWhole(st, data, a, lead, soft);
    hide Ended, Split, Squeeze, Flow, IsSpace, Clean, Whole, Fresh, Tidy;
    Continued(a, st.softspace, st.nospace, data, text);
    FlowEnd(a, lead, text, post);
    DataEnd(a, soft, data);
  }

  lemma AtFresh(st: State, a: string)
    requires Tidy(st) && a == Ended(st.done) + st.line
    ensures st.nospace ==> Fresh(a) && !st.softspace
  {
    EndedIsFresh(st.done);
    hide Ended;
  }

  lemma DataEnd(a: string, soft: string, data: string)
    requires data != ""
    ensures Fresh(a + (soft + data)) <==> IsSpace(data[|data| - 1])
  {
    var b := a + (soft + data);
    assert b != "" && b[|b| - 1] == data[|data| - 1];
  }

  lemma FlowKeepsWords(st: State, data: string)
    requires Tidy(st)
    ensures SameWords(Whole(Flow(st, data)), Whole(st) + data)
  {
    if data == "" {
      SameItself(Whole(st));
    } else if Squeeze(data) == "" {
      BlankDataKeepsWords(st, data);
    } else {
      TextKeepsWords(st, data);
    }
  }

  lemma FlowWhole(st: State, data: string, a: string, lead: string, soft: string)
    requires data != "" && Squeeze(data) != "" && a == Ended(st.done) + st.line
    requires lead == if (IsSpace(data[0]) || st.softspace) && !st.nospace then " " else ""
    requires soft == if st.softspace then " " else ""
    ensures Whole(st) + data == a + (soft + data)
    ensures Whole(Flow(st, data)) == a + (lead + Squeeze(data)) + if IsSpace(data[|data| - 1]) then " " else ""
  {
    hide Ended, Squeeze, IsSpace;
    assert Ended(st.done) + (st.line + (lead + Squeeze(data))) == a + (lead + Squeeze(data));
    assert Whole(st) + data == a + (soft + data);
  }

  lemma LiteralKeepsWords(st: State, data: string)
    requires data != ""
    ensures Whole(Step(st, LiteralData(data))) == Whole(st) + data
  {
    var pre := if st.softspace then st.line + " " else st.line;
    EndedLines(st.done, pre + data);
    hide Ended, FullLines, LastLine;
    assert Ended(st.done) + (pre + data) == Whole(st) + data;
    assert Whole(Step(st, LiteralData(data))) == Ended(st.done + FullLines(pre + data)) + LastLine(pre + data);
  }

  /** No operation runs two words together or takes one apart: the words are those that were there,
      going on with those of the data, or on a new line. */
  lemma StepKeepsWords(st: State, op: Operation)
    requires Tidy(st)
    ensures SameWords(Whole(Step(st, op)), Whole(st) + FedBy(op))
  {
    SameItself(Whole(st));
    assert Ended(st.done) + (st.line + " ") + "" == Ended(st.done) + st.line + " ";
    if Breaks(op) {
      BreakKeepsWords(st, op);
    } else {
      hide SameWords, Ended, Flow, LastLine, FullLines;
      match op
      case FlowingData(data) =>
        FlowKeepsWords(st, data);
      case LiteralData(data) =>
        if data != "" {
          LiteralKeepsWords(st, data);
          SameItself(Whole(st) + data);
          assert Whole(st) + data + "" == Whole(st) + data;
        }
      case _ =>
    }
  }

  /** That the flags are tidy fails after one operation only: asserting that there is no line data when
      there is, or when a blank is pending. */
  lemma StepIsTidy(st: State, op: Operation)
    requires Tidy(st)
    ensures Tidy(Step(st, op)) <==> op != AssertLineData(false) || (st.line == "" && !st.softspace)
  {
    StepSendsBreak(st, op);
    match op
    case FlowingData(data) =>
      if data != "" { SplitNotEmpty(data); }
      hide BreakSent, Squeeze;
    case _ =>
      hide BreakSent, LastLine, FullLines;
  }

  function Fed(ops: seq<Operation>): string {
    if ops == [] then "" else FedBy(ops[0]) + Fed(ops[1..])
  }

  /** The same on runs: the words that the writer has received, line by line, are those of all the data,
      with a newline for each break. */
  lemma {:induction false} RunKeepsWords(st: State, ops: seq<Operation>)
    requires Tidy(st) && AssertLineData(false) !in ops
    ensures SameWords(Whole(Run(st, ops)), Whole(st) + Fed(ops))
    decreases |ops|
  {
    hide Step, Tidy, Whole, FedBy, SameWords;
    if ops == [] {
      SameItself(Whole(st));
    } else {
      var op, rest, next := ops[0], ops[1..], Step(st, ops[0]);
      assert op in ops;
      StepIsTidy(st, op);
      StepKeepsWords(st, op);
      RunKeepsWords(next, rest);
      SameThen(Whole(next), Whole(st) + FedBy(op), Fed(rest));
      assert Whole(st) + FedBy(op) + Fed(rest) == Whole(st) + (FedBy(op) + Fed(rest));
      SameTransitive(Whole(Run(next, rest)), Whole(next) + Fed(rest), Whole(st) + FedBy(op) + Fed(rest));
    }
  }

  lemma SameTransitive(a: string, b: string, c: string)
    requires SameWords(a, b) && SameWords(b, c)
    ensures SameWords(a, c)
  {
  }

  lemma WordsAreKept(ops: seq<Operation>)
    requires AssertLineData(false) !in ops
    ensures Split(Whole(Run(INITIAL, ops))) == Split(Fed(ops))
  {
    RunKeepsWords(INITIAL, ops);
    assert Whole(INITIAL) == "" && "" + Fed(ops) == Fed(ops);
    hide Split, Run;
  }
}
