/** Words, white space and lines of text, as Lib/formatter.py takes them apart and puts them together. */
module Words {
  import opened Basics

  // ---------- Words ----------

  function SkipSpace(s: string): (r: string)
    ensures |r| <= |s| && (r != "" ==> !IsSpace(r[0]))
  {
    if s != "" && IsSpace(s[0]) then SkipSpace(s[1..]) else s
  }

  /** The length of the word that s starts with. */
  function WordLength(s: string): (n: nat)
    ensures n <= |s| && (s != "" && !IsSpace(s[0]) ==> n > 0)
  {
    if s == "" || IsSpace(s[0]) then 0 else 1 + WordLength(s[1..])
  }

  /** string.split: the words between runs of white space. */
  function Split(s: string): seq<string>
    decreases |s|
  {
    var t := SkipSpace(s);
    if t == "" then [] else [t[..WordLength(t)]] + Split(t[WordLength(t)..])
  }

  /** string.join with single spaces. */
  function Join(ws: seq<string>): string {
    if ws == [] then "" else if |ws| == 1 then ws[0] else ws[0] + " " + Join(ws[1..])
  }

  function Squeeze(s: string): string {
    Join(Split(s))
  }

  // ---------- Lines ----------

  /** What follows the last newline. */
  function LastLine(s: string): string {
    if s == "" then ""
    else if s[|s| - 1] == '\n' then ""
    else LastLine(s[..|s| - 1]) + [s[|s| - 1]]
  }

  /** The lines that end in a newline. */
  function FullLines(s: string): seq<string> {
    if s == "" then []
    else
      var init := s[..|s| - 1];
      FullLines(init) + if s[|s| - 1] == '\n' then [LastLine(init)] else []
  }

  // ---------- Squeezing, character by character ----------

  lemma SqueezeSpace(c: char, rest: string)
    requires IsSpace(c)
    ensures Squeeze([c] + rest) == Squeeze(rest)
  {
    assert ([c] + rest)[1..] == rest;
    assert SkipSpace([c] + rest) == SkipSpace(rest);
  }

  lemma SqueezeLetter(c: char, rest: string)
    requires !IsSpace(c)
    ensures rest == "" ==> Squeeze([c] + rest) == [c]
    ensures rest != "" && IsSpace(rest[0]) ==>
      Squeeze([c] + rest) == if Squeeze(rest) == "" then [c] else [c] + " " + Squeeze(rest)
    ensures rest != "" && !IsSpace(rest[0]) ==> Squeeze([c] + rest) == [c] + Squeeze(rest)
    ensures rest != "" && !IsSpace(rest[0]) ==> Squeeze(rest) != ""
  {
    var s := [c] + rest;
    assert s[1..] == rest && SkipSpace(s) == s;
    var n := WordLength(rest);
    assert WordLength(s) == 1 + n;
    assert s[..1 + n] == [c] + rest[..n] && s[1 + n..] == rest[n..];
    if rest == "" {
      assert Split(rest[n..]) == [];
    } else if IsSpace(rest[0]) {
      assert n == 0 && rest[n..] == rest && [c] + rest[..0] == [c];
      JoinCons([c], Split(rest));
      SplitNotEmpty(rest);
    } else {
      assert SkipSpace(rest) == rest;
      JoinFirst([c], rest[..n], Split(rest[n..]));
    }
  }

  lemma JoinCons(w: string, ws: seq<string>)
    ensures Join([w] + ws) == if ws == [] then w else w + " " + Join(ws)
  {
    assert ([w] + ws)[1..] == ws;
  }

  lemma JoinFirst(a: string, w: string, ws: seq<string>)
    requires w != ""
    ensures Join([a + w] + ws) == a + Join([w] + ws)
    ensures Join([w] + ws) != ""
  {
    JoinCons(w, ws);
    JoinCons(a + w, ws);
    assert ws != [] ==> (a + w) + " " + Join(ws) == a + (w + " " + Join(ws));
  }

  lemma SplitNotEmpty(s: string)
    ensures Split(s) == [] <==> Squeeze(s) == ""
  {
    var t := SkipSpace(s);
    if t != "" {
      JoinFirst("", t[..WordLength(t)], Split(t[WordLength(t)..]));
    }
  }

  lemma {:induction false} AllSpace(s: string)
    ensures SkipSpace(s) == "" ==> forall i :: 0 <= i < |s| ==> IsSpace(s[i])
  {
    if s != "" {
      AllSpace(s[1..]);
      assert forall i :: 1 <= i < |s| ==> s[i] == s[1..][i - 1];
    }
  }

  // ---------- Clean lines ----------

  /** No blank at the start, no two blanks in a row, no other white space. */
  predicate Clean(s: string) {
    && (s != "" ==> !IsSpace(s[0]))
    && (forall i :: 0 <= i < |s| && IsSpace(s[i]) ==> s[i] == ' ')
    && (forall i :: 0 < i < |s| && IsSpace(s[i]) ==> !IsSpace(s[i - 1]))
  }

  predicate EndsWithSpace(s: string) {
    s != "" && IsSpace(s[|s| - 1])
  }

  lemma CleanConcat(a: string, b: string)
    requires Clean(a) && Clean(b)
    ensures Clean(a + b)
    ensures b != "" ==> (EndsWithSpace(a + b) <==> EndsWithSpace(b))
  {
    var s := a + b;
    forall i | 0 <= i < |s| ensures s[i] == if i < |a| then a[i] else b[i - |a|] {
    }
  }

  lemma CleanSpace(a: string)
    requires Clean(a) && a != "" && !EndsWithSpace(a)
    ensures Clean(a + " ") && EndsWithSpace(a + " ")
  {
  }

  lemma CleanSpaced(a: string, b: string)
    requires Clean(a) && a != "" && !EndsWithSpace(a) && Clean(b)
    ensures Clean(a + (" " + b))
    ensures b != "" ==> (EndsWithSpace(a + (" " + b)) <==> EndsWithSpace(b))
  {
    CleanSpace(a);
    CleanConcat(a + " ", b);
    assert a + (" " + b) == a + " " + b;
  }

  lemma {:induction false} WordHasNoSpace(s: string)
    ensures forall i :: 0 <= i < WordLength(s) ==> !IsSpace(s[i])
  {
    if s != "" && !IsSpace(s[0]) {
      WordHasNoSpace(s[1..]);
      assert forall i :: 1 <= i <= WordLength(s[1..]) ==> s[i] == s[1..][i - 1];
    }
  }

  lemma {:induction false} SqueezeClean(s: string)
    ensures Clean(Squeeze(s)) && !EndsWithSpace(Squeeze(s))
    decreases |s|
  {
    var t := SkipSpace(s);
    if t != "" {
      WordHasNoSpace(t);
      var w, rest := t[..WordLength(t)], t[WordLength(t)..];
      assert Clean(w) && !EndsWithSpace(w);
      SqueezeClean(rest);
      SplitNotEmpty(rest);
      JoinCons(w, Split(rest));
      if Split(rest) != [] {
        CleanSpaced(w, Squeeze(rest));
        assert w + " " + Squeeze(rest) == w + (" " + Squeeze(rest));
      }
    }
  }

  /** Nothing but one blank at the start keeps s from being clean. */
  predicate BlankThenClean(s: string) {
    s != "" && s[0] == ' ' && Clean(s[1..])
  }

  /** What stands between the newlines of s. */
  function Segments(s: string): (r: seq<string>)
    ensures r != []
  {
    FullLines(s) + [LastLine(s)]
  }

  /** Text in front of data that has newlines goes to its first line. */
  lemma {:induction false} LinesAppend(pre: string, data: string)
    requires '\n' !in pre
    ensures var first := Segments(data)[0];
      && FullLines(pre + data) == (if FullLines(data) == [] then [] else [pre + first] + FullLines(data)[1..])
      && LastLine(pre + data) == if FullLines(data) == [] then pre + first else LastLine(data)
  {
    if data == "" {
      assert pre + data == pre;
      OneLine(pre);
    } else {
      var init, c := data[..|data| - 1], data[|data| - 1];
      assert data == init + [c] && pre + data == pre + init + [c];
      hide FullLines, LastLine;
      LinesAppend(pre, init);
      LinesLetter(init, c);
      LinesLetter(pre + init, c);
      AppendAssociates(pre, LastLine(init), c);
      FirstStays(FullLines(init), LastLine(init), pre);
    }
  }

  lemma LinesLetter(s: string, c: char)
    ensures FullLines(s + [c]) == FullLines(s) + if c == '\n' then [LastLine(s)] else []
    ensures LastLine(s + [c]) == if c == '\n' then "" else LastLine(s) + [c]
  {
    assert (s + [c])[..|s|] == s;
  }

  lemma FirstStays(full: seq<string>, last: string, pre: string)
    ensures full != [] ==>
      (full + [last])[0] == full[0] && [pre + full[0]] + (full + [last])[1..] == [pre + full[0]] + full[1..] + [last]
    ensures full == [] ==> full + [last] == [last] && [pre + last] + [last][1..] == [pre + last]
  {
  }

  lemma {:induction false} OneLine(s: string)
    requires '\n' !in s
    ensures FullLines(s) == [] && LastLine(s) == s
  {
    if s != "" {
      var init, c := s[..|s| - 1], s[|s| - 1];
      assert s == init + [c] && c in s;
      OneLine(init);
      hide FullLines, LastLine;
      LinesLetter(init, c);
    }
  }

  /** What may follow a clean text. */
  lemma CleanJoin(a: string, b: string)
    requires Clean(a)
    ensures Clean(a + b) <==> Clean(b) || (a != "" && !EndsWithSpace(a) && BlankThenClean(b))
  {
    if Clean(b) {
      CleanConcat(a, b);
    } else if a != "" && !EndsWithSpace(a) && BlankThenClean(b) {
      CleanSpaced(a, b[1..]);
      assert b == " " + b[1..];
    } else if Clean(a + b) {
      CleanEnd(a, b);
    }
  }

  lemma CleanEnd(a: string, b: string)
    requires Clean(a + b)
    ensures Clean(b) || (a != "" && !EndsWithSpace(a) && BlankThenClean(b))
  {
    var s, n := a + b, |a|;
    forall i | 0 <= i < |b| ensures b[i] == s[n + i] {
    }
    if b != "" && IsSpace(b[0]) {
      assert s[n] == b[0] && (n > 0 ==> s[n - 1] == a[n - 1]);
    }
  }

  lemma SegmentsAppend(pre: string, data: string)
    requires Clean(pre)
    ensures Segments(pre + data) == [pre + Segments(data)[0]] + Segments(data)[1..]
  {
    assert '\n' !in pre;
    hide Clean, FullLines, LastLine;
    LinesAppend(pre, data);
    if FullLines(data) != [] {
      assert Segments(data)[1..] == FullLines(data)[1..] + [LastLine(data)];
    }
  }

  /** The lines that literal data leaves are clean if and only if it is clean between its newlines. */
  lemma LiteralClean(pre: string, data: string)
    requires Clean(pre)
    ensures (forall l :: l in Segments(pre + data) ==> Clean(l)) <==>
      (var segments := Segments(data);
       && (Clean(segments[0]) || (pre != "" && !EndsWithSpace(pre) && BlankThenClean(segments[0])))
       && forall l :: l in segments[1..] ==> Clean(l))
  {
    SegmentsAppend(pre, data);
    CleanJoin(pre, Segments(data)[0]);
    hide Clean, BlankThenClean, EndsWithSpace, Segments;
    var first, more := pre + Segments(data)[0], Segments(data)[1..];
    assert forall l :: l in [first] + more <==> l == first || l in more;
  }

  /** The last of these lines is open after a letter if and only if the data is. */
  lemma LiteralEnd(pre: string, data: string)
    requires data != ""
    ensures !IsSpace(data[|data| - 1]) <==> LastLine(pre + data) != "" && !EndsWithSpace(LastLine(pre + data))
  {
    var init, c := data[..|data| - 1], data[|data| - 1];
    assert pre + data == pre + init + [c];
    hide LastLine;
    LastLineLetter(pre + init, c);
  }

  // ---------- Characters ----------

  /** The characters other than white space. */
  function Marks(s: string): string {
    if s == "" then "" else (if IsSpace(s[0]) then "" else [s[0]]) + Marks(s[1..])
  }

  lemma {:induction false} MarksConcat(a: string, b: string)
    ensures Marks(a + b) == Marks(a) + Marks(b)
  {
    if a == "" {
      assert a + b == b;
    } else {
      assert (a + b)[1..] == a[1..] + b;
      MarksConcat(a[1..], b);
    }
  }

  lemma {:induction false} MarksSkip(s: string)
    ensures Marks(SkipSpace(s)) == Marks(s)
  {
    if s != "" && IsSpace(s[0]) {
      MarksSkip(s[1..]);
    }
  }

  /** The first word of a text, and what follows it. */
  lemma FirstWord(t: string)
    requires t != "" && !IsSpace(t[0])
    ensures var w, rest := t[..WordLength(t)], t[WordLength(t)..];
      IsWord(w) && t == w + rest && (rest == "" || IsSpace(rest[0])) && |rest| < |t|
  {
    WordHasNoSpace(t);
    WordEnds(t);
  }

  lemma LastWord(w: string)
    requires IsWord(w)
    ensures Join([w] + []) == w && Marks("") == "" && Split(w) == [w]
  {
    JoinCons(w, []);
    EmptySplit();
    SplitOne(w, "");
    assert w + "" == w;
  }

  lemma JoinedWords(w: string, ws: seq<string>)
    requires IsWord(w) && (ws == [] <==> Join(ws) == "")
    ensures Marks(Join([w] + ws)) == Marks(w) + Marks(Join(ws))
    ensures Split(Join([w] + ws)) == [w] + Split(Join(ws))
  {
    JoinCons(w, ws);
    MarksOfNothing();
    EmptySplit();
    BlankIsSpace();
    hide Marks, Split, Join, IsSpace, IsWord;
    if ws == [] {
      LastWord(w);
      assert Marks(w) + "" == Marks(w);
    } else {
      var more := " " + Join(ws);
      assert w + " " + Join(ws) == w + more && [' '] + Join(ws) == more;
      MarksConcat(w, more);
      MarksConcat(" ", Join(ws));
      SplitOne(w, more);
      SplitSpace(' ', Join(ws));
    }
  }

  lemma BlankIsSpace()
    ensures IsSpace(' ')
  {
  }

  lemma SplitFirst(s: string)
    requires SkipSpace(s) != ""
    ensures var t := SkipSpace(s); Split(s) == [t[..WordLength(t)]] + Split(t[WordLength(t)..])
  {
  }

  /** Squeezing takes white space only, and leaves the words as they are. */
  lemma {:induction false} SqueezeKeepsWords(s: string)
    ensures Marks(Squeeze(s)) == Marks(s) && Split(Squeeze(s)) == Split(s)
    decreases |s|
  {
    var t := SkipSpace(s);
    MarksSkip(s);
    if t != "" {
      FirstWord(t);
      SplitFirst(s);
      var w, rest := t[..WordLength(t)], t[WordLength(t)..];
      hide Marks, Split, Join, IsSpace, WordLength, SkipSpace;
      SqueezeKeepsWords(rest);
      SplitNotEmpty(rest);
      JoinedWords(w, Split(rest));
      MarksConcat(w, rest);
    } else {
      EmptySplit();
    }
  }

  lemma {:induction false} WordEnds(s: string)
    ensures WordLength(s) == |s| || IsSpace(s[WordLength(s)])
  {
    if s != "" && !IsSpace(s[0]) {
      WordEnds(s[1..]);
    }
  }

  function Lines(ls: seq<string>): string {
    if ls == [] then "" else Lines(ls[..|ls| - 1]) + ls[|ls| - 1]
  }

  lemma LinesMore(ls: seq<string>, l: string)
    ensures Lines(ls + [l]) == Lines(ls) + l
  {
    assert (ls + [l])[..|ls|] == ls;
  }

  lemma MarksOfNothing()
    ensures Marks("") == "" && Marks(" ") == ""
  {
  }

  /** Cutting a text into lines takes its newlines only. */
  lemma {:induction false} LiteralMarks(done: seq<string>, text: string)
    ensures Marks(Lines(done + FullLines(text)) + LastLine(text)) == Marks(Lines(done)) + Marks(text)
  {
    hide FullLines, LastLine, Marks, Lines;
    if text == "" {
      NoLiteral(done);
    } else {
      var init, c := text[..|text| - 1], text[|text| - 1];
      assert text == init + [c];
      LinesLetter(init, c);
      LiteralMarks(done, init);
      MarksConcat(init, [c]);
      OneMoreMark(done + FullLines(init), LastLine(init), c);
      OneMoreAfter(done, FullLines(init), LastLine(init));
      NothingAfter(done, FullLines(init), "");
      MarksAssociate(Marks(Lines(done)), Marks(init), Marks([c]));
    }
  }

  lemma NoLiteral(done: seq<string>)
    ensures Marks(Lines(done + FullLines("")) + LastLine("")) == Marks(Lines(done)) + Marks("")
  {
    assert done + [] == done && Lines(done) + "" == Lines(done);
    assert Marks(Lines(done)) + "" == Marks(Lines(done));
  }

  lemma MarksAssociate(a: string, b: string, c: string)
    ensures a + b + c == a + (b + c)
  {
  }

  lemma OneMoreMark(done: seq<string>, l: string, c: char)
    ensures c == '\n' ==> Marks(Lines(done + [l]) + "") == Marks(Lines(done) + l) + Marks([c])
    ensures c != '\n' ==> Marks(Lines(done) + (l + [c])) == Marks(Lines(done) + l) + Marks([c])
  {
    var a := Lines(done);
    LinesMore(done, l);
    assert c == '\n' ==> Marks([c]) == "";
    hide Lines, Marks;
    assert a + l + "" == a + l && a + (l + [c]) == a + l + [c];
    MarksConcat(a + l, [c]);
    assert Marks(a + l) + "" == Marks(a + l);
  }

  // ---------- Adding to a text ----------

  predicate IsWord(w: string) {
    w != "" && forall i :: 0 <= i < |w| ==> !IsSpace(w[i])
  }

  lemma LastLineLetter(s: string, c: char)
    ensures LastLine(s + [c]) == if c == '\n' then "" else LastLine(s) + [c]
  {
    assert (s + [c])[..|s|] == s;
  }

  lemma AppendAssociates(s: string, p: string, c: char)
    ensures s + (p + [c]) == s + p + [c]
  {
  }

  lemma {:induction false} LastLineAppend(s: string, w: string)
    requires forall i :: 0 <= i < |w| ==> w[i] != '\n'
    ensures LastLine(s + w) == LastLine(s) + w
  {
    if w == "" {
      assert s + w == s;
    } else {
      var p, c := w[..|w| - 1], w[|w| - 1];
      hide LastLine;
      LastLineAppend(s, p);
      LastLineLetter(s + p, c);
      AppendAssociates(s, p, c);
      AppendAssociates(LastLine(s), p, c);
      assert w == p + [c];
    }
  }

  lemma LastLineNew(s: string, w: string)
    requires forall i :: 0 <= i < |w| ==> w[i] != '\n'
    ensures LastLine(s + "\n" + w) == w
  {
    LastLineLetter(s, '\n');
    hide LastLine;
    LastLineAppend(s + "\n", w);
    assert "" + w == w;
  }

  lemma {:induction false} FullLinesAppend(s: string, w: string)
    requires forall i :: 0 <= i < |w| ==> w[i] != '\n'
    ensures FullLines(s + w) == FullLines(s)
  {
    if w == "" {
      assert s + w == s;
    } else {
      var p, c := w[..|w| - 1], w[|w| - 1];
      FullLinesAppend(s, p);
      assert (s + w)[..|s + w| - 1] == s + p;
    }
  }

  lemma FullLinesNew(s: string, w: string)
    requires forall i :: 0 <= i < |w| ==> w[i] != '\n'
    ensures FullLines(s + "\n" + w) == FullLines(s) + [LastLine(s)]
  {
    assert (s + "\n")[..|s|] == s;
    hide LastLine;
    FullLinesAppend(s + "\n", w);
  }

  lemma {:induction false} SplitWords(s: string)
    ensures forall i :: 0 <= i < |Split(s)| ==> IsWord(Split(s)[i])
    decreases |s|
  {
    var t := SkipSpace(s);
    if t != "" {
      WordHasNoSpace(t);
      SplitWords(t[WordLength(t)..]);
    }
  }

  // ---------- Cutting a text ----------

  /** The cut between a and b falls inside a word. */
  predicate InWord(a: string, b: string) {
    a != "" && b != "" && !IsSpace(a[|a| - 1]) && !IsSpace(b[0])
  }

  /** The words of two pieces of text, the last of one and the first of the other made one. */
  function Merge(x: seq<string>, y: seq<string>): seq<string>
    requires x != [] && y != []
  {
    x[..|x| - 1] + [x[|x| - 1] + y[0]] + y[1..]
  }

  lemma SplitSpace(c: char, rest: string)
    requires IsSpace(c)
    ensures Split([c] + rest) == Split(rest)
  {
    assert ([c] + rest)[1..] == rest;
    assert SkipSpace([c] + rest) == SkipSpace(rest);
  }

  lemma OneMore(c: char, rest: string, n: nat)
    requires n <= |rest|
    ensures var s := [c] + rest; s[..1 + n] == [c] + rest[..n] && s[1 + n..] == rest[n..]
  {
  }

  lemma SplitLetter(c: char, rest: string)
    requires !IsSpace(c)
    ensures rest == "" || IsSpace(rest[0]) ==> Split([c] + rest) == [[c]] + Split(rest)
    ensures rest != "" && !IsSpace(rest[0]) ==>
      Split(rest) != [] && Split([c] + rest) == [[c] + Split(rest)[0]] + Split(rest)[1..]
  {
    var s, n := [c] + rest, WordLength(rest);
    assert s[1..] == rest && SkipSpace(s) == s && WordLength(s) == 1 + n;
    OneMore(c, rest, n);
    assert Split(s) == [s[..1 + n]] + Split(s[1 + n..]);
    hide IsSpace;
    if rest == "" || IsSpace(rest[0]) {
      assert n == 0 && rest[n..] == rest && [c] + rest[..0] == [c];
    } else {
      assert SkipSpace(rest) == rest;
      assert Split(rest) == [rest[..n]] + Split(rest[n..]);
    }
  }

  lemma MergeCons(w: string, x: seq<string>, y: seq<string>)
    requires x != [] && y != []
    ensures Merge([w] + x, y) == [w] + Merge(x, y)
  {
  }

  lemma MergeLetter(c: string, x: seq<string>, y: seq<string>)
    requires x != [] && y != []
    ensures Merge([c + x[0]] + x[1..], y) == [c + Merge(x, y)[0]] + Merge(x, y)[1..]
  {
    if |x| == 1 {
      assert c + x[0] + y[0] == c + (x[0] + y[0]);
    }
  }

  lemma EmptySplit()
    ensures Split("") == []
  {
  }

  /** How the words of a and b make up those of a + b. */
  ghost predicate Cut(a: string, b: string, whole: seq<string>) {
    if InWord(a, b) then Split(a) != [] && Split(b) != [] && whole == Merge(Split(a), Split(b))
    else whole == Split(a) + Split(b)
  }

  lemma CutAfterSpace(c: char, r: string, b: string)
    requires IsSpace(c) && Cut(r, b, Split(r + b))
    ensures Cut([c] + r, b, Split([c] + (r + b)))
  {
    SplitSpace(c, r);
    SplitSpace(c, r + b);
    EmptySplit();
    hide Split, Merge;
    if r == "" {
      assert r + b == b && [] + Split(b) == Split(b);
    }
  }

  lemma LetterFirst(c: string, x: seq<string>, y: seq<string>)
    requires x != []
    ensures [c + (x + y)[0]] + (x + y)[1..] == [c + x[0]] + x[1..] + y
  {
  }

  lemma InWordLonger(c: char, r: string, b: string)
    requires r != ""
    ensures InWord([c] + r, b) <==> InWord(r, b)
    ensures (r + b)[0] == r[0] && r + b != ""
  {
  }

  lemma CutAfterShortWord(c: char, r: string, b: string)
    requires !IsSpace(c) && r != "" && IsSpace(r[0]) && Cut(r, b, Split(r + b))
    ensures Cut([c] + r, b, Split([c] + (r + b)))
  {
    InWordLonger(c, r, b);
    SplitLetter(c, r);
    SplitLetter(c, r + b);
    hide Split, Merge, InWord, IsSpace;
    var x, y := Split(r), Split(b);
    if InWord(r, b) {
      MergeCons([c], x, y);
    } else {
      Nest([c], x, y);
    }
  }

  lemma Nest(w: string, x: seq<string>, y: seq<string>)
    ensures [w] + (x + y) == [w] + x + y
  {
  }

  lemma CutAfterLetter(c: char, r: string, b: string)
    requires !IsSpace(c) && r != "" && !IsSpace(r[0]) && Cut(r, b, Split(r + b))
    ensures Cut([c] + r, b, Split([c] + (r + b)))
  {
    InWordLonger(c, r, b);
    SplitLetter(c, r);
    SplitLetter(c, r + b);
    hide Split, Merge, InWord, IsSpace;
    if InWord(r, b) {
      MergeLetter([c], Split(r), Split(b));
    } else {
      LetterFirst([c], Split(r), Split(b));
    }
  }

  lemma CutAfterFirst(c: char, b: string)
    requires !IsSpace(c)
    ensures Cut([c] + "", b, Split([c] + ("" + b)))
  {
    SplitLetter(c, "");
    SplitLetter(c, b);
    EmptySplit();
    hide Split, IsSpace;
    assert "" + b == b && [[c]] + [] == [[c]] && [[c]][..0] == [];
  }

  lemma {:induction false} SplitCut(a: string, b: string)
    ensures Cut(a, b, Split(a + b))
  {
    if a == "" {
      EmptySplit();
      assert a + b == b && [] + Split(b) == Split(b);
    } else {
      var c, r := a[0], a[1..];
      assert a == [c] + r && a + b == [c] + (r + b);
      SplitCut(r, b);
      hide Split, Cut;
      if IsSpace(c) {
        CutAfterSpace(c, r, b);
      } else if r == "" {
        CutAfterFirst(c, b);
      } else if IsSpace(r[0]) {
        CutAfterShortWord(c, r, b);
      } else {
        CutAfterLetter(c, r, b);
      }
    }
  }

  lemma AllSpaceSplit(a: string)
    ensures a != "" && Split(a) == [] ==> IsSpace(a[0])
  {
  }

  lemma SplitTwo(a: string, b: string)
    requires IsWord(b) && (a == "" || IsWord(a))
    ensures Split(b) == [b]
    ensures a != "" ==> Split(a + (" " + b)) == [a, b]
  {
    assert b + "" == b && Split("") == [];
    SplitOne(b, "");
    assert (" " + b)[1..] == b && SkipSpace(" " + b) == SkipSpace(b);
    assert Split(" " + b) == [b];
    hide Split;
    if a != "" {
      SplitOne(a, " " + b);
    }
  }

  lemma SplitOne(w: string, rest: string)
    requires IsWord(w) && (rest == "" || IsSpace(rest[0]))
    ensures Split(w + rest) == [w] + Split(rest)
  {
    WordLengthOf(w, rest);
    assert SkipSpace(w + rest) == w + rest;
    assert (w + rest)[..|w|] == w && (w + rest)[|w|..] == rest;
  }

  lemma {:induction false} WordLengthOf(w: string, rest: string)
    requires (forall i :: 0 <= i < |w| ==> !IsSpace(w[i])) && (rest == "" || IsSpace(rest[0]))
    ensures WordLength(w + rest) == |w|
  {
    if w == "" {
      assert w + rest == rest;
    } else {
      assert (w + rest)[1..] == w[1..] + rest;
      WordLengthOf(w[1..], rest);
    }
  }

  // ---------- Words are kept apart ----------

  predicate Blank(s: string) {
    s != "" && forall i :: 0 <= i < |s| ==> IsSpace(s[i])
  }

  lemma {:induction false} SplitBlank(s: string)
    requires Blank(s)
    ensures Split(s) == []
  {
    SkipAll(s);
    EmptySplit();
  }

  lemma {:induction false} SkipAll(s: string)
    requires forall i :: 0 <= i < |s| ==> IsSpace(s[i])
    ensures SkipSpace(s) == ""
  {
    if s != "" {
      SkipAll(s[1..]);
    }
  }

  /** White space separates, however much of it there is. */
  lemma SplitApart(a: string, w: string, b: string)
    requires Blank(w)
    ensures Split(a + w + b) == Split(a) + Split(b)
  {
    SplitCut(a, w);
    SplitCut(a + w, b);
    SplitBlank(w);
    hide Split, Merge;
    assert !InWord(a, w) && Split(a) + [] == Split(a);
    assert (a + w)[|a + w| - 1] == w[|w| - 1];
    assert !InWord(a + w, b);
  }

  lemma SplitTrail(a: string, w: string)
    requires Blank(w)
    ensures Split(a + w) == Split(a)
  {
    SplitApart(a, w, "");
    EmptySplit();
    assert a + w + "" == a + w && Split(a) + [] == Split(a);
  }

  /** Two continuations with the same words are the same after any text. */
  lemma SameContinuation(a: string, b: string, c: string)
    requires b != "" && c != "" && IsSpace(b[0]) == IsSpace(c[0]) && Split(b) == Split(c)
    ensures Split(a + b) == Split(a + c)
  {
    SplitCut(a, b);
    SplitCut(a, c);
    hide Split, Merge;
    assert InWord(a, b) <==> InWord(a, c);
  }

  /** After white space, or at the start, any two continuations with the same words are. */
  lemma FreshContinuation(a: string, b: string)
    requires a == "" || EndsWithSpace(a)
    ensures Split(a + b) == Split(a) + Split(b)
  {
    SplitCut(a, b);
    hide Split, Merge;
  }

  function Ended(ls: seq<string>): string {
    if ls == [] then "" else Ended(ls[..|ls| - 1]) + ls[|ls| - 1] + "\n"
  }

  lemma EndedMore(ls: seq<string>, l: string)
    ensures Ended(ls + [l]) == Ended(ls) + l + "\n"
  {
    assert (ls + [l])[..|ls|] == ls;
  }

  lemma EndedIsFresh(ls: seq<string>)
    ensures Ended(ls) == "" || EndsWithSpace(Ended(ls))
  {
  }

  /** The next word would start a new one. */
  predicate Fresh(s: string) {
    s == "" || EndsWithSpace(s)
  }

  /** The same words, and the last one is open in both or in neither. */
  predicate SameWords(a: string, b: string) {
    Split(a) == Split(b) && (Fresh(a) <==> Fresh(b))
  }

  lemma SameThen(a: string, b: string, c: string)
    requires SameWords(a, b)
    ensures SameWords(a + c, b + c)
  {
    SplitCut(a, c);
    SplitCut(b, c);
    hide Split, Merge;
    assert InWord(a, c) <==> InWord(b, c);
    assert c == "" ==> a + c == a && b + c == b;
    assert c != "" ==> (a + c)[|a + c| - 1] == c[|c| - 1] == (b + c)[|b + c| - 1];
  }

  lemma BlankEnd(a: string, w: string)
    requires Blank(w)
    ensures Split(a + w) == Split(a) && EndsWithSpace(a + w)
  {
    SplitTrail(a, w);
    assert (a + w)[|a + w| - 1] == w[|w| - 1];
  }

  lemma BlankIsBlank()
    ensures Blank(" ") && Blank("\n")
  {
  }

  lemma {:induction false} EndedLines(done: seq<string>, text: string)
    ensures Ended(done + FullLines(text)) + LastLine(text) == Ended(done) + text
  {
    if text == "" {
      assert done + [] == done;
    } else {
      var init, c := text[..|text| - 1], text[|text| - 1];
      assert text == init + [c];
      hide FullLines, LastLine, Ended;
      LinesLetter(init, c);
      EndedLines(done, init);
      EndedLetter(done, FullLines(init), LastLine(init), c);
      MarksAssociate(Ended(done), init, [c]);
    }
  }

  lemma EndedLetter(done: seq<string>, full: seq<string>, l: string, c: char)
    ensures c == '\n' ==> Ended(done + (full + [l])) + "" == Ended(done + full) + l + [c]
    ensures c != '\n' ==> Ended(done + (full + [])) + (l + [c]) == Ended(done + full) + l + [c]
  {
    hide Ended;
    EndedMore(done + full, l);
    OneMoreAfter(done, full, l);
    AppendAssociates(Ended(done + full), l, c);
    NothingAfter(done, full, Ended(done + full) + l + [c]);
  }

  lemma OneMoreAfter(done: seq<string>, full: seq<string>, l: string)
    ensures done + (full + [l]) == done + full + [l]
  {
  }

  lemma NothingAfter(done: seq<string>, full: seq<string>, text: string)
    ensures done + (full + []) == done + full && text + "" == text
  {
  }

  lemma SameItself(a: string)
    ensures SameWords(a, a + "")
  {
    assert a + "" == a;
  }

  lemma FirstContinues(t: string, data: string)
    requires data != "" && !IsSpace(data[0])
    ensures Split(data) != [] && IsWord(Split(data)[0])
    ensures Split(t + data) == Split(t + Split(data)[0]) + Split(data)[1..]
  {
    FirstWord(data);
    assert SkipSpace(data) == data;
    SplitFirst(data);
    var w, rest := data[..WordLength(data)], data[WordLength(data)..];
    assert t + data == t + w + rest;
    hide Split;
    SplitCut(t + w, rest);
    assert rest != "" ==> IsSpace(rest[0]);
  }
}
