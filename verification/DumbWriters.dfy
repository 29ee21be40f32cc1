/** The line filling of DumbWriter in Lib/formatter.py. */
module DumbWriters {
  import opened Basics
  import opened Words

  // ---------- DumbWriter ----------

  datatype Page = Page(text: string, col: nat, atbreak: bool)

  /** One word of `DumbWriter.send_flowing_data`. */
  function PutWord(p: Page, word: string, maxcol: int): Page {
    if !p.atbreak then Page(p.text + word, p.col + |word|, true)
    else if p.col + |word| >= maxcol then Page(p.text + "\n" + word, |word|, true)
    else Page(p.text + " " + word, p.col + 1 + |word|, true)
  }

  function PutWords(p: Page, words: seq<string>, maxcol: int): Page
    decreases |words|
  {
    if words == [] then p else PutWords(PutWord(p, words[0], maxcol), words[1..], maxcol)
  }

  /** `DumbWriter.send_flowing_data`. */
  function Fill(p: Page, data: string, maxcol: int): Page {
    if data == "" then p
    else
      var q := PutWords(p.(atbreak := p.atbreak || IsSpace(data[0])), Split(data), maxcol);
      q.(atbreak := IsSpace(data[|data| - 1]))
  }

  /** The column counter is the length of the last line written. */
  predicate Aligned(p: Page) {
    p.col == |LastLine(p.text)|
  }

  /** A line fits, or is one word: what filling promises when it may break before every word. */
  predicate Fits(line: string, maxcol: int) {
    |line| <= maxcol || forall i :: 0 <= i < |line| ==> !IsSpace(line[i])
  }

  /** Earlier lines stay, and the lines that are completed fit, but for the line that was there. */
  ghost predicate LinesFit(p: Page, q: Page, maxcol: int) {
    var before, after := FullLines(p.text), FullLines(q.text);
    && before <= after
    && forall k :: |before| <= k < |after| ==>
         Fits(after[k], maxcol) || (k == |before| && after[k] == LastLine(p.text))
  }

  lemma PutWordKeeps(p: Page, w: string, maxcol: int)
    requires Aligned(p) && IsWord(w)
    ensures var q := PutWord(p, w, maxcol);
      && Aligned(q)
      && (p.atbreak || p.col == 0 ==> Fits(LastLine(q.text), maxcol))
      && (FullLines(q.text) == FullLines(p.text) || FullLines(q.text) == FullLines(p.text) + [LastLine(p.text)])
  {
    if p.atbreak && p.col + |w| < maxcol {
      LastLineAppend(p.text, " " + w);
      FullLinesAppend(p.text, " " + w);
      assert p.text + " " + w == p.text + (" " + w);
    } else {
      LastLineAppend(p.text, w);
      FullLinesAppend(p.text, w);
      LastLineNew(p.text, w);
      FullLinesNew(p.text, w);
    }
  }

  lemma {:induction false} PutWordsKeep(p: Page, words: seq<string>, maxcol: int)
    requires Aligned(p) && forall i :: 0 <= i < |words| ==> IsWord(words[i])
    ensures var q := PutWords(p, words, maxcol);
      && Aligned(q)
      && (p.atbreak || p.col == 0 ==> LinesFit(p, q, maxcol) && (words != [] ==> Fits(LastLine(q.text), maxcol)))
    decreases |words|
  {
    if words != [] {
      hide PutWord, Fits, Aligned, LastLine, FullLines;
      PutWordKeeps(p, words[0], maxcol);
      PutWordsKeep(PutWord(p, words[0], maxcol), words[1..], maxcol);
      PutWordBreaks(p, words[0], maxcol);
    }
  }

  lemma PutWordBreaks(p: Page, w: string, maxcol: int)
    ensures PutWord(p, w, maxcol).atbreak
  {
  }

  /** Filling keeps the column right. Text that does not continue a word leaves the earlier lines as
      they are, and every line that it completes, as well as the one that it leaves open, fits the
      margin or is a single long word; only the line that was open before may be too long already. */
  lemma FillFits(p: Page, data: string, maxcol: int)
    requires Aligned(p)
    ensures var q := Fill(p, data, maxcol);
      && Aligned(q)
      && (data == "" || p.atbreak || p.col == 0 || IsSpace(data[0]) ==>
            LinesFit(p, q, maxcol) && (Squeeze(data) != "" ==> Fits(LastLine(q.text), maxcol)))
  {
    if data != "" {
      SplitWords(data);
      hide PutWords, Fits, LastLine, FullLines, Split;
      PutWordsKeep(p.(atbreak := p.atbreak || IsSpace(data[0])), Split(data), maxcol);
    }
  }

  /** Line k of a text, the last line included. */
  function LineOf(text: string, k: nat): string {
    if k < |FullLines(text)| then FullLines(text)[k] else LastLine(text)
  }

  /** A line that is completed between two texts would not have had room for the word that the next one
      starts with. */
  ghost predicate LinesFull(before: string, after: string, maxcol: int) {
    && FullLines(before) <= FullLines(after)
    && forall k :: |FullLines(before)| <= k < |FullLines(after)| ==>
         |FullLines(after)[k]| + WordLength(LineOf(after, k + 1)) >= maxcol
  }

  /** A line starts with a word that ends there or before white space. */
  ghost predicate StartsWithWord(line: string, w: string) {
    IsWord(w) && |w| <= |line| && line[..|w|] == w && (|w| < |line| ==> IsSpace(line[|w|]))
  }

  lemma StartLength(line: string, w: string)
    requires StartsWithWord(line, w)
    ensures WordLength(line) == |w|
  {
    assert line == w + line[|w|..];
    WordLengthOf(w, line[|w|..]);
  }

  /** What one word does to a page that may break before it. */
  lemma PutWordLines(p: Page, w: string, maxcol: int)
    requires Aligned(p) && IsWord(w)
    ensures var q := PutWord(p, w, maxcol);
      && Aligned(q) && q.atbreak
      && if FullLines(q.text) == FullLines(p.text) then p.atbreak ==> LastLine(q.text) == LastLine(p.text) + (" " + w)
         else FullLines(q.text) == FullLines(p.text) + [LastLine(p.text)] && LastLine(q.text) == w &&
              |LastLine(p.text)| + |w| >= maxcol
  {
    if p.atbreak && p.col + |w| < maxcol {
      LastLineAppend(p.text, " " + w);
      FullLinesAppend(p.text, " " + w);
      assert p.text + " " + w == p.text + (" " + w);
    } else {
      LastLineAppend(p.text, w);
      FullLinesAppend(p.text, w);
      LastLineNew(p.text, w);
      FullLinesNew(p.text, w);
    }
  }

  lemma WordStays(line: string, w: string, x: string)
    requires StartsWithWord(line, w)
    ensures StartsWithWord(line + (" " + x), w)
  {
    var l := line + (" " + x);
    assert l[..|w|] == line[..|w|] && l[|line|] == ' ';
    assert |w| < |line| ==> l[|w|] == line[|w|];
  }

  /** The word that the last line starts with stays there while words are added. */
  lemma {:induction false} StartStays(p: Page, words: seq<string>, maxcol: int, w: string)
    requires Aligned(p) && p.atbreak && StartsWithWord(LastLine(p.text), w)
    requires forall i :: 0 <= i < |words| ==> IsWord(words[i])
    ensures var q := PutWords(p, words, maxcol);
      FullLines(p.text) <= FullLines(q.text) && StartsWithWord(LineOf(q.text, |FullLines(p.text)|), w)
    decreases |words|
  {
    if words != [] {
      var x, rest, p1 := words[0], words[1..], PutWord(p, words[0], maxcol);
      PutWordLines(p, x, maxcol);
      hide PutWord, FullLines, LastLine, Aligned, StartsWithWord;
      if FullLines(p1.text) == FullLines(p.text) {
        WordStays(LastLine(p.text), w, x);
        StartStays(p1, rest, maxcol, w);
      } else {
        WholeWord(x);
        StartStays(p1, rest, maxcol, x);
      }
    }
  }

  lemma WholeWord(w: string)
    requires IsWord(w)
    ensures StartsWithWord(w, w)
  {
    assert w[..|w|] == w;
  }

  lemma OneMoreLine(a: string, b: string, c: string, maxcol: int)
    requires LinesFull(b, c, maxcol) && FullLines(b) == FullLines(a) + [LastLine(a)]
    requires |LastLine(a)| + WordLength(LineOf(c, |FullLines(b)|)) >= maxcol
    ensures LinesFull(a, c, maxcol)
  {
    hide WordLength, FullLines, LastLine, LineOf;
    var f, g, n := FullLines(a), FullLines(c), |FullLines(a)|;
    OneMorePrefix(f, LastLine(a), g);
    forall k | n <= k < |g| ensures |g[k]| + WordLength(LineOf(c, k + 1)) >= maxcol {
      assert k > n ==> |f + [LastLine(a)]| <= k;
    }
  }

  lemma OneMorePrefix(f: seq<string>, l: string, g: seq<string>)
    requires f + [l] <= g
    ensures f <= g && |f| < |g| && g[|f|] == l
  {
    assert (f + [l])[|f|] == l;
  }

  lemma {:induction false} PutWordsFull(p: Page, words: seq<string>, maxcol: int)
    requires Aligned(p) && forall i :: 0 <= i < |words| ==> IsWord(words[i])
    ensures LinesFull(p.text, PutWords(p, words, maxcol).text, maxcol)
    decreases |words|
  {
    if words != [] {
      var w, rest, p1 := words[0], words[1..], PutWord(p, words[0], maxcol);
      PutWordLines(p, w, maxcol);
      WholeWord(w);
      hide PutWord, FullLines, LastLine, Aligned, StartsWithWord;
      PutWordsFull(p1, rest, maxcol);
      if FullLines(p1.text) != FullLines(p.text) {
        StartStays(p1, rest, maxcol, w);
        var q := PutWords(p1, rest, maxcol);
        StartLength(LineOf(q.text, |FullLines(p1.text)|), w);
        OneMoreLine(p.text, p1.text, q.text, maxcol);
      }
    }
  }

  /** Filling breaks a line only where the next word would not have fitted. */
  lemma FillIsGreedy(p: Page, data: string, maxcol: int)
    requires Aligned(p)
    ensures LinesFull(p.text, Fill(p, data, maxcol).text, maxcol)
  {
    if data != "" {
      SplitWords(data);
      hide PutWords, LastLine, FullLines, Split, WordLength;
      PutWordsFull(p.(atbreak := p.atbreak || IsSpace(data[0])), Split(data), maxcol);
    }
  }

  class DumbWriter {
    var text: string
    var col: nat
    var atbreak: bool
    const maxcol: int

    ghost function View(): Page
      reads this
    {
      Page(text, col, atbreak)
    }

    constructor (maxcol: int := 72)
      ensures View() == Page("", 0, false) && this.maxcol == maxcol
    {
      text, col, atbreak := "", 0, false;
      this.maxcol := maxcol;
    }

    method SendFlowingData(data: string)
      requires Aligned(View())
      modifies this
      ensures View() == Fill(old(View()), data, maxcol) && Aligned(View())
    {
      FillFits(View(), data, maxcol);
      if data == "" {
        return;
      }
      var words := Split(data);
      var atbreak' := atbreak || IsSpace(data[0]);
      ghost var all := PutWords(Page(text, col, atbreak'), words, maxcol);
      for i := 0 to |words|
        invariant PutWords(Page(text, col, atbreak'), words[i..], maxcol) == all
      {
        assert words[i..][1..] == words[i + 1..];
        if atbreak' {
          if col + |words[i]| >= maxcol {
            text := text + "\n";
            col := 0;
          } else {
            text := text + " ";
            col := col + 1;
          }
        }
        text := text + words[i];
        col := col + |words[i]|;
        atbreak' := true;
      }
      atbreak := IsSpace(data[|data| - 1]);
    }
  }

  // ---------- Cutting the data for DumbWriter ----------

  lemma {:induction false} PutWordsConcat(p: Page, x: seq<string>, y: seq<string>, maxcol: int)
    ensures PutWords(p, x + y, maxcol) == PutWords(PutWords(p, x, maxcol), y, maxcol)
    decreases |x|
  {
    if x == [] {
      assert x + y == y;
    } else {
      assert (x + y)[1..] == x[1..] + y;
      PutWordsConcat(PutWord(p, x[0], maxcol), x[1..], y, maxcol);
    }
  }

  /** Filling only ever adds text, and leaves the writer where it may break. */
  lemma {:induction false} PutWordsAdds(p: Page, ws: seq<string>, maxcol: int)
    ensures p.text <= PutWords(p, ws, maxcol).text
    ensures ws != [] || p.atbreak ==> PutWords(p, ws, maxcol).atbreak
    decreases |ws|
  {
    if ws != [] {
      PutWordsAdds(PutWord(p, ws[0], maxcol), ws[1..], maxcol);
    }
  }

  /** The page just before the last word of a. */
  function BeforeLast(p: Page, a: string, maxcol: int): Page
    requires a != "" && Split(a) != []
  {
    PutWords(p.(atbreak := p.atbreak || IsSpace(a[0])), Split(a)[..|Split(a)| - 1], maxcol)
  }

  /** The word that is cut goes on a new line as a whole, but not when only its first part is seen. */
  predicate Moved(p: Page, a: string, b: string, maxcol: int) {
    InWord(a, b) && Split(a) != [] && Split(b) != [] &&
    var q, w1, w2 := BeforeLast(p, a, maxcol), Split(a)[|Split(a)| - 1], Split(b)[0];
    q.atbreak && q.col + |w1| < maxcol <= q.col + |w1| + |w2|
  }

  /** One word sent in two parts. */
  lemma CutWord(q: Page, w1: string, w2: string, maxcol: int)
    ensures var whole := PutWord(q, w1 + w2, maxcol);
      var parts := PutWord(PutWord(q, w1, maxcol).(atbreak := false), w2, maxcol);
      if q.atbreak && q.col + |w1| < maxcol <= q.col + |w1| + |w2|
      then q.text + "\n" <= whole.text && q.text + " " <= parts.text
      else whole == parts
  {
    assert q.text + w1 + w2 == q.text + (w1 + w2);
    assert q.text + "\n" + w1 + w2 == q.text + "\n" + (w1 + w2);
    assert q.text + " " + w1 + w2 == q.text + " " + (w1 + w2);
  }

  lemma PrefixesDiffer(t: string, x: string, y: string)
    requires t + "\n" <= x && t + " " <= y
    ensures x != y
  {
    assert x[|t|] == '\n' && y[|t|] == ' ';
  }

  lemma OneWord(p: Page, w: string, ws: seq<string>, maxcol: int)
    ensures PutWords(p, [w] + ws, maxcol) == PutWords(PutWord(p, w, maxcol), ws, maxcol)
    ensures PutWords(p, [w], maxcol) == PutWord(p, w, maxcol)
  {
    hide PutWord;
    assert ([w] + ws)[1..] == ws && [w][1..] == [];
  }

  /** What is written of a, up to a cut inside its last word. */
  lemma FillsBefore(p: Page, a: string, maxcol: int)
    requires a != "" && !IsSpace(a[|a| - 1]) && Split(a) != []
    ensures Fill(p, a, maxcol)
      == PutWord(BeforeLast(p, a, maxcol), Split(a)[|Split(a)| - 1], maxcol).(atbreak := false)
  {
    hide Split;
    var x := Split(a);
    var n := |x| - 1;
    assert x == x[..n] + [x[n]];
    PutWordsConcat(p.(atbreak := p.atbreak || IsSpace(a[0])), x[..n], [x[n]], maxcol);
    hide PutWords;
    OneWord(BeforeLast(p, a, maxcol), x[n], [], maxcol);
  }

  lemma FillsAfter(p: Page, b: string, maxcol: int)
    requires !p.atbreak && b != "" && !IsSpace(b[0]) && Split(b) != []
    ensures Fill(p, b, maxcol)
      == PutWords(PutWord(p, Split(b)[0], maxcol), Split(b)[1..], maxcol).(atbreak := IsSpace(b[|b| - 1]))
  {
    hide Split;
    assert p.(atbreak := false) == p;
  }

  lemma FillsAcross(p: Page, a: string, b: string, maxcol: int)
    requires InWord(a, b) && Split(a) != [] && Split(b) != []
    ensures Fill(p, a + b, maxcol)
      == PutWords(PutWord(BeforeLast(p, a, maxcol), Split(a)[|Split(a)| - 1] + Split(b)[0], maxcol),
                  Split(b)[1..], maxcol)
         .(atbreak := IsSpace(b[|b| - 1]))
  {
    SplitCut(a, b);
    hide Split;
    var x, y := Split(a), Split(b);
    var n := |x| - 1;
    assert (a + b)[0] == a[0] && (a + b)[|a + b| - 1] == b[|b| - 1];
    assert Merge(x, y) == x[..n] + ([x[n] + y[0]] + y[1..]);
    PutWordsConcat(p.(atbreak := p.atbreak || IsSpace(a[0])), x[..n], [x[n] + y[0]] + y[1..], maxcol);
    hide PutWords;
    OneWord(BeforeLast(p, a, maxcol), x[n] + y[0], y[1..], maxcol);
  }

  lemma CutInWord(p: Page, a: string, b: string, maxcol: int)
    requires InWord(a, b)
    ensures Fill(Fill(p, a, maxcol), b, maxcol) == Fill(p, a + b, maxcol) <==> !Moved(p, a, b, maxcol)
  {
    SplitCut(a, b);
    hide Split, Fill, PutWords, PutWord, BeforeLast;
    var x, y := Split(a), Split(b);
    var q, w1, w2 := BeforeLast(p, a, maxcol), x[|x| - 1], y[0];
    var mid := PutWord(q, w1, maxcol).(atbreak := false);
    var whole, parts := PutWord(q, w1 + w2, maxcol), PutWord(mid, w2, maxcol);
    FillsBefore(p, a, maxcol);
    FillsAfter(mid, b, maxcol);
    FillsAcross(p, a, b, maxcol);
    CutWord(q, w1, w2, maxcol);
    if Moved(p, a, b, maxcol) {
      PutWordsAdds(whole, y[1..], maxcol);
      PutWordsAdds(parts, y[1..], maxcol);
      PrefixesDiffer(q.text, PutWords(whole, y[1..], maxcol).text, PutWords(parts, y[1..], maxcol).text);
    }
  }

  lemma CutElsewhere(p: Page, a: string, b: string, maxcol: int)
    requires a != "" && b != "" && !InWord(a, b)
    ensures Fill(Fill(p, a, maxcol), b, maxcol) == Fill(p, a + b, maxcol)
  {
    SplitCut(a, b);
    AllSpaceSplit(a);
    var start := p.(atbreak := p.atbreak || IsSpace(a[0]));
    hide Split;
    PutWordsConcat(start, Split(a), Split(b), maxcol);
    PutWordsAdds(start, Split(a), maxcol);
    assert (a + b)[0] == a[0] && (a + b)[|a + b| - 1] == b[|b| - 1];
  }

  /** Cutting the data is harmless exactly if the cut does not move a word: a word that continues
      the previous one is never moved to a new line. */
  lemma CutIsHarmless(p: Page, a: string, b: string, maxcol: int)
    ensures Fill(Fill(p, a, maxcol), b, maxcol) == Fill(p, a + b, maxcol) <==> !Moved(p, a, b, maxcol)
  {
    if a == "" {
      assert a + b == b;
    } else if b == "" {
      assert a + b == a;
    } else if InWord(a, b) {
      CutInWord(p, a, b, maxcol);
    } else {
      CutElsewhere(p, a, b, maxcol);
    }
  }

  /** "ab cdef" breaks before "cdef" at column 6, but "ab cd" and "ef" do not. */
  lemma FillingDependsOnTheCut()
    ensures Fill(Page("", 0, false), "ab cdef", 6).text == "ab\ncdef"
    ensures Fill(Fill(Page("", 0, false), "ab cd", 6), "ef", 6).text == "ab cdef"
  {
    FirstExample();
    SecondExample();
    hide Split;
    var p := Page("", 0, false);
    assert PutWord(p, "ab", 6) == Page("ab", 2, true) by { assert "" + "ab" == "ab"; }
    TwoWords(p, "ab", "cdef");
    TwoWords(p, "ab", "cd");
    TwoWords(Page("ab cd", 5, false), "ef", "");
    assert "ab" + "\n" + "cdef" == "ab\ncdef" && "ab" + " " + "cd" == "ab cd" && "ab cd" + "ef" == "ab cdef";
  }

  lemma TwoWords(p: Page, a: string, b: string)
    ensures PutWords(p, [a], 6) == PutWord(p, a, 6)
    ensures PutWords(p, [a, b], 6) == PutWord(PutWord(p, a, 6), b, 6)
  {
    hide PutWord;
    assert [a, b][1..] == [b] && [b][1..] == [] && [a][1..] == [];
    assert PutWords(PutWord(p, a, 6), [b], 6) == PutWords(PutWord(PutWord(p, a, 6), b, 6), [], 6);
  }

  lemma FirstExample()
    ensures Split("ab cdef") == ["ab", "cdef"]
  {
    assert IsWord("ab") && IsWord("cdef");
    SplitTwo("ab", "cdef");
    hide Split;
    assert "ab" + (" " + "cdef") == "ab cdef";
  }

  lemma SecondExample()
    ensures Split("ab cd") == ["ab", "cd"] && Split("ef") == ["ef"]
  {
    assert IsWord("ab") && IsWord("cd") && IsWord("ef");
    SplitTwo("ab", "cd");
    SplitTwo("", "ef");
    hide Split;
    assert "ab" + (" " + "cd") == "ab cd";
  }

  // ---------- Words are kept apart ----------

  /** What `DumbWriter` has written, and a blank if it may break. */
  function Written(p: Page): string {
    p.text + if p.atbreak then " " else ""
  }

  lemma PutWordKeepsWords(p: Page, w: string, maxcol: int)
    requires IsWord(w)
    ensures p.atbreak ==> Split(PutWord(p, w, maxcol).text) == Split(p.text) + [w]
    ensures !p.atbreak ==> PutWord(p, w, maxcol).text == p.text + w
  {
    SplitOne(w, "");
    EmptySplit();
    assert w + "" == w;
    hide Split;
    SplitApart(p.text, "\n", w);
    SplitApart(p.text, " ", w);
  }

  lemma {:induction false} PutWordsKeepWords(p: Page, words: seq<string>, maxcol: int)
    requires p.atbreak && forall i :: 0 <= i < |words| ==> IsWord(words[i])
    ensures Split(PutWords(p, words, maxcol).text) == Split(p.text) + words
    decreases |words|
  {
    if words != [] {
      PutWordKeepsWords(p, words[0], maxcol);
      PutWordBreaks(p, words[0], maxcol);
      hide Split, PutWord;
      PutWordsKeepWords(PutWord(p, words[0], maxcol), words[1..], maxcol);
      assert words == [words[0]] + words[1..];
    }
  }

  /** Filling runs no two words together and takes none apart. */
  lemma FillKeepsWords(p: Page, data: string, maxcol: int)
    ensures SameWords(Written(Fill(p, data, maxcol)), Written(p) + data)
  {
    if data == "" {
      SameItself(Written(p));
    } else {
      FillWords(p, data, maxcol);
      var q := Fill(p, data, maxcol);
      assert (Written(p) + data)[|Written(p) + data| - 1] == data[|data| - 1];
      hide Split, Fill;
      if !IsSpace(data[|data| - 1]) {
        FillEnd(p, data, maxcol);
      }
      if q.atbreak {
        BlankEnd(q.text, " ");
      } else {
        assert q.text + "" == q.text;
      }
    }
  }

  lemma FillWords(p: Page, data: string, maxcol: int)
    requires data != ""
    ensures Split(Fill(p, data, maxcol).text) == Split(Written(p) + data)
  {
    var p' := p.(atbreak := p.atbreak || IsSpace(data[0]));
    SplitWords(data);
    if p'.atbreak {
      hide Split;
      PutWordsKeepWords(p', Split(data), maxcol);
      if p.atbreak {
        SplitApart(p.text, " ", data);
      } else {
        SplitCut(p.text, data);
        assert p.text + "" + data == p.text + data;
      }
    } else {
      FirstContinues(p.text, data);
      var w, rest := Split(data)[0], Split(data)[1..];
      assert forall i :: 0 <= i < |rest| ==> rest[i] == Split(data)[i + 1];
      hide Split;
      PutWordKeepsWords(p', w, maxcol);
      PutWordBreaks(p', w, maxcol);
      PutWordsKeepWords(PutWord(p', w, maxcol), rest, maxcol);
      assert p.text + "" + data == p.text + data;
    }
  }

  lemma {:induction false} PutWordsEnd(p: Page, words: seq<string>, maxcol: int)
    requires words != [] && forall i :: 0 <= i < |words| ==> IsWord(words[i])
    ensures !Fresh(PutWords(p, words, maxcol).text)
    decreases |words|
  {
    var q := PutWord(p, words[0], maxcol);
    assert !Fresh(q.text) by {
      var w := words[0];
      assert q.text[|q.text| - 1] == w[|w| - 1];
    }
    hide PutWord, Fresh;
    if |words| > 1 {
      PutWordsEnd(q, words[1..], maxcol);
    }
  }

  lemma FillEnd(p: Page, data: string, maxcol: int)
    requires data != "" && !IsSpace(data[|data| - 1])
    ensures !Fresh(Fill(p, data, maxcol).text)
  {
    SplitWords(data);
    SplitNotEmpty(data);
    AllSpace(data);
    assert Split(data) != [];
    hide Split, PutWords, Fresh, Squeeze;
    PutWordsEnd(p.(atbreak := p.atbreak || IsSpace(data[0])), Split(data), maxcol);
  }
}
