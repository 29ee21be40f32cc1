/** Paragraph layout of Lib/Para.py: greedy line breaking around anchors, and justification by
    running integer division. Measurements are integers; fonts and drawing are left out. */
module Paragraphs {
  /** An anchor with a positive id begins a hypertext anchor, the anchor 0 ends one. */
  datatype Word =
    | Anchor(id: int)
    | Text(chars: nat, width: int, space: int, stretch: int, ascent: int, descent: int)
  {
    predicate Begins() {
      Anchor? && id > 0
    }
  }

  datatype Line = Line(count: nat, chars: int, width: int, stretch: int, ascent: int, descent: int)

  datatype Justification = Left | Right | Both | Centre

  function Max(a: int, b: int): int {
    if a >= b then a else b
  }

  // ---------- Measuring a run of words ----------

  function Last(ws: seq<Word>): Word
    requires ws != []
  {
    ws[|ws| - 1]
  }

  function Init(ws: seq<Word>): seq<Word>
    requires ws != []
  {
    ws[..|ws| - 1]
  }

  /** Sum of the widths and of the spaces after the words, the last one included. */
  function Natural(ws: seq<Word>): int {
    if ws == [] then 0
    else if Last(ws).Text? then Natural(Init(ws)) + Last(ws).width + Last(ws).space
    else Natural(Init(ws))
  }

  function Stretch(ws: seq<Word>): int {
    if ws == [] then 0
    else if Last(ws).Text? then Stretch(Init(ws)) + Last(ws).stretch
    else Stretch(Init(ws))
  }

  function Chars(ws: seq<Word>): int {
    if ws == [] then 0
    else if Last(ws).Text? then Chars(Init(ws)) + Last(ws).chars + (if Last(ws).space > 0 then 1 else 0)
    else Chars(Init(ws))
  }

  function Ascent(ws: seq<Word>): int {
    if ws == [] then 0
    else if Last(ws).Text? then Max(Ascent(Init(ws)), Last(ws).ascent)
    else Ascent(Init(ws))
  }

  function Descent(ws: seq<Word>): int {
    if ws == [] then 0
    else if Last(ws).Text? then Max(Descent(Init(ws)), Last(ws).descent)
    else Descent(Init(ws))
  }

  function Texts(ws: seq<Word>): nat {
    if ws == [] then 0 else Texts(Init(ws)) + if Last(ws).Text? then 1 else 0
  }

  function LastSpace(ws: seq<Word>): int {
    if ws == [] then 0 else if Last(ws).Text? then Last(ws).space else LastSpace(Init(ws))
  }

  function LastStretch(ws: seq<Word>): int {
    if ws == [] then 0 else if Last(ws).Text? then Last(ws).stretch else LastStretch(Init(ws))
  }

  /** What `layout` records of a line: its width leaves out the trailing space, and its stretch
      leaves out that of the last word, or everything if no other line follows. */
  function Measure(ws: seq<Word>, more: bool): Line {
    Line(|ws|, Chars(ws), Natural(ws) - LastSpace(ws),
         if more then Stretch(ws) - LastStretch(ws) else 0, Ascent(ws), Descent(ws))
  }

  /** A line is exactly as tall as its tallest word, above and below the baseline, or of height 0. */
  lemma {:induction false} LineIsTallEnough(ws: seq<Word>)
    ensures forall i :: 0 <= i < |ws| && ws[i].Text? ==> ws[i].ascent <= Ascent(ws) && ws[i].descent <= Descent(ws)
    ensures Ascent(ws) == 0 || exists i :: 0 <= i < |ws| && ws[i].Text? && ws[i].ascent == Ascent(ws)
    ensures Descent(ws) == 0 || exists i :: 0 <= i < |ws| && ws[i].Text? && ws[i].descent == Descent(ws)
    ensures Ascent(ws) >= 0 && Descent(ws) >= 0
  {
    if ws != [] {
      LineIsTallEnough(Init(ws));
      assert forall i :: 0 <= i < |Init(ws)| ==> Init(ws)[i] == ws[i];
      assert Last(ws) == ws[|ws| - 1];
    }
  }

  // ---------- Where a line breaks ----------

  /** The line that starts at a must stop before word p. */
  predicate Breaks(words: seq<Word>, a: nat, p: nat, avail: int)
    requires a <= p < |words|
  {
    var sofar := Natural(words[a..p]);
    match words[p]
    case Anchor(id) => id > 0 && sofar >= avail
    case Text(_, width, _, _, _, _) => sofar + width > avail && sofar > 0 && width > 0
  }

  /** [a, b) is the line that starts at a: it runs up to the first break p, less the anchors that
      begin right before it, which go with the word after them. */
  ghost predicate IsLine(words: seq<Word>, a: nat, b: nat, avail: int) {
    a <= b <= |words| &&
    (a < b ==> !words[b - 1].Begins()) &&
    exists p: nat :: FirstBreak(words, a, b, p, avail)
  }

  ghost predicate FirstBreak(words: seq<Word>, a: nat, b: nat, p: nat, avail: int) {
    a <= b <= p <= |words| &&
    (forall q :: b <= q < p ==> words[q].Begins()) &&
    (forall q :: a <= q < p ==> !Breaks(words, a, q, avail)) &&
    (p < |words| ==> Breaks(words, a, p, avail))
  }

  lemma SliceStep(words: seq<Word>, a: nat, p: nat)
    requires a <= p < |words|
    ensures words[a..p + 1] == words[a..p] + [words[p]]
    ensures Init(words[a..p + 1]) == words[a..p] && Last(words[a..p + 1]) == words[p]
  {
  }

  /** The measures of a line as a loop over its words computes them. */
  lemma MeasuresStep(words: seq<Word>, a: nat, p: nat)
    requires a <= p < |words|
    ensures var s, t, w := words[a..p], words[a..p + 1], words[p];
      && (w.Anchor? ==> Natural(t) == Natural(s) && Stretch(t) == Stretch(s) && Chars(t) == Chars(s) &&
                        Ascent(t) == Ascent(s) && Descent(t) == Descent(s) && Texts(t) == Texts(s) &&
                        LastSpace(t) == LastSpace(s) && LastStretch(t) == LastStretch(s))
      && (w.Text? ==> Natural(t) == Natural(s) + w.width + w.space && Stretch(t) == Stretch(s) + w.stretch &&
                      Chars(t) == Chars(s) + w.chars + (if w.space > 0 then 1 else 0) &&
                      Ascent(t) == Max(Ascent(s), w.ascent) && Descent(t) == Max(Descent(s), w.descent) &&
                      Texts(t) == Texts(s) + 1 && LastSpace(t) == w.space && LastStretch(t) == w.stretch)
  {
    SliceStep(words, a, p);
  }

  lemma MeasuresEmpty(words: seq<Word>, a: nat)
    requires a <= |words|
    ensures var s := words[a..a];
      Natural(s) == Stretch(s) == Chars(s) == Ascent(s) == Descent(s) == LastSpace(s) == 0 && Texts(s) == 0
  {
  }

  /** Anchors add nothing to the measures of a line. */
  lemma {:induction false} AnchorsAddNothing(words: seq<Word>, a: nat, b: nat, p: nat)
    requires a <= b <= p <= |words| && forall q :: b <= q < p ==> words[q].Anchor?
    ensures Natural(words[a..p]) == Natural(words[a..b]) && Stretch(words[a..p]) == Stretch(words[a..b])
    ensures Chars(words[a..p]) == Chars(words[a..b]) && Texts(words[a..p]) == Texts(words[a..b])
    ensures Ascent(words[a..p]) == Ascent(words[a..b]) && Descent(words[a..p]) == Descent(words[a..b])
    ensures LastSpace(words[a..p]) == LastSpace(words[a..b])
    ensures LastStretch(words[a..p]) == LastStretch(words[a..b])
  {
    if b < p {
      SliceStep(words, a, p - 1);
      AnchorsAddNothing(words, a, b, p - 1);
    }
  }

  lemma {:induction false} NoTextNoWidth(ws: seq<Word>)
    requires Texts(ws) == 0
    ensures Natural(ws) == 0
  {
    if ws != [] {
      NoTextNoWidth(Init(ws));
    }
  }

  lemma {:induction false} TextIsNotAllAnchors(words: seq<Word>, a: nat, b: nat)
    requires a <= b <= |words| && Texts(words[a..b]) > 0
    ensures exists q :: a <= q < b && words[q].Text?
  {
    SliceStep(words, a, b - 1);
    if !words[b - 1].Text? {
      TextIsNotAllAnchors(words, a, b - 1);
    }
  }

  /** With room available, a line makes progress unless only begin-anchors are left; and if it is
      not the last line it holds a word. */
  lemma LineProgress(words: seq<Word>, a: nat, b: nat, avail: int)
    requires IsLine(words, a, b, avail) && a < |words| && avail > 0
    ensures a == b <==> forall q :: a <= q < |words| ==> words[q].Begins()
    ensures a < b < |words| && !Last(words).Begins() ==> Texts(words[a..b]) > 0
  {
    var p: nat :| FirstBreak(words, a, b, p, avail);
    AnchorsAddNothing(words, a, b, p);
    if p < |words| {
      if Texts(words[a..p]) == 0 {
        NoTextNoWidth(words[a..p]);
      }
      TextIsNotAllAnchors(words, a, p);
    } else if b < |words| && a < b {
      assert words[|words| - 1].Begins();
    }
    if a < b {
      assert !words[b - 1].Begins();
    }
  }

  // ---------- A whole layout ----------

  function Count(lines: seq<Line>): nat {
    if lines == [] then 0 else Count(lines[..|lines| - 1]) + lines[|lines| - 1].count
  }

  function Height(lines: seq<Line>): int {
    if lines == [] then 0
    else Height(lines[..|lines| - 1]) + lines[|lines| - 1].ascent + lines[|lines| - 1].descent
  }

  /** The width available to line k: the first line has its own indent. */
  function Avail(avail1: int, hang: int, k: nat): int {
    if k == 0 then avail1 - hang else avail1
  }

  lemma {:induction false} CountMonotone(lines: seq<Line>, k: nat)
    requires k <= |lines|
    ensures Count(lines[..k]) <= Count(lines)
  {
    if k < |lines| {
      CountMonotone(lines[..|lines| - 1], k);
      assert lines[..|lines| - 1][..k] == lines[..k];
    } else {
      assert lines[..k] == lines;
    }
  }

  lemma CountStep(lines: seq<Line>, k: nat)
    requires k < |lines|
    ensures Count(lines[..k + 1]) == Count(lines[..k]) + lines[k].count
    ensures Height(lines[..k + 1]) == Height(lines[..k]) + lines[k].ascent + lines[k].descent
  {
    assert lines[..k + 1][..k] == lines[..k];
  }

  /** Line k consists of exactly the words it should, and records their measures. */
  ghost predicate LineOk(words: seq<Word>, lines: seq<Line>, avail1: int, hang: int, k: nat)
    requires k < |lines|
  {
    var a := Count(lines[..k]);
    var b := a + lines[k].count;
    a < b <= |words| && IsLine(words, a, b, Avail(avail1, hang, k)) &&
    lines[k] == Measure(words[a..b], b < |words|)
  }

  /** The lines cut the word list into consecutive pieces, in order, nothing left over, each
      line greedy and none of them empty. */
  ghost predicate IsLayout(words: seq<Word>, lines: seq<Line>, avail1: int, hang: int) {
    Count(lines) == |words| && forall k :: 0 <= k < |lines| ==> LineOk(words, lines, avail1, hang, k)
  }

  ghost predicate PositiveWidths(words: seq<Word>) {
    forall i :: 0 <= i < |words| && words[i].Text? ==> words[i].width > 0 && words[i].space >= 0
  }

  lemma {:induction false} NaturalBounds(words: seq<Word>, a: nat, b: nat)
    requires PositiveWidths(words) && a <= b <= |words|
    ensures 0 <= LastSpace(words[a..b]) <= Natural(words[a..b])
    ensures Texts(words[a..b]) > 0 ==> LastSpace(words[a..b]) < Natural(words[a..b])
    ensures Texts(words[a..b]) == 0 ==> Natural(words[a..b]) == 0
  {
    if a < b {
      SliceStep(words, a, b - 1);
      NaturalBounds(words, a, b - 1);
    }
  }

  /** Without a break, the text so far fits, unless it is a single word. */
  lemma {:induction false} NoBreakFits(words: seq<Word>, a: nat, p: nat, avail: int)
    requires PositiveWidths(words) && a <= p <= |words|
    requires forall q :: a <= q < p ==> !Breaks(words, a, q, avail)
    ensures Natural(words[a..p]) - LastSpace(words[a..p]) <= avail || Texts(words[a..p]) <= 1
  {
    if a < p {
      SliceStep(words, a, p - 1);
      NoBreakFits(words, a, p - 1, avail);
      NaturalBounds(words, a, p - 1);
      assert !Breaks(words, a, p - 1, avail);
    }
  }

  predicate AllAnchors(words: seq<Word>, b: nat, c: nat)
    requires b <= c <= |words|
  {
    forall q :: b <= q < c ==> words[q].Anchor?
  }

  /** With positive widths every line fits or holds a single word, and the next word would not
      have fitted on it. */
  lemma GreedyLine(words: seq<Word>, a: nat, b: nat, avail: int)
    requires PositiveWidths(words) && IsLine(words, a, b, avail)
    ensures Natural(words[a..b]) - LastSpace(words[a..b]) <= avail || Texts(words[a..b]) <= 1
    ensures forall c :: b <= c < |words| && words[c].Text? && AllAnchors(words, b, c) && Texts(words[a..b]) > 0 ==>
      Natural(words[a..b]) + words[c].width > avail
  {
    var p: nat :| FirstBreak(words, a, b, p, avail);
    AnchorsAddNothing(words, a, b, p);
    NoBreakFits(words, a, p, avail);
    forall c | b <= c < |words| && words[c].Text? && AllAnchors(words, b, c) && Texts(words[a..b]) > 0
      ensures Natural(words[a..b]) + words[c].width > avail
    {
      assert p <= c;
      AnchorsAddNothing(words, a, b, c);
      assert Breaks(words, a, p, avail);
    }
  }

  // ---------- Justification ----------

  /** A word's share of the slack that is left, in proportion to its share of the stretch that
      is left. */
  function Share(w: Word, extra: int, stretch: int): int {
    if w.Text? && extra > 0 && stretch > 0 then extra * w.stretch / stretch else 0
  }

  function StretchLeft(w: Word, extra: int, stretch: int): int {
    if w.Text? && extra > 0 && stretch > 0 then stretch - w.stretch else stretch
  }

  function Spread(ws: seq<Word>, extra: int, stretch: int): seq<int> {
    if ws == [] then []
    else
      var ex := Share(ws[0], extra, stretch);
      [ex] + Spread(ws[1..], extra - ex, StretchLeft(ws[0], extra, stretch))
  }

  function Sum(s: seq<int>): int {
    if s == [] then 0 else s[0] + Sum(s[1..])
  }

  ghost predicate Stretchable(ws: seq<Word>) {
    forall i :: 0 <= i < |ws| && ws[i].Text? ==> ws[i].stretch >= 0
  }

  lemma {:induction false} MeasureFront(ws: seq<Word>)
    requires ws != []
    ensures Natural(ws) == Natural(ws[1..]) + if ws[0].Text? then ws[0].width + ws[0].space else 0
    ensures Stretch(ws) == Stretch(ws[1..]) + if ws[0].Text? then ws[0].stretch else 0
    ensures Texts(ws) == Texts(ws[1..]) + if ws[0].Text? then 1 else 0
    ensures LastStretch(ws) == if Texts(ws[1..]) == 0 && ws[0].Text? then ws[0].stretch else LastStretch(ws[1..])
  {
    if |ws| > 1 {
      assert Init(ws)[1..] == Init(ws[1..]);
      assert Last(ws[1..]) == Last(ws);
      MeasureFront(Init(ws));
    } else {
      assert Init(ws) == [] && ws[1..] == [];
    }
  }

  lemma {:induction false} StretchBounds(ws: seq<Word>)
    requires Stretchable(ws)
    ensures 0 <= LastStretch(ws) <= Stretch(ws)
    ensures Texts(ws) == 0 ==> Stretch(ws) == 0
  {
    if ws != [] {
      assert forall i :: 0 <= i < |Init(ws)| ==> Init(ws)[i] == ws[i];
      StretchBounds(Init(ws));
    }
  }

  lemma Quotient(x: int, d: int, q: int)
    requires d > 0 && 0 <= x <= d * q
    ensures 0 <= x / d <= q
    ensures x / d == q <==> x == d * q
  {
    var k := q - x / d;
    assert d * k == d * q - x + x % d;
    assert k <= -1 ==> d * k <= d * -1;
    assert k >= 1 ==> d * k >= d * 1;
  }

  lemma ShareBounds(extra: int, st: int, stretch: int)
    requires extra > 0 && 0 <= st <= stretch && stretch > 0
    ensures 0 <= extra * st / stretch <= extra
    ensures extra * st / stretch == extra <==> st == stretch
  {
    Product(extra, st, stretch);
    Quotient(extra * st, stretch, extra);
  }

  lemma Product(extra: int, st: int, stretch: int)
    requires extra > 0 && 0 <= st <= stretch
    ensures 0 <= extra * st <= stretch * extra
    ensures extra * st == stretch * extra <==> st == stretch
  {
    Distribute(extra, stretch, st);
    if st < stretch {
      Positive(extra, stretch - st);
    }
  }

  lemma Distribute(a: int, b: int, c: int)
    ensures a * (b - c) == b * a - a * c
  {
  }

  lemma Positive(a: int, b: int)
    requires a > 0 && b > 0
    ensures a * b > 0
  {
  }

  lemma {:induction false} NothingToSpread(ws: seq<Word>, extra: int, stretch: int)
    requires extra <= 0 || (stretch <= 0 && Stretchable(ws))
    ensures Sum(Spread(ws, extra, stretch)) == 0
  {
    if ws != [] {
      assert Stretchable(ws) ==> Stretchable(ws[1..]);
      NothingToSpread(ws[1..], extra, stretch);
    }
  }

  /** Some word stretches so much more than all that are left when its turn comes that its share is
      greater than the slack that is left. */
  predicate Overshoots(ws: seq<Word>, extra: int, stretch: int) {
    ws != [] && extra > 0 && stretch > 0 &&
    ((ws[0].Text? && extra * (ws[0].stretch - stretch) >= stretch) ||
     Overshoots(ws[1..], extra - Share(ws[0], extra, stretch), StretchLeft(ws[0], extra, stretch)))
  }

  lemma ShareBelow(extra: int, st: int, stretch: int)
    requires extra > 0 && stretch > 0 && st >= stretch
    ensures extra * st / stretch >= extra
  {
    Distribute(extra, st, stretch);
    assert st > stretch ==> extra * (st - stretch) > 0 by {
      if st > stretch {
        Positive(extra, st - stretch);
      }
    }
    AtLeast(extra * st, stretch, extra);
  }

  lemma AtLeast(x: int, d: int, q: int)
    requires d > 0 && x >= d * q
    ensures x / d >= q
  {
    var k := q - x / d;
    assert d * k == d * q - x + x % d;
    assert k >= 1 ==> d * k >= d * 1;
  }

  lemma ShareExceeds(extra: int, st: int, stretch: int)
    requires extra > 0 && stretch > 0
    ensures extra * st / stretch > extra <==> extra * (st - stretch) >= stretch
  {
    var x, q := extra * st, extra * st / stretch;
    Distribute(extra, st, stretch);
    assert extra * (st - stretch) == x - stretch * extra;
    if x - stretch * extra >= stretch {
      assert stretch * (extra + 1) == stretch * extra + stretch;
      AtLeast(x, stretch, extra + 1);
    } else {
      NotAtLeast(x, stretch, extra + 1);
    }
  }

  lemma NotAtLeast(x: int, d: int, q: int)
    requires d > 0 && x < d * q
    ensures x / d < q
  {
    var k := x / d - q;
    assert d * k == x - x % d - d * q;
    assert k >= 0 ==> d * k >= 0;
  }

  lemma {:induction false} NoTextNoStretch(ws: seq<Word>)
    requires Texts(ws) == 0
    ensures Stretch(ws) == 0 == LastStretch(ws)
  {
    if ws != [] {
      NoTextNoStretch(Init(ws));
    }
  }

  /** Nothing is lost by the integer divisions: the increments add up to the slack, exactly when no
      word overshoots. */
  lemma {:induction false} SpreadIsExact(ws: seq<Word>, extra: int, stretch: int)
    requires extra > 0 && stretch > 0
    requires stretch == Stretch(ws) - LastStretch(ws)
    ensures Sum(Spread(ws, extra, stretch)) == extra <==> !Overshoots(ws, extra, stretch)
  {
    MeasureFront(ws);
    var rest := ws[1..];
    if ws[0].Text? {
      var st := ws[0].stretch;
      var ex := extra * st / stretch;
      ShareExceeds(extra, st, stretch);
      if ex >= extra {
        NothingToSpread(rest, extra - ex, stretch - st);
      } else {
        if st >= stretch {
          ShareBelow(extra, st, stretch);
        }
        if Texts(rest) == 0 {
          NoTextNoStretch(rest);
          assert false;
        }
        SpreadIsExact(rest, extra - ex, stretch - st);
      }
    } else {
      SpreadIsExact(rest, extra, stretch);
    }
  }

  /** Without negative stretches no word overshoots. */
  lemma {:induction false} NoOvershoot(ws: seq<Word>, extra: int, stretch: int)
    requires Stretchable(ws) && stretch == Stretch(ws) - LastStretch(ws)
    ensures !Overshoots(ws, extra, stretch)
  {
    if ws != [] && extra > 0 && stretch > 0 {
      var st, rest := if ws[0].Text? then ws[0].stretch else 0, ws[1..];
      assert Stretchable(rest);
      MeasureFront(ws);
      StretchBounds(rest);
      ShareBounds(extra, st, stretch);
      ShareExceeds(extra, st, stretch);
      if st < stretch {
        NoOvershoot(rest, extra - Share(ws[0], extra, stretch), stretch - st);
      }
    }
  }

  function StretchOf(w: Word): int {
    if w.Text? then w.stretch else 0
  }

  /** The stretch of the first k words. */
  function StretchTo(ws: seq<Word>, k: nat): int {
    if k == 0 || ws == [] then 0 else StretchOf(ws[0]) + StretchTo(ws[1..], k - 1)
  }

  function SumTo(s: seq<int>, k: nat): int {
    if k == 0 || s == [] then 0 else s[0] + SumTo(s[1..], k - 1)
  }

  lemma {:induction false} StretchToBounds(ws: seq<Word>, k: nat)
    requires Stretchable(ws)
    ensures 0 <= StretchTo(ws, k)
    ensures StretchTo(ws, k) <= StretchTo(ws, |ws|)
    decreases |ws|
  {
    if ws != [] {
      assert Stretchable(ws[1..]);
      StretchToBounds(ws[1..], if k == 0 then 0 else k - 1);
    }
  }

  lemma AtMostTimes(a: int, b: int, k: int)
    requires a <= b && k >= 0
    ensures a * k <= b * k
  {
  }

  lemma CancelTimes(a: int, b: int, k: int)
    requires a * k <= b * k && k > 0
    ensures a <= b
  {
    DistributeOver(a, b, k);
    if b < a {
      Positive(a - b, k);
    }
  }

  lemma DistributeOver(a: int, b: int, k: int)
    ensures (a + b) * k == a * k + b * k && (a - b) * k == a * k - b * k
  {
  }

  lemma Swap(a: int, b: int, c: int)
    ensures a * b * c == a * c * b
  {
  }

  /** What is due to the first word and to the others, by the stretch that is left. */
  lemma DueTogether(e: int, st: int, c: int, t: int)
    ensures e * (st + c) * t == e * st * (t - c) + e * c * (t + st)
  {
    Distribute(e * st, t, c);
    assert e * (st + c) == e * st + e * c;
    DistributeOver(e * st, e * c, t);
    DistributeOver(t, st, e * c);
    Swap(e, st, c);
  }

  /** What is given to them. */
  lemma GivenTogether(x: int, h: int, s: int, t: int, c: int)
    ensures (x + h) * s * t == x * s * (t - c) + x * s * c + h * t * s
  {
    DistributeOver(x, h, s);
    DistributeOver(x * s, h * s, t);
    Distribute(x * s, t, c);
    Swap(h, s, t);
  }

  /** The share of the first word and those of the others, upper bound. */
  lemma FairAbove(e: int, s: int, st: int, ex: int, c: int, h: int)
    requires s - st > 0 && 0 <= c <= s - st && s > 0
    requires ex * s <= e * st && h * (s - st) <= (e - ex) * c
    ensures (ex + h) * s <= e * (st + c)
  {
    var t := s - st;
    AtMostTimes(ex * s, e * st, t - c);
    AtMostTimes(h * t, (e - ex) * c, s);
    GivenTogether(ex, h, s, t, c);
    DueTogether(e, st, c, t);
    DistributeOver(e, ex, c);
    DistributeOver(e * c, ex * c, s);
    Swap(ex, c, s);
    CancelTimes((ex + h) * s, e * (st + c), t);
  }

  /** And lower bound. */
  lemma FairBelow(e: int, s: int, st: int, ex: int, c: int, h: int, m: int)
    requires s - st > 0 && 0 <= c <= s - st && s > 0
    requires e * st <= (ex + 1) * s && (e - ex) * c <= (h + m) * (s - st)
    ensures e * (st + c) <= (ex + h + m + 1) * s
  {
    var t := s - st;
    AtMostTimes(e * st, (ex + 1) * s, t - c);
    AtMostTimes((e - ex) * c, (h + m) * t, s);
    GivenTogether(ex + 1, h + m, s, t, c);
    DueTogether(e, st, c, t);
    DistributeOver(e, ex, c);
    DistributeOver(e * c, ex * c, s);
    DistributeOver(ex, 1, s);
    DistributeOver(ex * s, s, c);
    Swap(ex, c, s);
    Positive0(s, c);
    CancelTimes(e * (st + c), (ex + h + m + 1) * s, t);
  }

  lemma Positive0(a: int, b: int)
    requires a >= 0 && b >= 0
    ensures a * b >= 0
  {
  }

  lemma FloorOf(x: int, d: int)
    requires d > 0
    ensures x / d * d <= x <= (x / d + 1) * d
  {
    assert x == d * (x / d) + x % d;
  }

  ghost predicate Fair(extra: int, stretch: int, upto: int, given: int, k: int) {
    0 <= given <= extra && given * stretch <= extra * upto <= (given + k) * stretch
  }

  lemma FairStep(e: int, s: int, st: int, c: int, h: int, m: int)
    requires e > 0 && s > 0 && st >= 0 && c >= 0 && st + c <= s && m >= 0
    requires var ex := e * st / s; Fair(e - ex, s - st, c, h, m)
    ensures var ex := e * st / s; Fair(e, s, st + c, ex + h, m + 1)
  {
    var ex := e * st / s;
    ShareBounds(e, st, s);
    FloorOf(e * st, s);
    if st < s {
      FairAbove(e, s, st, ex, c, h);
      FairBelow(e, s, st, ex, c, h, m);
    } else {
      assert ex == e && h == 0 && c == 0;
      Positive0(m + 1, s);
      assert (e + (m + 1)) * s == e * s + (m + 1) * s;
    }
  }

  /** No word is favoured: what the first k words get together is their share of the slack in
      proportion to their stretch, less than one unit a word below it and never above. */
  lemma {:induction false} SpreadIsFair(ws: seq<Word>, extra: int, stretch: int, k: nat)
    requires Stretchable(ws) && extra >= 0 && k <= |ws| && StretchTo(ws, k) <= stretch
    ensures Fair(extra, stretch, StretchTo(ws, k), SumTo(Spread(ws, extra, stretch), k), k)
    decreases |ws|
  {
    StretchToBounds(ws, k);
    if k == 0 {
      assert 0 * stretch == 0 && extra * 0 == 0;
    } else {
      var rest, st := ws[1..], StretchOf(ws[0]);
      var ex, left := Share(ws[0], extra, stretch), StretchLeft(ws[0], extra, stretch);
      assert Stretchable(rest);
      StretchToBounds(rest, k - 1);
      assert Spread(ws, extra, stretch)[1..] == Spread(rest, extra - ex, left);
      var c, h := StretchTo(rest, k - 1), SumTo(Spread(rest, extra - ex, left), k - 1);
      if ws[0].Text? && extra > 0 && stretch > 0 {
        ShareBounds(extra, st, stretch);
        hide Spread, SumTo, StretchTo, Stretchable;
        SpreadIsFair(rest, extra - ex, left, k - 1);
        FairStep(extra, stretch, st, c, h, k - 1);
      } else {
        hide Spread, SumTo, StretchTo, Stretchable;
        SpreadIsFair(rest, extra, stretch, k - 1);
        FairIdle(extra, stretch, st, c, h, k - 1);
      }
    }
  }

  lemma FairIdle(e: int, s: int, st: int, c: int, h: int, m: int)
    requires st == 0 || e == 0 || s == 0
    requires st >= 0 && c >= 0 && st + c <= s && m >= 0 && Fair(e, s, c, h, m)
    ensures Fair(e, s, st + c, h, m + 1)
  {
    assert (h + (m + 1)) * s == (h + m) * s + s;
  }

  /** A negative stretch makes the word before it overshoot: 15 units are handed out for 10. */
  lemma NegativeStretchOvershoots()
    ensures var ws := [Text(1, 5, 1, 3, 1, 1), Text(1, 5, 1, -1, 1, 1), Text(1, 5, 1, 1, 1, 1)];
      Measure(ws, true).stretch == 2 && Sum(Spread(ws, 10, 2)) == 15
  {
    var a, b, c := Text(1, 5, 1, 3, 1, 1), Text(1, 5, 1, -1, 1, 1), Text(1, 5, 1, 1, 1, 1);
    assert Init([a, b, c]) == [a, b] && Init([a, b]) == [a] && Init([a]) == [];
    assert Stretch([a]) == 3 && Stretch([a, b]) == 2;
    assert [a, b, c][1..] == [b, c];
    assert Share(a, 10, 2) == 15;
    NothingToSpread([b, c], -5, -1);
  }

  /** Where each word of a line starts and where the next one starts. */
  function Places(ws: seq<Word>, h: int, extra: int, stretch: int): (r: seq<(int, int)>)
    ensures |r| == |ws|
  {
    if ws == [] then []
    else
      var ex := Share(ws[0], extra, stretch);
      var h2 := if ws[0].Text? then h + ws[0].width + ws[0].space + ex else h;
      [(h, h2)] + Places(ws[1..], h2, extra - ex, StretchLeft(ws[0], extra, stretch))
  }

  lemma PlacesEmpty(h: int, extra: int, stretch: int)
    ensures Places([], h, extra, stretch) == []
  {
  }

  lemma PlacesStep(ws: seq<Word>, h: int, extra: int, stretch: int)
    requires ws != []
    ensures ws[0].Anchor? ==> Places(ws, h, extra, stretch) == [(h, h)] + Places(ws[1..], h, extra, stretch)
    ensures ws[0].Text? && extra > 0 && stretch > 0 ==>
      var ex := extra * ws[0].stretch / stretch;
      var h2 := h + ws[0].width + ws[0].space + ex;
      Places(ws, h, extra, stretch) == [(h, h2)] + Places(ws[1..], h2, extra - ex, stretch - ws[0].stretch)
    ensures ws[0].Text? && (extra <= 0 || stretch <= 0) ==>
      var h2 := h + ws[0].width + ws[0].space;
      Places(ws, h, extra, stretch) == [(h, h2)] + Places(ws[1..], h2, extra, stretch)
  {
  }

  /** A line ends where its natural width and the increments put it. */
  lemma {:induction false} PlacesEnd(ws: seq<Word>, h: int, extra: int, stretch: int)
    requires ws != []
    ensures LineEnd(Places(ws, h, extra, stretch)) == h + Natural(ws) + Sum(Spread(ws, extra, stretch))
  {
    MeasureFront(ws);
    var ex := Share(ws[0], extra, stretch);
    var h2 := if ws[0].Text? then h + ws[0].width + ws[0].space + ex else h;
    var rest := Places(ws[1..], h2, extra - ex, StretchLeft(ws[0], extra, stretch));
    assert Places(ws, h, extra, stretch) == [(h, h2)] + rest;
    if |ws| == 1 {
      assert ws[1..] == [];
    } else {
      PlacesEnd(ws[1..], h2, extra - ex, StretchLeft(ws[0], extra, stretch));
      assert LineEnd([(h, h2)] + rest) == LineEnd(rest);
    }
  }

  /** The words stand one behind the other from h on, each as wide as it is with its space and its
      increment. */
  ghost predicate Spaced(row: seq<(int, int)>, ws: seq<Word>, h: int, increments: seq<int>) {
    && |row| == |ws| == |increments|
    && (row != [] ==> row[0].0 == h)
    && (forall j :: 0 <= j < |row| - 1 ==> row[j].1 == row[j + 1].0)
    && (forall j :: 0 <= j < |row| ==>
          row[j].1 - row[j].0 == increments[j] + if ws[j].Text? then ws[j].width + ws[j].space else 0)
  }

  lemma SpacedCons(h: int, h2: int, w: Word, ex: int, rest: seq<(int, int)>, ws: seq<Word>, more: seq<int>)
    requires Spaced(rest, ws, h2, more) && h2 - h == ex + if w.Text? then w.width + w.space else 0
    ensures Spaced([(h, h2)] + rest, [w] + ws, h, [ex] + more)
  {
    var row := [(h, h2)] + rest;
    forall j | 0 <= j < |row| - 1 ensures row[j].1 == row[j + 1].0 {
      assert j > 0 ==> rest[j - 1].1 == rest[j].0;
    }
  }

  lemma {:induction false} PlacesSpaced(ws: seq<Word>, h: int, extra: int, stretch: int)
    ensures Spaced(Places(ws, h, extra, stretch), ws, h, Spread(ws, extra, stretch))
  {
    if ws != [] {
      var ex, left := Share(ws[0], extra, stretch), StretchLeft(ws[0], extra, stretch);
      var h2 := if ws[0].Text? then h + ws[0].width + ws[0].space + ex else h;
      PlacesSpaced(ws[1..], h2, extra - ex, left);
      var rest, more := Places(ws[1..], h2, extra - ex, left), Spread(ws[1..], extra - ex, left);
      assert Places(ws, h, extra, stretch) == [(h, h2)] + rest && Spread(ws, extra, stretch) == [ex] + more;
      assert ws[0].Anchor? ==> ex == 0;
      assert ws == [ws[0]] + ws[1..];
      hide Places, Spread, Share, StretchLeft, Spaced;
      SpacedCons(h, h2, ws[0], ex, rest, ws[1..], more);
    }
  }

  function Zeros(n: nat): seq<int> {
    seq(n, _ => 0)
  }

  lemma {:induction false} NoSlackNoIncrements(ws: seq<Word>, extra: int, stretch: int)
    requires extra <= 0 || stretch <= 0
    ensures Spread(ws, extra, stretch) == Zeros(|ws|)
  {
    if ws != [] {
      NoSlackNoIncrements(ws[1..], extra, stretch);
      assert [0] + Zeros(|ws| - 1) == Zeros(|ws|);
    }
  }

  function LineEnd(ps: seq<(int, int)>): int
    requires ps != []
  {
    ps[|ps| - 1].1
  }

  /** Where line k starts, and what is shared out on it. */
  function LineStart(just: Justification, left: int, hang: int, avail: int, width: int, k: nat): int {
    left + (if k == 0 then hang else 0) +
    match just
    case Right => avail - width
    case Centre => (avail - width) / 2
    case _ => 0
  }

  function Slack(just: Justification, avail: int, line: Line): int {
    if just == Both && line.stretch > 0 then avail - line.width else 0
  }

  ghost predicate Flush(places: seq<(int, int)>, ws: seq<Word>, margin: int) {
    places != [] && LineEnd(places) - LastSpace(ws) == margin
  }

  ghost function LineWords(words: seq<Word>, lines: seq<Line>, k: nat): seq<Word>
    requires k < |lines| && Count(lines[..k]) + lines[k].count <= |words|
  {
    words[Count(lines[..k])..Count(lines[..k]) + lines[k].count]
  }

  ghost predicate RowOk(words: seq<Word>, lines: seq<Line>, avail1: int, hang: int, just: Justification, left: int,
                        row: seq<(int, int)>, k: nat)
    requires k < |lines|
  {
    var avail := Avail(avail1, hang, k);
    Count(lines[..k]) + lines[k].count <= |words| &&
    row == Places(LineWords(words, lines, k), LineStart(just, left, hang, avail, lines[k].width, k),
                  Slack(just, avail, lines[k]), lines[k].stretch)
  }

  /** A justified line with slack ends at the right margin exactly, trailing space dropped, if and
      only if no word overshoots: on the first line, which starts at the hanging indent, as on the
      others. */
  lemma JustifiedLineIsFlush(ws: seq<Word>, left: int, hang: int, avail1: int, k: nat)
    requires ws != []
    requires var line := Measure(ws, true); line.stretch > 0 && Avail(avail1, hang, k) > line.width
    ensures var line := Measure(ws, true);
      var avail := Avail(avail1, hang, k);
      var extra := avail - line.width;
      Flush(Places(ws, LineStart(Both, left, hang, avail, line.width, k), extra, line.stretch), ws, left + avail1)
      <==> !Overshoots(ws, extra, line.stretch)
  {
    var line := Measure(ws, true);
    var avail := Avail(avail1, hang, k);
    PlacesEnd(ws, LineStart(Both, left, hang, avail, line.width, k), avail - line.width, line.stretch);
    SpreadIsExact(ws, avail - line.width, line.stretch);
  }

  /** A right-aligned line ends there whatever its width. */
  lemma RightLineIsFlush(ws: seq<Word>, left: int, hang: int, avail1: int, k: nat, more: bool)
    requires ws != []
    ensures var line := Measure(ws, more);
      var avail := Avail(avail1, hang, k);
      Flush(Places(ws, LineStart(Right, left, hang, avail, line.width, k), 0, line.stretch), ws, left + avail1)
  {
    var line := Measure(ws, more);
    var avail := Avail(avail1, hang, k);
    PlacesEnd(ws, LineStart(Right, left, hang, avail, line.width, k), 0, line.stretch);
    NothingToSpread(ws, 0, line.stretch);
  }

  /** Where the words of a line begin that is neither moved to the right nor to the centre. */
  function Margin(left: int, hang: int, k: nat): int {
    left + if k == 0 then hang else 0
  }

  /** As much room before a line as after it, but for one unit that goes after it. */
  ghost predicate Centred(row: seq<(int, int)>, ws: seq<Word>, from: int, to: int) {
    row != [] &&
    var before, after := row[0].0 - from, to - (LineEnd(row) - LastSpace(ws));
    0 <= after - before <= 1
  }

  lemma CentredLineIsCentred(ws: seq<Word>, left: int, hang: int, avail1: int, k: nat, more: bool)
    requires ws != []
    ensures var line := Measure(ws, more);
      var row := Places(ws, LineStart(Centre, left, hang, Avail(avail1, hang, k), line.width, k), 0, line.stretch);
      Centred(row, ws, Margin(left, hang, k), left + avail1)
  {
    var line := Measure(ws, more);
    var h := LineStart(Centre, left, hang, Avail(avail1, hang, k), line.width, k);
    PlacesEnd(ws, h, 0, line.stretch);
    NothingToSpread(ws, 0, line.stretch);
    PlacesSpaced(ws, h, 0, line.stretch);
  }

  /** The increments are the spread slack on a justified line, and none on another. */
  ghost predicate LineSpaced(words: seq<Word>, lines: seq<Line>, row: seq<(int, int)>, k: nat,
                             just: Justification, avail: int)
    requires k < |lines|
  {
    Count(lines[..k]) + lines[k].count <= |words| && row != [] &&
    var ws := LineWords(words, lines, k);
    Spaced(row, ws, row[0].0,
           if just == Both then Spread(ws, avail - lines[k].width, lines[k].stretch) else Zeros(|ws|))
  }

  /** Where a row begins and ends, for each justification. */
  ghost predicate RowPlaced(words: seq<Word>, lines: seq<Line>, row: seq<(int, int)>, k: nat, just: Justification,
                            from: int, to: int)
    requires k < |lines|
  {
    Count(lines[..k]) + lines[k].count <= |words| && row != [] &&
    var ws := LineWords(words, lines, k);
    match just
    case Left => row[0].0 == from
    case Right => LineEnd(row) - LastSpace(ws) == to
    case Centre => Centred(row, ws, from, to)
    case Both =>
      && row[0].0 == from
      && (Stretchable(words) && lines[k].stretch > 0 && to - from > lines[k].width ==>
            LineEnd(row) - LastSpace(ws) == to)
  }

  lemma RowIsSpaced(words: seq<Word>, lines: seq<Line>, avail1: int, hang: int, just: Justification, left: int,
                    row: seq<(int, int)>, k: nat)
    requires k < |lines| && lines[k].count > 0 && RowOk(words, lines, avail1, hang, just, left, row, k)
    ensures LineSpaced(words, lines, row, k, just, Avail(avail1, hang, k))
  {
    var ws, line, avail := LineWords(words, lines, k), lines[k], Avail(avail1, hang, k);
    var slack := Slack(just, avail, line);
    hide Places, Spread, LineStart;
    PlacesSpaced(ws, LineStart(just, left, hang, avail, line.width, k), slack, line.stretch);
    if slack <= 0 || line.stretch <= 0 {
      NoSlackNoIncrements(ws, slack, line.stretch);
    }
    if avail - line.width <= 0 || line.stretch <= 0 {
      NoSlackNoIncrements(ws, avail - line.width, line.stretch);
    }
  }

  lemma JustifiedRow(words: seq<Word>, lines: seq<Line>, avail1: int, hang: int, left: int, k: nat)
    requires k < |lines| && LineOk(words, lines, avail1, hang, k) && Stretchable(words)
    requires lines[k].stretch > 0 && Avail(avail1, hang, k) > lines[k].width
    ensures var ws, avail := LineWords(words, lines, k), Avail(avail1, hang, k);
      var h := LineStart(Both, left, hang, avail, lines[k].width, k);
      Flush(Places(ws, h, avail - lines[k].width, lines[k].stretch), ws, left + avail1)
  {
    var ws, avail := LineWords(words, lines, k), Avail(avail1, hang, k);
    WordsStretch(words, lines, k);
    LastLineIsTight(ws, Count(lines[..k]) + lines[k].count < |words|, lines[k]);
    hide Places, Measure, Stretchable, IsLine, LineStart, Overshoots, Flush;
    JustifiedLineIsFlush(ws, left, hang, avail1, k);
    StretchOfLine(ws, lines[k]);
    NoOvershoot(ws, avail - lines[k].width, lines[k].stretch);
  }

  lemma RowStart(ws: seq<Word>, h: int, extra: int, stretch: int)
    requires ws != []
    ensures Places(ws, h, extra, stretch)[0].0 == h
  {
  }

  lemma RowIsPlaced(words: seq<Word>, lines: seq<Line>, avail1: int, hang: int, just: Justification, left: int,
                    row: seq<(int, int)>, k: nat)
    requires k < |lines| && LineOk(words, lines, avail1, hang, k)
    requires RowOk(words, lines, avail1, hang, just, left, row, k)
    ensures RowPlaced(words, lines, row, k, just, Margin(left, hang, k), left + avail1)
  {
    var ws, line, avail := LineWords(words, lines, k), lines[k], Avail(avail1, hang, k);
    RowStart(ws, LineStart(just, left, hang, avail, line.width, k), Slack(just, avail, line), line.stretch);
    if just == Both && Stretchable(words) && line.stretch > 0 && avail > line.width {
      JustifiedRow(words, lines, avail1, hang, left, k);
    }
    hide Places, Measure, Stretchable, IsLine;
    var more := Count(lines[..k]) + line.count < |words|;
    match just
    case Left =>
    case Right => RightLineIsFlush(ws, left, hang, avail1, k, more);
    case Centre => CentredLineIsCentred(ws, left, hang, avail1, k, more);
    case Both =>
  }

  /** What `Visit` uses of a line. */
  lemma LineAt(words: seq<Word>, lines: seq<Line>, avail1: int, hang: int, k: nat)
    requires IsLayout(words, lines, avail1, hang) && k < |lines|
    ensures LineOk(words, lines, avail1, hang, k) && lines[k].count > 0
    ensures Count(lines[..k + 1]) == Count(lines[..k]) + lines[k].count <= |words|
    ensures Height(lines[..k + 1]) == Height(lines[..k]) + lines[k].ascent + lines[k].descent
  {
    hide IsLine, Measure;
    CountMonotone(lines, k + 1);
    CountStep(lines, k);
  }

  lemma NoLines(lines: seq<Line>)
    requires lines == []
    ensures Count(lines) == 0 == Height(lines)
  {
  }

  lemma WordsStretch(words: seq<Word>, lines: seq<Line>, k: nat)
    requires k < |lines| && Count(lines[..k]) + lines[k].count <= |words| && Stretchable(words)
    ensures Stretchable(LineWords(words, lines, k))
  {
  }

  lemma LastLineIsTight(ws: seq<Word>, more: bool, line: Line)
    requires line == Measure(ws, more) && line.stretch > 0
    ensures line == Measure(ws, true)
  {
  }

  lemma StretchOfLine(ws: seq<Word>, line: Line)
    requires line == Measure(ws, true)
    ensures line.stretch == Stretch(ws) - LastStretch(ws)
  {
  }

  lemma LinesGrow(words: seq<Word>, lines: seq<Line>, line: Line, avail1: int, hang: int)
    requires forall k :: 0 <= k < |lines| ==> LineOk(words, lines, avail1, hang, k)
    requires LineOk(words, lines + [line], avail1, hang, |lines|)
    ensures forall k :: 0 <= k < |lines + [line]| ==> LineOk(words, lines + [line], avail1, hang, k)
    ensures Count(lines + [line]) == Count(lines) + line.count
    ensures Height(lines + [line]) == Height(lines) + line.ascent + line.descent
  {
    var all := lines + [line];
    assert all[..|lines|] == lines;
    forall k | 0 <= k < |lines| ensures LineOk(words, all, avail1, hang, k) {
      assert LineOk(words, lines, avail1, hang, k);
      assert all[..k] == lines[..k];
    }
  }

  // ---------- The paragraph object ----------

  class Para {
    var words: seq<Word>
    var just: Justification
    var indentLeft: int
    var indentRight: int
    var indentHang: int
    var width: int
    var height: int
    var lines: seq<Line>
    var left: int
    var top: int

    ghost function Avail1(): int
      reads this
    {
      width - indentLeft - indentRight
    }

    constructor (words: seq<Word>, just: Justification, indentLeft: int, indentRight: int, indentHang: int)
      ensures this.words == words && this.just == just
      ensures this.indentLeft == indentLeft && this.indentRight == indentRight && this.indentHang == indentHang
    {
      this.words, this.just := words, just;
      this.indentLeft, this.indentRight, this.indentHang := indentLeft, indentRight, indentHang;
      lines := [];
    }

    /** The inner loops of `layout`: the line that starts at word j. The second result is the
        stretch of the last word seen on any line so far, which Python leaves unbound at first. */
    method BreakLine(j: nat, avail: int, lst0: int, known0: bool) returns (i: nat, line: Line, lst: int, known: bool)
      requires j < |words|
      ensures IsLine(words, j, i, avail)
      ensures Texts(words[j..i]) > 0 || i == |words| ==> line == Measure(words[j..i], i < |words|)
      ensures known <==> known0 || Texts(words[j..i]) > 0
      ensures line.count == i - j
    {
      var n := |words|;
      hide Natural, Stretch, Chars, Ascent, Descent, Texts, LastSpace, LastStretch, Max;
      MeasuresEmpty(words, j);
      var charcount, width, stretch, ascent, descent, lsp := 0, 0, 0, 0, 0, 0;
      lst, known := lst0, known0;
      i := j;
      while i < n
        invariant j <= i <= n
        invariant forall q :: j <= q < i ==> !Breaks(words, j, q, avail)
        invariant width == Natural(words[j..i]) && stretch == Stretch(words[j..i]) && charcount == Chars(words[j..i])
        invariant ascent == Ascent(words[j..i]) && descent == Descent(words[j..i]) && lsp == LastSpace(words[j..i])
        invariant Texts(words[j..i]) > 0 ==> lst == LastStretch(words[j..i])
        invariant known <==> known0 || Texts(words[j..i]) > 0
      {
        MeasuresStep(words, j, i);
        match words[i] {
          case Anchor(id) =>
            if id > 0 && width >= avail {
              break;
            }
          case Text(te, wi, sp, st, as_, de) =>
            if width + wi > avail && width > 0 && wi > 0 {
              break;
            }
            charcount := charcount + te + if sp > 0 then 1 else 0;
            width := width + wi + sp;
            lsp := sp;
            stretch := stretch + st;
            lst, known := st, true;
            ascent := Max(ascent, as_);
            descent := Max(descent, de);
        }
        i := i + 1;
      }
      ghost var p := i;
      while i > j && words[i - 1].Begins()
        invariant j <= i <= p
        invariant forall q :: i <= q < p ==> words[q].Begins()
      {
        i := i - 1;
      }
      assert FirstBreak(words, j, i, p, avail);
      AnchorsAddNothing(words, j, i, p);
      width := width - lsp;
      if i < n {
        stretch := stretch - lst;
      } else {
        stretch := 0;
      }
      line := Line(i - j, charcount, width, stretch, ascent, descent);
    }

    /** `layout`. It returns false where the Python call does not return a layout: either the
        current line can make no progress, and then the outer loop runs for ever, or the stretch
        of a line without words is corrected by a variable that is still unbound. With room
        available on every line that happens if and only if the word list ends in a begin-anchor. */
    method Layout(linewidth: int) returns (ok: bool)
      modifies this`width, this`lines, this`height
      ensures width == linewidth
      ensures Avail1() > 0 && Avail1() - indentHang > 0 ==> (ok <==> words == [] || !Last(words).Begins())
      ensures Avail1() > 0 && Avail1() - indentHang > 0 && ok ==>
        IsLayout(words, lines, Avail1(), indentHang) && height == Height(lines)
    {
      hide Natural, Stretch, Chars, Ascent, Descent, Texts, LastSpace, LastStretch, Max, Measure;
      hide Breaks, FirstBreak;
      width := linewidth;
      height := 0;
      lines := [];
      var avail1 := width - indentLeft - indentRight;
      var avail := avail1 - indentHang;
      ghost var room := avail1 > 0 && avail > 0;
      ghost var good := room && (words == [] || !Last(words).Begins());
      var i, n, lst, known := 0, |words|, 0, false;
      while i < n
        invariant 0 <= i <= n
        invariant Avail1() == avail1 && avail == Avail(avail1, indentHang, |lines|)
        invariant good ==> Count(lines) == i && height == Height(lines)
        invariant good ==> forall k :: 0 <= k < |lines| ==> LineOk(words, lines, avail1, indentHang, k)
        invariant room && words != [] && Last(words).Begins() ==> i < n
        decreases n - i, if lines == [] then 1 else 0
      {
        var j := i;
        var line: Line;
        i, line, lst, known := BreakLine(j, avail, lst, known);
        if room {
          LineProgress(words, j, i, avail);
          assert Last(words) == words[n - 1];
        }
        if i < n && !known {
          return false;
        }
        if i == j && lines != [] {
          return false;
        }
        if good {
          assert i > j && (i < n ==> Texts(words[j..i]) > 0);
          assert (lines + [line])[..|lines|] == lines;
          assert LineOk(words, lines + [line], avail1, indentHang, |lines|);
          LinesGrow(words, lines, line, avail1, indentHang);
        }
        lines := lines + [line];
        height := height + line.ascent + line.descent;
        avail := avail1;
      }
      ok := true;
    }

    /** The position of the first word of line k, which starts at word i, and the slack. */
    method StartLine(k: nat, i: nat, avail: int) returns (h: int, extra: int)
      requires k < |lines| && (i == 0 <==> k == 0)
      ensures h == LineStart(just, left + indentLeft, indentHang, avail, lines[k].width, k)
      ensures extra == Slack(just, avail, lines[k])
    {
      h := left + indentLeft;
      if i == 0 {
        h := h + indentHang;
      }
      extra := 0;
      if just == Right {
        h := h + avail - lines[k].width;
      } else if just == Centre {
        h := h + (avail - lines[k].width) / 2;
      } else if just == Both && lines[k].stretch > 0 {
        extra := avail - lines[k].width;
      }
    }

    /** The inner loop of `visit`. */
    method VisitLine(i: nat, count: nat, h0: int, extra0: int, stretch0: int) returns (row: seq<(int, int)>)
      requires i + count <= |words|
      ensures row == Places(words[i..i + count], h0, extra0, stretch0)
    {
      hide Places;
      var h, extra, stretch := h0, extra0, stretch0;
      row := [];
      for j := i to i + count
        invariant Places(words[i..i + count], h0, extra0, stretch0)
          == row + Places(words[j..i + count], h, extra, stretch)
      {
        assert words[j..i + count][1..] == words[j + 1..i + count];
        PlacesStep(words[j..i + count], h, extra, stretch);
        match words[j] {
          case Anchor(_) =>
            row := row + [(h, h)];
          case Text(_, wi, sp, st, _, _) =>
            var ex := 0;
            if extra > 0 && stretch > 0 {
              ex := extra * st / stretch;
              extra := extra - ex;
              stretch := stretch - st;
            }
            row := row + [(h, h + wi + sp + ex)];
            h := h + wi + sp + ex;
        }
      }
      PlacesEmpty(h, extra, stretch);
    }

    /** `visit`, with the calls to the word and anchor functions recorded: for every line its top, and the
        horizontal position of each word and of the one after it. */
    method Visit() returns (places: seq<seq<(int, int)>>, tops: seq<int>)
      requires IsLayout(words, lines, Avail1(), indentHang)
      ensures |places| == |tops| == |lines|
      ensures forall k :: 0 <= k < |lines| ==> tops[k] == top + Height(lines[..k])
      ensures forall k :: 0 <= k < |lines| ==>
        LineSpaced(words, lines, places[k], k, just, Avail(Avail1(), indentHang, k))
      ensures forall k :: 0 <= k < |lines| ==>
        RowPlaced(words, lines, places[k], k, just, Margin(left + indentLeft, indentHang, k),
                  left + width - indentRight)
    {
      hide Places, LineStart, Slack, Margin, IsLayout, LineOk, Count, Height, RowPlaced, LineSpaced;
      var avail1 := width - indentLeft - indentRight;
      var avail := avail1 - indentHang;
      var v := top;
      var i := 0;
      places, tops := [], [];
      NoLines(lines[..0]);
      for k := 0 to |lines|
        invariant i == Count(lines[..k]) && v == top + Height(lines[..k]) && |places| == |tops| == k
        invariant (i == 0) == (k == 0) && avail == Avail(avail1, indentHang, k)
        invariant forall m :: 0 <= m < k ==> tops[m] == top + Height(lines[..m])
        invariant forall m :: 0 <= m < k ==>
          LineSpaced(words, lines, places[m], m, just, Avail(avail1, indentHang, m))
        invariant forall m :: 0 <= m < k ==>
          RowPlaced(words, lines, places[m], m, just, Margin(left + indentLeft, indentHang, m),
                    left + indentLeft + avail1)
      {
        LineAt(words, lines, avail1, indentHang, k);
        var h, extra := StartLine(k, i, avail);
        var row := VisitLine(i, lines[k].count, h, extra, lines[k].stretch);
        assert RowOk(words, lines, avail1, indentHang, just, left + indentLeft, row, k);
        hide RowOk;
        RowIsSpaced(words, lines, avail1, indentHang, just, left + indentLeft, row, k);
        RowIsPlaced(words, lines, avail1, indentHang, just, left + indentLeft, row, k);
        places, tops := places + [row], tops + [v];
        v := v + lines[k].ascent + lines[k].descent;
        i := i + lines[k].count;
        avail := avail1;
      }
    }
  }
}
