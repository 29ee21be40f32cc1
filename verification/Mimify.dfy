/** The quoted-printable coding of Lib/mimify.py: quoting, soft line breaks, joining and decoding
    of body lines. */
module Mimify {
  const LIMIT: nat := 75

  // ---------- Characters ----------

  /** What has to be quoted: '=' and 8-bit characters, in a header also '?'. */
  predicate IsSpecial(c: char, header: bool) {
    c == '=' || (header && c == '?') || 160 <= c as int <= 255
  }

  function HexDigit(n: nat): char
    requires n < 16
  {
    if n < 10 then (n + '0' as int) as char else (n - 10 + 'A' as int) as char
  }

  predicate IsHex(c: char) {
    '0' <= c <= '9' || 'A' <= c <= 'F' || 'a' <= c <= 'f'
  }

  function HexValue(c: char): nat
    requires IsHex(c)
    ensures HexValue(c) < 16
  {
    if '0' <= c <= '9' then c as int - '0' as int
    else if 'A' <= c <= 'F' then c as int - 'A' as int + 10
    else c as int - 'a' as int + 10
  }

  function Triple(c: char): string
    requires c as int < 256
  {
    ['=', HexDigit(c as int / 16), HexDigit(c as int % 16)]
  }

  lemma TripleValue(c: char)
    requires c as int < 256
    ensures var t := Triple(c); IsHex(t[1]) && IsHex(t[2]) && 16 * HexValue(t[1]) + HexValue(t[2]) == c as int
  {
  }

  // ---------- Quoting ----------

  function Quote(s: string, header: bool): string {
    if s == "" then ""
    else (if IsSpecial(s[0], header) then Triple(s[0]) else [s[0]]) + Quote(s[1..], header)
  }

  predicate StartsWith(s: string, p: string) {
    |p| <= |s| && s[..|p|] == p
  }

  /** The whole line before it is broken up; an initial "From " loses its F to mailers. */
  function QuotedLine(line: string, header: bool): string {
    if StartsWith(line, "From ") then Triple('F') + Quote(line[1..], header) else Quote(line, header)
  }

  /** Every '=' starts a triple. */
  predicate WellFormed(e: string) {
    e == "" ||
    (if e[0] == '=' then |e| >= 3 && IsHex(e[1]) && IsHex(e[2]) && WellFormed(e[3..]) else WellFormed(e[1..]))
  }

  predicate IsTriple(s: string) {
    |s| >= 3 && s[0] == '=' && IsHex(s[1]) && IsHex(s[2])
  }

  function TripleChar(s: string): char
    requires IsTriple(s)
  {
    (16 * HexValue(s[1]) + HexValue(s[2])) as char
  }

  /** What decoding means: every triple stands for its character, all else for itself. */
  function Decode(s: string): string {
    if s == "" then ""
    else if IsTriple(s) then [TripleChar(s)] + Decode(s[3..])
    else [s[0]] + Decode(s[1..])
  }

  lemma {:induction false} QuoteWellFormed(s: string, header: bool)
    ensures WellFormed(Quote(s, header)) && Decode(Quote(s, header)) == s
  {
    if s != "" {
      QuoteWellFormed(s[1..], header);
      var rest := Quote(s[1..], header);
      if IsSpecial(s[0], header) {
        TripleValue(s[0]);
        assert (Triple(s[0]) + rest)[3..] == rest;
      } else {
        assert ([s[0]] + rest)[1..] == rest;
      }
      assert [s[0]] + s[1..] == s;
    }
  }

  lemma QuotedLineDecodes(line: string, header: bool)
    ensures WellFormed(QuotedLine(line, header)) && Decode(QuotedLine(line, header)) == line
  {
    QuoteWellFormed(line, header);
    if StartsWith(line, "From ") {
      QuoteWellFormed(line[1..], header);
      TripleValue('F');
      var rest := Quote(line[1..], header);
      assert (Triple('F') + rest)[3..] == rest;
      assert line[..5][0] == 'F';
      assert ['F'] + line[1..] == line;
    }
  }

  lemma PlainFirst(c: char, q: string)
    requires c != '='
    ensures WellFormed([c] + q) <==> WellFormed(q)
    ensures Decode([c] + q) == [c] + Decode(q)
  {
    assert ([c] + q)[1..] == q;
  }

  lemma TripleFirst(t: string, q: string)
    requires |t| == 3 && IsTriple(t)
    ensures WellFormed(t + q) <==> WellFormed(q)
    ensures Decode(t + q) == [TripleChar(t)] + Decode(q)
  {
    assert (t + q)[3..] == q;
  }

  lemma CutOff(a: string, k: nat, b: string)
    requires k <= |a|
    ensures a == a[..k] + a[k..] && a + b == a[..k] + (a[k..] + b)
  {
  }

  /** The first unit of a text: a triple, or another character. */
  function Unit(e: string): nat
    requires WellFormed(e) && e != ""
  {
    if e[0] == '=' then 3 else 1
  }

  lemma UnitOff(e: string)
    requires WellFormed(e) && e != ""
    ensures var k := Unit(e);
      && k <= |e| && WellFormed(e[k..])
      && if k == 3 then IsTriple(e[..3]) else e[0] != '='
  {
  }

  /** What a unit in front of a text does to it. */
  lemma UnitFirst(h: string, q: string)
    requires (|h| == 3 && IsTriple(h)) || (|h| == 1 && h[0] != '=')
    ensures WellFormed(h + q) <==> WellFormed(q)
    ensures Decode(h + q) == (if |h| == 3 then [TripleChar(h)] else h) + Decode(q)
  {
    if |h| == 3 {
      TripleFirst(h, q);
    } else {
      assert h == [h[0]];
      PlainFirst(h[0], q);
    }
  }

  lemma NothingFirst(b: string)
    ensures Decode("" + b) == Decode("") + Decode(b) && "" + b == b
  {
    assert "" + b == b && "" + Decode(b) == Decode(b);
  }

  lemma DecodedFirst(d: string, x: string, y: string)
    ensures d + (x + y) == d + x + y
  {
  }

  lemma {:induction false} WellFormedConcat(a: string, b: string)
    requires WellFormed(a)
    ensures Decode(a + b) == Decode(a) + Decode(b)
    ensures WellFormed(b) ==> WellFormed(a + b)
    decreases |a|
  {
    hide Decode, WellFormed, IsTriple, TripleChar;
    if a == "" {
      NothingFirst(b);
    } else {
      UnitOff(a);
      var k := Unit(a);
      var h, q := a[..k], a[k..];
      CutOff(a, k, b);
      WellFormedConcat(q, b);
      UnitFirst(h, q);
      UnitFirst(h, q + b);
      DecodedFirst(if |h| == 3 then [TripleChar(h)] else h, Decode(q), Decode(b));
    }
  }

  // ---------- Soft line breaks ----------

  /** The '=' of a well-formed text are at least three apart, so the search for a break, which
      steps back from 73 while it stands on or right after one, stops at 71 at the latest. */
  lemma {:induction false} EqualsApart(e: string, i: nat, j: nat)
    requires WellFormed(e) && i < j < |e| && e[i] == '=' && e[j] == '='
    ensures j >= i + 3
    decreases |e|
  {
    var k := if e[0] == '=' then 3 else 1;
    if i >= k {
      EqualsApart(e[k..], i - k, j - k);
    }
  }

  /** A place that is neither on nor right after an '=' lies between triples. */
  lemma {:induction false} CutWellFormed(e: string, b: nat)
    requires WellFormed(e) && 2 <= b <= |e| && e[b - 1] != '=' && e[b - 2] != '='
    ensures WellFormed(e[..b]) && WellFormed(e[b..])
    decreases |e|
  {
    var k := if e[0] == '=' then 3 else 1;
    if b >= k + 2 {
      CutWellFormed(e[k..], b - k);
      assert e[k..][..b - k] == e[..b][k..] && e[k..][b - k..] == e[b..];
    } else if e[0] == '=' {
      if b == 4 {
        assert e[..4][3..] == [e[3]] && [e[3]][1..] == "";
        assert e[3..][1..] == e[4..];
      } else {
        assert e[..3][3..] == "";
      }
    } else {
      assert e[..2][1..] == [e[1]] && [e[1]][1..] == "";
      assert e[1..][1..] == e[2..];
    }
  }

  /** Where the source breaks a line of at least 75 characters. */
  function BreakPoint(e: string): nat
    requires |e| >= LIMIT
  {
    if e[73] != '=' && e[72] != '=' then 74
    else if e[72] != '=' && e[71] != '=' then 73
    else 72
  }

  lemma BreakPointOk(e: string)
    requires WellFormed(e) && |e| >= LIMIT
    ensures var b := BreakPoint(e); 72 <= b <= 74 && WellFormed(e[..b]) && WellFormed(e[b..])
  {
    if e[73] == '=' && e[72] == '=' { EqualsApart(e, 72, 73); }
    if e[73] == '=' && e[71] == '=' { EqualsApart(e, 71, 73); }
    if e[72] == '=' && e[71] == '=' { EqualsApart(e, 71, 72); }
    if e[72] == '=' && e[70] == '=' { EqualsApart(e, 70, 72); }
    CutWellFormed(e, BreakPoint(e));
  }

  /** The pieces of a line, without the soft breaks between them. */
  function Pieces(e: string): (r: seq<string>)
    ensures r != []
    decreases |e|
  {
    if |e| < LIMIT then [e] else [e[..BreakPoint(e)]] + Pieces(e[BreakPoint(e)..])
  }

  /** Pieces with a soft break after each but the last. */
  function Softly(ps: seq<string>): string
    requires ps != []
  {
    if |ps| == 1 then ps[0] else ps[0] + "=\n" + Softly(ps[1..])
  }

  function Encode(line: string, header: bool): string {
    Softly(Pieces(QuotedLine(line, header)))
  }

  function Concat(ps: seq<string>): string {
    if ps == [] then "" else ps[0] + Concat(ps[1..])
  }

  /** A piece that is not the last is 72 to 74 characters long, so that with its soft break the
      line has at most 76, as section 5.1 of RFC 1521 wants; no piece cuts a triple. */
  lemma {:induction false} PiecesOk(e: string)
    requires WellFormed(e)
    ensures Concat(Pieces(e)) == e
    ensures forall i :: 0 <= i < |Pieces(e)| ==> WellFormed(Pieces(e)[i]) && |Pieces(e)[i]| <= 74
    ensures forall i :: 0 <= i < |Pieces(e)| - 1 ==> 72 <= |Pieces(e)[i]| && |Pieces(e)[i] + "=\n"| <= 76
    ensures |Pieces(e)| > 1 ==> Pieces(e)[|Pieces(e)| - 1] != ""
    decreases |e|
  {
    if |e| >= LIMIT {
      BreakPointOk(e);
      PiecesOk(e[BreakPoint(e)..]);
    } else {
      assert Pieces(e)[1..] == [];
    }
  }

  const UPPER: string := "0123456789ABCDEF"
  const LOWER: string := "0123456789abcdef"

  /** A triple is decoded in upper and in lower case, and an '=' before anything else stays. */
  lemma AnyCaseDecodes(i: nat, j: nat, rest: string)
    requires i < 16 && j < 16
    ensures Decode(['=', UPPER[i], UPPER[j]] + rest) == [(16 * i + j) as char] + Decode(rest)
    ensures Decode(['=', LOWER[i], LOWER[j]] + rest) == [(16 * i + j) as char] + Decode(rest)
    ensures Decode(['=', UPPER[i], LOWER[j]] + rest) == [(16 * i + j) as char] + Decode(rest)
    ensures Decode(['=', LOWER[i], UPPER[j]] + rest) == [(16 * i + j) as char] + Decode(rest)
  {
    CodeValue(i);
    CodeValue(j);
    hide IsHex, HexValue;
    TripleFirst(['=', UPPER[i], UPPER[j]], rest);
    TripleFirst(['=', LOWER[i], LOWER[j]], rest);
    TripleFirst(['=', UPPER[i], LOWER[j]], rest);
    TripleFirst(['=', LOWER[i], UPPER[j]], rest);
  }

  lemma CodeValue(i: nat)
    requires i < 16
    ensures IsHex(UPPER[i]) && HexValue(UPPER[i]) == i && IsHex(LOWER[i]) && HexValue(LOWER[i]) == i
  {
  }

  lemma LoneEqualsStays(c: char, rest: string)
    requires c !in UPPER && c !in LOWER
    ensures Decode(['=', c] + rest) == "=" + Decode([c] + rest)
  {
    HexIsCode(c);
    assert (['=', c] + rest)[1..] == [c] + rest;
  }

  lemma HexIsCode(c: char)
    ensures IsHex(c) ==> c == UPPER[HexValue(c)] || c == LOWER[HexValue(c)]
  {
  }

  // ---------- What must be quoted ----------

  /** The characters that may not go out as they are, by their codes: 61 is '=' and 63 is '?'. */
  predicate MustQuote(c: char, header: bool) {
    var n := c as int;
    n == 61 || 160 <= n <= 255 || (header && n == 63)
  }

  /** An upper-case hexadecimal digit. */
  predicate IsCode(c: char) {
    '0' <= c <= '9' || 'A' <= c <= 'F'
  }

  function Quoted(s: string, header: bool): nat {
    if s == "" then 0 else (if MustQuote(s[0], header) then 1 else 0) + Quoted(s[1..], header)
  }

  /** Of the characters that must be quoted only '=' goes out, and then as the first of a triple in
      upper case. */
  ghost predicate Safe(q: string, header: bool) {
    forall i :: 0 <= i < |q| && MustQuote(q[i], header) ==>
      q[i] == '=' && i + 2 < |q| && IsCode(q[i + 1]) && IsCode(q[i + 2])
  }

  lemma SafeJoin(a: string, b: string, header: bool)
    requires Safe(a, header) && Safe(b, header)
    ensures Safe(a + b, header)
  {
    var q := a + b;
    forall i | 0 <= i < |q| && MustQuote(q[i], header)
      ensures q[i] == '=' && i + 2 < |q| && IsCode(q[i + 1]) && IsCode(q[i + 2])
    {
      if i < |a| {
        assert a[i] == q[i] && a[i + 1] == q[i + 1] && a[i + 2] == q[i + 2];
      } else {
        var j := i - |a|;
        assert b[j] == q[i] && b[j + 1] == q[i + 1] && b[j + 2] == q[i + 2];
      }
    }
  }

  lemma TripleIsSafe(c: char, header: bool)
    requires c as int < 256
    ensures Safe(Triple(c), header) && |Triple(c)| == 3 && Triple(c)[0] == '='
  {
  }

  lemma UnitIsSafe(c: char, header: bool)
    ensures var u := if IsSpecial(c, header) then Triple(c) else [c];
      Safe(u, header) && |u| == if MustQuote(c, header) then 3 else 1
  {
    if IsSpecial(c, header) {
      TripleIsSafe(c, header);
    }
  }

  lemma {:induction false} QuoteIsSafe(s: string, header: bool)
    ensures Safe(Quote(s, header), header)
    ensures |Quote(s, header)| == |s| + 2 * Quoted(s, header)
    ensures Quoted(s, header) == 0 ==> Quote(s, header) == s
  {
    if s != "" {
      var u := if IsSpecial(s[0], header) then Triple(s[0]) else [s[0]];
      QuoteIsSafe(s[1..], header);
      UnitIsSafe(s[0], header);
      SafeJoin(u, Quote(s[1..], header), header);
      assert s == [s[0]] + s[1..];
    }
  }

  lemma FromStart(line: string, header: bool)
    requires StartsWith(line, "From ")
    ensures line != "" && Quoted(line, header) == Quoted(line[1..], header)
    ensures QuotedLine(line, header) == Triple('F') + Quote(line[1..], header)
  {
    assert line[..5][0] == 'F';
    hide Quote, Triple;
  }

  lemma NotFrom(q: string)
    requires q != "" && q[0] == '='
    ensures !StartsWith(q, "From ")
  {
    assert |q| >= 5 ==> q[..5][0] == q[0];
  }

  /** The whole line: everything that must be quoted is, and nothing else but the first character of
      an initial "From ". */
  lemma QuotedLineIsSafe(line: string, header: bool)
    ensures var q := QuotedLine(line, header);
      && Safe(q, header) && !StartsWith(q, "From ")
      && |q| == |line| + 2 * Quoted(line, header) + (if StartsWith(line, "From ") then 2 else 0)
      && (Quoted(line, header) == 0 && !StartsWith(line, "From ") ==> q == line)
  {
    hide Quote, Safe, Quoted, StartsWith;
    if StartsWith(line, "From ") {
      FromStart(line, header);
      TripleIsSafe('F', header);
      QuoteIsSafe(line[1..], header);
      SafeJoin(Triple('F'), Quote(line[1..], header), header);
      NotFrom(QuotedLine(line, header));
    } else {
      QuoteIsSafe(line, header);
      if StartsWith(Quote(line, header), "From ") {
        StartStays(line, header, "From ");
      }
    }
  }

  /** Quoting puts nothing at the start of a line but triples. */
  lemma {:induction false} StartStays(line: string, header: bool, p: string)
    requires StartsWith(Quote(line, header), p) && '=' !in p
    ensures StartsWith(line, p)
    decreases |p|
  {
    var q := Quote(line, header);
    if p != "" {
      assert q != "" && q[0] == p[0] by {
        assert q[..|p|][0] == p[0];
      }
      assert p[0] in p && p[0] != '=';
      assert q == [line[0]] + Quote(line[1..], header);
      assert q[1..] == Quote(line[1..], header);
      assert q[1..][..|p| - 1] == p[1..];
      StartStays(line[1..], header, p[1..]);
      assert line[..|p|] == [line[0]] + line[1..][..|p| - 1];
    }
  }

  /** Soft breaks add nothing but '=' and a newline. */
  lemma {:induction false} SoftlyAdds(ps: seq<string>, c: char)
    requires ps != [] && c in Softly(ps) && c != '=' && c != '\n'
    ensures c in Concat(ps)
  {
    assert |ps| == 1 ==> ps[1..] == [] && Concat(ps) == ps[0] + "";
    if |ps| > 1 && c !in ps[0] {
      SoftlyAdds(ps[1..], c);
    }
  }

  /** What goes out has no character that must be quoted, but for '='; a line that needs no quoting
      and no break goes out as it is; and no line goes out with "From " at its start. */
  lemma EncodeIsSafe(line: string, header: bool)
    ensures forall c :: c in Encode(line, header) ==> !(160 <= c as int <= 255) && (header ==> c != '?')
    ensures |line| < 75 && Quoted(line, header) == 0 && !StartsWith(line, "From ") ==> Encode(line, header) == line
    ensures !StartsWith(Encode(line, header), "From ")
  {
    var q := QuotedLine(line, header);
    QuotedLineIsSafe(line, header);
    QuotedLineDecodes(line, header);
    PiecesOk(q);
    forall c | c in Encode(line, header) ensures !(160 <= c as int <= 255) && (header ==> c != '?') {
      if c != '=' && c != '\n' {
        SoftlyAdds(Pieces(q), c);
        assert c in q;
      }
    }
    SoftlyStarts(q);
  }

  lemma SoftlyStarts(q: string)
    ensures StartsWith(Softly(Pieces(q)), "From ") ==> StartsWith(q, "From ")
    ensures |q| < 75 ==> Softly(Pieces(q)) == q
  {
    if |q| >= LIMIT {
      var b := BreakPoint(q);
      SoftlyCons(q[..b], Pieces(q[b..]));
      assert Softly(Pieces(q))[..5] == q[..5];
    }
  }

  // ---------- Reading the lines back ----------

  /** file.readline(): the next line with its newline, and the rest of the file. */
  function ReadLine(f: string): (r: (string, string))
    ensures f == r.0 + r.1
  {
    if f == "" then ("", "")
    else if f[0] == '\n' then (f[..1], f[1..])
    else
      var (l, rest) := ReadLine(f[1..]);
      ([f[0]] + l, rest)
  }

  predicate EndsSoftly(line: string) {
    |line| >= 2 && line[|line| - 2..] == "=\n"
  }

  function Unquoted(line: string): string {
    if StartsWith(line, "> ") then line[2..] else line
  }

  /** Joining a line with its continuations, each of which loses the quote prefix if it has one. */
  function Joined(line: string, rest: string): (string, string)
    decreases |line| + |rest|
  {
    if EndsSoftly(line) then
      var (l, r) := ReadLine(rest);
      Joined(line[..|line| - 2] + Unquoted(l), r)
    else (line, rest)
  }

  /** A body line as it comes from a file: a newline at the end, if anywhere, and none only at the
      end of the file. */
  predicate IsLine(line: string, tail: string) {
    (forall i :: 0 <= i < |line| - 1 ==> line[i] != '\n') &&
    (line == "" || line[|line| - 1] != '\n' ==> tail == "")
  }

  /** No continuation line starts with the quote prefix. */
  predicate NoQuotePrefix(ps: seq<string>) {
    forall i :: 0 <= i < |ps| ==> !StartsWith(ps[i], "> ")
  }

  lemma {:induction false} ReadLineStops(a: string, tail: string)
    requires NoNewline(a)
    ensures ReadLine(a + "\n" + tail) == (a + "\n", tail)
    ensures ReadLine(a) == (a, "")
  {
    if a != "" {
      ReadLineStops(a[1..], tail);
      assert (a + "\n" + tail)[1..] == a[1..] + "\n" + tail;
      assert [a[0]] + (a[1..] + "\n") == a + "\n";
      assert [a[0]] + a[1..] == a;
    }
  }

  /** A well-formed text does not end in a soft break. */
  lemma {:induction false} WellFormedEnd(e: string)
    requires WellFormed(e)
    ensures !EndsSoftly(e)
    decreases |e|
  {
    if e != "" {
      UnitOff(e);
      hide WellFormed;
      WellFormedEnd(e[Unit(e)..]);
      if EndsSoftly(e) {
        EndsLater(e);
      }
    }
  }

  lemma EndsLater(e: string)
    requires WellFormed(e) && e != "" && EndsSoftly(e)
    ensures Unit(e) <= |e| && EndsSoftly(e[Unit(e)..])
  {
    var k := Unit(e);
    assert e[|e| - 2] == '=' && e[|e| - 1] == '\n' by {
      assert e[|e| - 2..][0] == '=' && e[|e| - 2..][1] == '\n';
    }
    if |e| >= k + 2 {
      assert e[k..][|e| - k - 2..] == e[|e| - 2..];
    }
  }

  predicate NoNewline(s: string) {
    forall i :: 0 <= i < |s| ==> s[i] != '\n'
  }

  /** The pieces of one line as they stand in a file before the tail: whole triples, and a newline
      nowhere but at the end. */
  ghost predicate Readable(ps: seq<string>, tail: string)
    decreases |ps|
  {
    ps != [] && WellFormed(ps[0]) &&
    if |ps| == 1 then IsLine(ps[0], tail) else |ps[0]| >= 2 && NoNewline(ps[0]) && Readable(ps[1..], tail)
  }

  lemma ReadFirst(ps: seq<string>, tail: string)
    requires Readable(ps, tail)
    ensures |ps| == 1 ==> ReadLine(Softly(ps) + tail) == (ps[0], tail)
    ensures |ps| > 1 ==> ReadLine(Softly(ps) + tail) == (ps[0] + "=\n", Softly(ps[1..]) + tail)
  {
    hide ReadLine, WellFormed;
    var p := ps[0];
    if |ps| > 1 {
      ReadLineStops(p + "=", Softly(ps[1..]) + tail);
      assert Softly(ps) + tail == p + "=" + "\n" + (Softly(ps[1..]) + tail);
      assert p + "=" + "\n" == p + "=\n";
    } else if p != "" && p[|p| - 1] == '\n' {
      ReadLineStops(p[..|p| - 1], tail);
      assert p[..|p| - 1] + "\n" + tail == p + tail;
      assert p[..|p| - 1] + "\n" == p;
    } else {
      ReadLineStops(p, tail);
      assert p + tail == p;
    }
  }

  function Stripped(ps: seq<string>): string {
    if ps == [] then "" else Unquoted(ps[0]) + Stripped(ps[1..])
  }

  lemma UnquotedWellFormed(p: string)
    requires WellFormed(p)
    ensures WellFormed(Unquoted(p))
    ensures Decode(p) == if StartsWith(p, "> ") then p[..2] + Decode(Unquoted(p)) else Decode(Unquoted(p))
  {
    if StartsWith(p, "> ") {
      var q := p[2..];
      assert p == "> " + q && p[0] == '>' && p[1..] == " " + q && (" " + q)[1..] == q;
      PlainFirst('>', " " + q);
      PlainFirst(' ', q);
    }
  }

  lemma JoinedStep(acc: string, rest: string)
    ensures var (l, r) := ReadLine(rest);
      Joined(acc + "=\n", rest) == Joined(acc + Unquoted(l), r)
  {
    var line := acc + "=\n";
    assert line[|line| - 2..] == "=\n" && line[..|line| - 2] == acc;
  }

  lemma AssociateThree(a: string, b: string, c: string)
    ensures a + (b + c) == a + b + c
  {
  }

  lemma JoinedDone(line: string, rest: string)
    requires !EndsSoftly(line)
    ensures Joined(line, rest) == (line, rest)
  {
  }

  lemma UnquotedSoft(p: string)
    requires |p| >= 2
    ensures Unquoted(p + "=\n") == Unquoted(p) + "=\n"
  {
    assert (p + "=\n")[..2] == p[..2];
  }

  lemma StrippedStep(acc: string, ps: seq<string>)
    requires ps != []
    ensures acc + Stripped(ps) == (acc + Unquoted(ps[0])) + Stripped(ps[1..])
    ensures |ps| == 1 ==> acc + Stripped(ps) == acc + Unquoted(ps[0])
  {
    AssociateThree(acc, Unquoted(ps[0]), Stripped(ps[1..]));
    if |ps| == 1 {
      AddNothing(acc + Unquoted(ps[0]));
    }
  }

  lemma AddNothing(a: string)
    ensures a + "" == a
  {
  }

  /** One step of joining: either the last piece is reached, or another soft break. */
  lemma JoinedOnce(acc: string, ps: seq<string>, tail: string)
    requires WellFormed(acc) && Readable(ps, tail)
    ensures WellFormed(acc + Unquoted(ps[0]))
    ensures |ps| == 1 ==> Joined(acc + "=\n", Softly(ps) + tail) == (acc + Unquoted(ps[0]), tail)
    ensures |ps| > 1 ==>
      Joined(acc + "=\n", Softly(ps) + tail) == Joined(acc + Unquoted(ps[0]) + "=\n", Softly(ps[1..]) + tail)
  {
    var p := ps[0];
    assert WellFormed(p) && (|ps| > 1 ==> |p| >= 2);
    ReadFirst(ps, tail);
    JoinedStep(acc, Softly(ps) + tail);
    UnquotedWellFormed(p);
    WellFormedConcat(acc, Unquoted(p));
    hide WellFormed, ReadLine, Decode, Unquoted, Joined, Softly, Readable;
    if |ps| == 1 {
      WellFormedEnd(acc + Unquoted(p));
      JoinedDone(acc + Unquoted(p), tail);
    } else {
      UnquotedSoft(p);
      AssociateThree(acc, Unquoted(p), "=\n");
    }
  }

  /** From just before a soft break, joining puts the remaining pieces together. */
  lemma {:induction false} JoinedPieces(acc: string, ps: seq<string>, tail: string)
    requires WellFormed(acc) && Readable(ps, tail)
    ensures Joined(acc + "=\n", Softly(ps) + tail) == (acc + Stripped(ps), tail)
    decreases |ps|
  {
    JoinedOnce(acc, ps, tail);
    StrippedStep(acc, ps);
    if |ps| > 1 {
      hide WellFormed, ReadLine, Decode, Unquoted, Joined, Readable, Softly, Stripped;
      JoinedPieces(acc + Unquoted(ps[0]), ps[1..], tail);
    }
  }

  /** Every stripped prefix costs two characters. */
  lemma {:induction false} StrippedDecodes(ps: seq<string>)
    requires forall i :: 0 <= i < |ps| ==> WellFormed(ps[i])
    ensures |Decode(Stripped(ps))| <= |Decode(Concat(ps))|
    ensures |Decode(Stripped(ps))| == |Decode(Concat(ps))| <==> NoQuotePrefix(ps)
    ensures NoQuotePrefix(ps) ==> Stripped(ps) == Concat(ps)
  {
    if ps != [] {
      StrippedDecodes(ps[1..]);
      UnquotedWellFormed(ps[0]);
      WellFormedConcat(ps[0], Concat(ps[1..]));
      WellFormedConcat(Unquoted(ps[0]), Stripped(ps[1..]));
      assert NoQuotePrefix(ps) <==> !StartsWith(ps[0], "> ") && NoQuotePrefix(ps[1..]);
    }
  }

  /** Reading one logical line of an encoded body: a physical line, joined and decoded. */
  function ReadBodyLine(file: string): (string, string) {
    var (first, rest) := ReadLine(file);
    var (line, tail) := Joined(first, rest);
    (Decode(line), tail)
  }

  // ---------- The round trip ----------

  predicate NewlineOnlyLast(s: string) {
    forall i :: 0 <= i < |s| - 1 ==> s[i] != '\n'
  }

  predicate EndsLine(s: string) {
    s != "" && s[|s| - 1] == '\n'
  }

  lemma NewlinesConcat(t: string, q: string)
    requires NoNewline(t) && NewlineOnlyLast(q)
    ensures NewlineOnlyLast(t + q) && (q != "" ==> (EndsLine(t + q) <==> EndsLine(q)))
    ensures q == "" ==> !EndsLine(t + q)
  {
    var s := t + q;
    assert q != "" ==> s[|s| - 1] == q[|q| - 1];
    assert q == "" && t != "" ==> s[|s| - 1] == t[|t| - 1];
  }

  lemma TripleNoNewline(c: char)
    requires c as int < 256
    ensures NoNewline(Triple(c))
  {
  }

  lemma RestNewlines(s: string)
    requires NewlineOnlyLast(s) && s != ""
    ensures NewlineOnlyLast(s[1..]) && (|s| > 1 ==> s[0] != '\n' && (EndsLine(s[1..]) <==> EndsLine(s)))
  {
    var r := s[1..];
    assert forall i :: 0 <= i < |r| - 1 ==> r[i] == s[i + 1];
  }

  lemma {:induction false} QuoteKeepsNewlines(s: string, header: bool)
    requires NewlineOnlyLast(s)
    ensures NewlineOnlyLast(Quote(s, header)) && (EndsLine(Quote(s, header)) <==> EndsLine(s))
    ensures Quote(s, header) == "" <==> s == ""
  {
    if s != "" {
      RestNewlines(s);
      QuoteKeepsNewlines(s[1..], header);
      var q := Quote(s[1..], header);
      if IsSpecial(s[0], header) {
        TripleNoNewline(s[0]);
        NewlinesConcat(Triple(s[0]), q);
      } else if |s| > 1 {
        NewlinesConcat([s[0]], q);
      } else {
        assert [s[0]] + q == s;
      }
    }
  }

  lemma QuotedLineKeepsNewlines(line: string, header: bool)
    requires NewlineOnlyLast(line)
    ensures var e := QuotedLine(line, header); NewlineOnlyLast(e) && (EndsLine(e) <==> EndsLine(line))
  {
    if StartsWith(line, "From ") {
      RestNewlines(line);
      QuoteKeepsNewlines(line[1..], header);
      TripleNoNewline('F');
      NewlinesConcat(Triple('F'), Quote(line[1..], header));
    } else {
      QuoteKeepsNewlines(line, header);
    }
  }

  lemma {:induction false} PiecesReadable(e: string, tail: string)
    requires WellFormed(e) && NewlineOnlyLast(e) && (EndsLine(e) || tail == "")
    ensures Readable(Pieces(e), tail)
    decreases |e|
  {
    hide WellFormed;
    if |e| >= LIMIT {
      BreakPointOk(e);
      var b := BreakPoint(e);
      var rest := e[b..];
      assert NoNewline(e[..b]);
      assert forall i :: 0 <= i < |rest| - 1 ==> rest[i] == e[b + i];
      assert Pieces(e) == [e[..b]] + Pieces(rest);
      hide Pieces, BreakPoint;
      PiecesReadable(rest, tail);
      ReadableMore(e[..b], Pieces(rest), tail);
    }
  }

  lemma ReadableMore(p: string, ps: seq<string>, tail: string)
    requires Readable(ps, tail) && WellFormed(p) && |p| >= 2 && NoNewline(p)
    ensures Readable([p] + ps, tail)
  {
    assert ([p] + ps)[1..] == ps && ([p] + ps)[0] == p;
  }

  /** The law of the module: a body line that is encoded, written to a file, read back line by
      line, joined and decoded is the original, and what follows it in the file is untouched, if
      and only if no continuation line happens to start with the quote prefix. */
  lemma BodyLineRoundTrip(line: string, tail: string, header: bool)
    requires IsLine(line, tail)
    ensures var (back, rest) := ReadBodyLine(Encode(line, header) + tail);
      rest == tail && (back == line <==> NoQuotePrefix(Pieces(QuotedLine(line, header))[1..]))
  {
    var e := QuotedLine(line, header);
    var ps := Pieces(e);
    QuotedLineDecodes(line, header);
    QuotedLineKeepsNewlines(line, header);
    PiecesReadable(e, tail);
    ReadFirst(ps, tail);
    PiecesOk(e);
    hide Softly, ReadLine, QuotedLine, Pieces, Readable;
    if |ps| == 1 {
      assert Concat(ps) == ps[0] + Concat(ps[1..]) == ps[0];
      WellFormedEnd(ps[0]);
      JoinedDone(ps[0], tail);
    } else {
      JoinedPieces(ps[0], ps[1..], tail);
      StrippedDecodes(ps[1..]);
      WellFormedConcat(ps[0], Stripped(ps[1..]));
      WellFormedConcat(ps[0], Concat(ps[1..]));
    }
  }

  /** The substitution of encoded words that the reader applies to a physical line before joining
      finds nothing to replace: such a word starts with "=?". */
  lemma {:induction false} NoEncodedWord(e: string, i: nat)
    requires WellFormed(e) && i + 1 < |e + "=\n"|
    ensures !((e + "=\n")[i] == '=' && (e + "=\n")[i + 1] == '?')
    decreases |e|
  {
    if e != "" {
      var k := if e[0] == '=' then 3 else 1;
      if i >= k {
        assert (e + "=\n")[k..] == e[k..] + "=\n";
        NoEncodedWord(e[k..], i - k);
      }
    }
  }

  /** 74 letters before "> x": the break falls right before the prefix, and two characters are
      lost. */
  lemma QuotePrefixIsLost()
    ensures var line := seq(74, _ => 'a') + "> x\n";
      IsLine(line, "") && ReadBodyLine(Encode(line, false)).0 != line
  {
    var a := seq(74, _ => 'a');
    var line := a + "> x\n";
    assert !StartsWith(line, "From ") by { assert line[..5][0] == 'a'; }
    NothingToQuote(line);
    assert line[..74] == a && line[74..] == "> x\n";
    assert Pieces(line) == [a] + Pieces("> x\n") && Pieces("> x\n") == ["> x\n"];
    assert Pieces(line)[1..] == ["> x\n"];
    assert "> x\n"[..2] == "> ";
    assert ["> x\n"][0] == "> x\n" && !NoQuotePrefix(["> x\n"]);
    BodyLineRoundTrip(line, "", false);
    assert Encode(line, false) + "" == Encode(line, false);
  }

  lemma {:induction false} NothingToQuote(s: string)
    requires forall i :: 0 <= i < |s| ==> !IsSpecial(s[i], false)
    ensures Quote(s, false) == s
  {
    if s != "" {
      NothingToQuote(s[1..]);
      assert [s[0]] + s[1..] == s;
    }
  }

  // ---------- The methods ----------

  /** The index of the first special character, or -1. */
  function Search(s: string, header: bool): (i: int)
    ensures -1 <= i < |s| && (i >= 0 ==> IsSpecial(s[i], header))
    ensures forall j :: 0 <= j < (if i < 0 then |s| else i) ==> !IsSpecial(s[j], header)
  {
    if s == "" then -1
    else if IsSpecial(s[0], header) then 0
    else if Search(s[1..], header) < 0 then -1 else 1 + Search(s[1..], header)
  }

  lemma {:induction false} QuotePrefix(a: string, b: string, header: bool)
    requires forall j :: 0 <= j < |a| ==> !IsSpecial(a[j], header)
    ensures Quote(a + b, header) == a + Quote(b, header)
  {
    if a == "" {
      assert a + b == b;
    } else {
      assert (a + b)[1..] == a[1..] + b;
      QuotePrefix(a[1..], b, header);
      assert [a[0]] + (a[1..] + Quote(b, header)) == a + Quote(b, header);
    }
  }

  /** One round of the quoting loop. */
  lemma QuoteRound(newline: string, line: string, header: bool)
    ensures var i := Search(line, header);
      newline + Quote(line, header) ==
        if i < 0 then newline + line else newline + line[..i] + Triple(line[i]) + Quote(line[i + 1..], header)
  {
    var i := Search(line, header);
    if i < 0 {
      QuotePrefix(line, "", header);
      assert line + "" == line;
    } else {
      var a, rest := line[..i], Quote(line[i + 1..], header);
      assert line == a + line[i..];
      QuotePrefix(a, line[i..], header);
      QuoteSpecial(line[i..], header);
      assert line[i..][1..] == line[i + 1..];
      hide Quote, Search, IsSpecial;
      Associate(newline, a, Triple(line[i]), rest);
    }
  }

  lemma QuoteSpecial(s: string, header: bool)
    requires s != "" && IsSpecial(s[0], header)
    ensures Quote(s, header) == Triple(s[0]) + Quote(s[1..], header)
  {
  }

  lemma Associate(a: string, b: string, c: string, d: string)
    ensures a + (b + (c + d)) == a + b + c + d
  {
  }

  /** `mime_encode`. */
  method MimeEncode(line0: string, header: bool) returns (r: string)
    ensures r == Encode(line0, header)
  {
    var line := line0;
    var newline := "";
    if StartsWith(line, "From ") {
      newline := Triple('F');
      line := line[1..];
    }
    assert newline + Quote(line, header) == QuotedLine(line0, header);
    hide Quote, QuotedLine;
    var i := Search(line, header);
    while i >= 0
      invariant i == Search(line, header)
      invariant newline + Quote(line, header) == QuotedLine(line0, header)
      decreases |line|
    {
      QuoteRound(newline, line, header);
      newline := newline + line[..i] + Triple(line[i]);
      line := line[i + 1..];
      i := Search(line, header);
    }
    QuoteRound(newline, line, header);
    line := newline + line;
    QuotedLineDecodes(line0, header);
    r := SoftBreaks(line);
  }

  /** The second loop of `mime_encode`: break the line, searching backwards for a place that does
      not cut a triple. */
  method SoftBreaks(line0: string) returns (r: string)
    requires WellFormed(line0)
    ensures r == Softly(Pieces(line0))
  {
    var line := line0;
    var newline := "";
    while |line| >= LIMIT
      invariant WellFormed(line)
      invariant newline + Softly(Pieces(line)) == Softly(Pieces(line0))
      decreases |line|
    {
      var i := 73;
      while line[i] == '=' || line[i - 1] == '='
        invariant 71 <= i <= 73
        invariant i < 73 ==> line[73] == '=' || line[72] == '='
        invariant i < 72 ==> line[72] == '=' || line[71] == '='
        decreases i
      {
        NoFourthStep(line);
        i := i - 1;
      }
      BreakPointOk(line);
      hide WellFormed, BreakPoint;
      i := i + 1;
      BreakRound(line, newline);
      newline := newline + line[..i] + "=\n";
      line := line[i..];
    }
    r := newline + line;
  }

  lemma BreakRound(line: string, newline: string)
    requires |line| >= LIMIT
    ensures var b := BreakPoint(line);
      newline + Softly(Pieces(line)) == newline + line[..b] + "=\n" + Softly(Pieces(line[b..]))
  {
    var b := BreakPoint(line);
    var ps := Pieces(line[b..]);
    assert Pieces(line) == [line[..b]] + ps;
    SoftlyCons(line[..b], ps);
    hide Pieces, Softly, BreakPoint;
    AssociateFour(newline, line[..b], "=\n", Softly(ps));
  }

  lemma SoftlyCons(p: string, ps: seq<string>)
    requires ps != []
    ensures Softly([p] + ps) == p + "=\n" + Softly(ps)
  {
    assert ([p] + ps)[1..] == ps;
  }

  lemma AssociateFour(a: string, b: string, c: string, d: string)
    ensures a + (b + c + d) == a + b + c + d
  {
  }

  /** The backward search never gets past three places in a row. */
  lemma NoFourthStep(e: string)
    requires WellFormed(e) && |e| >= LIMIT
    ensures !((e[73] == '=' || e[72] == '=') && (e[72] == '=' || e[71] == '=') && (e[71] == '=' || e[70] == '='))
  {
    if e[73] == '=' && e[72] == '=' { EqualsApart(e, 72, 73); }
    if e[73] == '=' && e[71] == '=' { EqualsApart(e, 71, 73); }
    if e[72] == '=' && e[71] == '=' { EqualsApart(e, 71, 72); }
    if e[72] == '=' && e[70] == '=' { EqualsApart(e, 70, 72); }
  }

  /** The index of the first triple, or -1. */
  function SearchTriple(s: string): (i: int)
    ensures -1 <= i < |s| && (i >= 0 ==> IsTriple(s[i..]))
    ensures forall j :: 0 <= j < (if i < 0 then |s| else i) ==> !IsTriple(s[j..])
  {
    if s == "" then -1
    else if IsTriple(s) then 0
    else
      var k := SearchTriple(s[1..]);
      assert forall j :: 1 <= j < |s| ==> s[1..][j - 1..] == s[j..];
      if k < 0 then -1 else 1 + k
  }

  lemma {:induction false} DecodePrefix(s: string, i: nat)
    requires i <= |s| && forall j :: 0 <= j < i ==> !IsTriple(s[j..])
    ensures Decode(s) == s[..i] + Decode(s[i..])
  {
    if i == 0 {
      assert s[0..] == s;
    } else {
      assert s[0..] == s;
      var t := s[1..];
      forall j | 0 <= j < i - 1 ensures !IsTriple(t[j..]) {
        assert t[j..] == s[j + 1..];
      }
      assert Decode(s) == [s[0]] + Decode(t);
      hide Decode, IsTriple;
      DecodePrefix(t, i - 1);
      assert t[i - 1..] == s[i..] && [s[0]] + t[..i - 1] == s[..i];
      AssociateThree([s[0]], t[..i - 1], Decode(s[i..]));
    }
  }

  lemma DecodeRound(newline: string, line: string)
    ensures var i := SearchTriple(line);
      newline + Decode(line) ==
        if i < 0 then newline + line else newline + line[..i] + [TripleChar(line[i..])] + Decode(line[i + 3..])
  {
    var i := SearchTriple(line);
    if i < 0 {
      DecodePrefix(line, |line|);
      assert line[|line|..] == "" && line[..|line|] == line;
    } else {
      DecodePrefix(line, i);
      var a, rest := line[..i], Decode(line[i + 3..]);
      assert line[i..][3..] == line[i + 3..];
      assert Decode(line[i..]) == [TripleChar(line[i..])] + rest;
      hide Decode, SearchTriple;
      Associate(newline, a, [TripleChar(line[i..])], rest);
    }
  }

  /** `mime_decode`. */
  method MimeDecode(line0: string) returns (r: string)
    ensures r == Decode(line0)
  {
    hide Decode;
    var line := line0;
    var newline := "";
    var i := SearchTriple(line);
    while i >= 0
      invariant i == SearchTriple(line)
      invariant newline + Decode(line) == Decode(line0)
      decreases |line|
    {
      DecodeRound(newline, line);
      newline := newline + line[..i] + [TripleChar(line[i..])];
      line := line[i + 3..];
      i := SearchTriple(line);
    }
    DecodeRound(newline, line);
    r := newline + line;
  }

  /** The body loop of `unmimify_part` for one quoted-printable line without a reply prefix. */
  method UnmimifyLine(file: string) returns (line: string, rest: string)
    ensures (line, rest) == ReadBodyLine(file)
  {
    var l := ReadLine(file);
    line, rest := l.0, l.1;
    while EndsSoftly(line)
      invariant Joined(line, rest) == Joined(l.0, l.1)
      decreases |line| + |rest|
    {
      line := line[..|line| - 2];
      var next := ReadLine(rest);
      line, rest := line + Unquoted(next.0), next.1;
    }
    line := MimeDecode(line);
  }
}
