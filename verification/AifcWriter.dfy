/** The file format of Lib/aifc.py and the class Aifc_write, for uncompressed data. */
module AifcWriter {
  import opened AifcCodecs
  import opened Basics

  // ---------- The format ----------

  const FORM: seq<byte> := [70, 79, 82, 77]
  const AIFF: seq<byte> := [65, 73, 70, 70]
  const AIFC: seq<byte> := [65, 73, 70, 67]
  const FVER: seq<byte> := [70, 86, 69, 82]
  const COMM: seq<byte> := [67, 79, 77, 77]
  const SSND: seq<byte> := [83, 83, 78, 68]
  const MARK: seq<byte> := [77, 65, 82, 75]
  const NONE: seq<byte> := [78, 79, 78, 69]

  const VERSION: int := 0xA280_5140

  datatype Params = Params(aifc: bool, nchannels: nat, sampwidth: nat, framerate: nat, compname: seq<byte>)

  datatype Marker = Marker(id: int, pos: int, name: seq<byte>)

  /** What the setters check, and what a short or a length byte can hold. */
  predicate ValidParams(p: Params) {
    0 < p.nchannels < 0x1_0000 && 1 <= p.sampwidth <= 4 && 0 < p.framerate && |p.compname| < 256
  }

  function FrameSize(p: Params): nat {
    p.nchannels * p.sampwidth
  }

  /** Bytes for n frames, and whole frames in that many bytes. */
  function SoundSize(p: Params, n: int): int {
    n * FrameSize(p)
  }

  function FramesIn(p: Params, length: nat): nat
    requires ValidParams(p)
  {
    length / FrameSize(p)
  }

  function Pad(n: int): int {
    n + n % 2
  }

  function Padded(data: seq<byte>): seq<byte> {
    data + if |data| % 2 == 1 then [0] else []
  }

  function CommLength(p: Params): nat {
    if p.aifc then Pad(18 + 5 + |p.compname|) else 18
  }

  function FormLength(p: Params, datalength: int, marklength: int): int {
    4 + (if p.aifc then 12 else 0) + marklength + 8 + CommLength(p) + 16 + datalength
  }

  function Kind(p: Params): seq<byte> {
    if p.aifc then AIFC + FVER + Long(4) + Long(VERSION) else AIFF
  }

  /** From the form length to the frame count. */
  function Head(p: Params): (s: seq<byte>)
    requires ValidParams(p)
    ensures |s| == (if p.aifc then 16 else 4) + 10
  {
    Kind(p) + COMM + Long(CommLength(p)) + Short(p.nchannels)
  }

  function Rate(p: Params): Float {
    Float(false, p.framerate, 0)
  }

  function Compression(p: Params): (s: seq<byte>)
    requires ValidParams(p)
    ensures |s| + 18 == CommLength(p) && CommLength(p) % 2 == 0
  {
    if p.aifc then NONE + Pascal(p.compname) else []
  }

  /** From the frame count to the length of the sound data. */
  function Middle(p: Params): (s: seq<byte>)
    requires ValidParams(p)
    ensures |s| == CommLength(p) - 2
  {
    Short(p.sampwidth * 8) + WriteFloat(Rate(p)) + Compression(p) + SSND
  }

  function HeaderSize(p: Params): nat {
    8 + (if p.aifc then 16 else 4) + 14 + CommLength(p) + 10
  }

  /** From the length of the sound data to its first byte. */
  function SoundHeader(p: Params, datalength: int): (s: seq<byte>)
    requires ValidParams(p)
    ensures |s| == CommLength(p) + 10
  {
    Middle(p) + Long(datalength + 8) + (Long(0) + Long(0))
  }

  function CommHeader(p: Params, nframes: int, datalength: int): (s: seq<byte>)
    requires ValidParams(p)
    ensures |s| == HeaderSize(p) - 8
  {
    Head(p) + Long(nframes) + SoundHeader(p, datalength)
  }

  function Header(p: Params, nframes: int, datalength: int, marklength: int): (s: seq<byte>)
    requires ValidParams(p)
    ensures |s| == HeaderSize(p)
  {
    FORM + Long(FormLength(p, datalength, marklength)) + CommHeader(p, nframes, datalength)
  }

  predicate ValidMarker(m: Marker) {
    0 < m.id < 0x1_0000 && 0 <= m.pos && |m.name| < 256
  }

  predicate ValidMarkers(ms: seq<Marker>) {
    ms == [] || (ValidMarker(ms[0]) && ValidMarkers(ms[1..]))
  }

  function MarkEntry(m: Marker): seq<byte>
    requires ValidMarker(m)
  {
    Short(m.id) + Long(m.pos) + Pascal(m.name)
  }

  function MarkEntries(ms: seq<Marker>): seq<byte>
    requires ValidMarkers(ms)
  {
    if ms == [] then [] else MarkEntry(ms[0]) + MarkEntries(ms[1..])
  }

  function MarkChunk(ms: seq<Marker>): seq<byte>
    requires ValidMarkers(ms) && |ms| < 0x1_0000
  {
    if ms == [] then [] else MARK + Long(2 + |MarkEntries(ms)|) + Short(|ms|) + MarkEntries(ms)
  }

  lemma MarkersValid(ms: seq<Marker>, i: nat)
    requires ValidMarkers(ms) && i < |ms|
    ensures ValidMarkers(ms[i..]) && ValidMarker(ms[i]) && ValidMarkers(ms[i + 1..])
    ensures MarkEntries(ms[i..]) == MarkEntry(ms[i]) + MarkEntries(ms[i + 1..])
  {
    if i > 0 {
      MarkersValid(ms[1..], i - 1);
      assert ms[1..][i - 1..] == ms[i..] && ms[1..][i..] == ms[i + 1..];
    }
    assert ms[i..][1..] == ms[i + 1..];
  }

  /** The list after `setmark`: the marker with that number replaced, or else one more. */
  function PutMark(ms: seq<Marker>, m: Marker): seq<Marker> {
    if ms == [] then [m]
    else if ms[0].id == m.id then [m] + ms[1..]
    else [ms[0]] + PutMark(ms[1..], m)
  }

  function FindMark(ms: seq<Marker>, id: int): Option<Marker> {
    if ms == [] then None
    else if ms[0].id == id then Some(ms[0])
    else FindMark(ms[1..], id)
  }

  /** Setting a marker changes what is found under its number, and nothing else. */
  lemma {:induction false} PutThenFind(ms: seq<Marker>, m: Marker, id: int)
    ensures FindMark(PutMark(ms, m), id) == if id == m.id then Some(m) else FindMark(ms, id)
    ensures |PutMark(ms, m)| == |ms| + if FindMark(ms, m.id) == None then 1 else 0
  {
    if ms != [] {
      PutThenFind(ms[1..], m, id);
    }
  }

  lemma {:induction false} PutKeepsValid(ms: seq<Marker>, m: Marker)
    requires ValidMarkers(ms) && ValidMarker(m)
    ensures ValidMarkers(PutMark(ms, m))
  {
    if ms != [] {
      PutKeepsValid(ms[1..], m);
    }
  }

  /** The file with these parameters, sound data and markers. */
  function Encode(p: Params, data: seq<byte>, ms: seq<Marker>): seq<byte>
    requires ValidParams(p) && ValidMarkers(ms) && |ms| < 0x1_0000
  {
    Header(p, FramesIn(p, |data|), |Padded(data)|, |MarkChunk(ms)|) + Padded(data) + MarkChunk(ms)
  }

  /** The lengths in the header are those of the parts, and the chunk sizes are even. */
  lemma FormIsWhole(p: Params, data: seq<byte>, ms: seq<Marker>)
    requires ValidParams(p) && ValidMarkers(ms) && |ms| < 0x1_0000
    ensures |Encode(p, data, ms)| == 8 + FormLength(p, |Padded(data)|, |MarkChunk(ms)|)
  {
    hide MarkChunk, MarkEntries, ValidMarkers, FramesIn, Header, CommLength;
  }

  // ---------- An example ----------

  lemma LongIs(x: int)
    requires 0 <= x < TWO32
    ensures Long(x) == [x / 0x100_0000, x / 0x1_0000 % 256, x / 256 % 256, x % 256]
  {
    var a, b, c := x / 256, x / 0x1_0000, x / 0x100_0000;
    assert a / 256 == b && b / 256 == c && c % 256 == c;
    assert Bytes(0, c / 256) == [] && Bytes(1, c) == [c % 256];
    assert Bytes(2, b) == [c % 256, b % 256];
    assert Bytes(3, a) == [c % 256, b % 256, a % 256];
  }

  lemma BitsOf8000()
    ensures Bits(8000) == 13 && Pow2(13) == 8192
  {
    assert Bits(1) == 1 && Bits(3) == 2 && Bits(7) == 3 && Bits(15) == 4 && Bits(31) == 5 && Bits(62) == 6;
    assert Bits(125) == 7 && Bits(250) == 8 && Bits(500) == 9 && Bits(1000) == 10 && Bits(2000) == 11;
    assert Pow2(4) == 16 && Pow2(8) == 256 && Pow2(12) == 4096;
  }

  lemma HalvesOf8000()
    ensures var x := Float(false, 8000, 0);
      Exponent(x) == 13 && HighHalf(x) == 0xFA00_0000 && LowHalf(x) == 0 && ExponentField(x) == 0x400B
  {
    BitsOf8000();
    hide Bits, Pow2;
  }

  /** 8000 is 0xFA00 0000 0000 0000 times a power of two, and its leading bit stands for 2 to the 12. */
  lemma RateOf8000()
    ensures WriteFloat(Float(false, 8000, 0)) == [0x40, 0x0B] + [0xFA, 0, 0, 0] + [0, 0, 0, 0]
  {
    HalvesOf8000();
    LongIs(0xFA00_0000);
    LongIs(0);
    assert Short(0x400B) == [0x40, 0x0B];
    hide HighHalf, LowHalf, ExponentField, Exponent, Long, WriteFloat;
    FieldsWritten(Float(false, 8000, 0));
  }

  lemma FieldsWritten(x: Float)
    requires x.mant > 0 && Exponent(x) <= 16384 && 0 <= ExponentField(x) < 0x1_0000
    ensures WriteFloat(x) == Short(ExponentField(x)) + Long(HighHalf(x)) + Long(LowHalf(x))
  {
  }

  const EXAMPLE := Params(true, 1, 1, 8000, [97])
  const EXAMPLE_MARK := Marker(1, 2, [109])

  lemma HeadParts(p: Params)
    requires ValidParams(p) && p.aifc
    ensures Head(p) == AIFC + FVER + Long(4) + Long(VERSION) + COMM + Long(CommLength(p)) + Short(p.nchannels)
  {
    hide Long, CommLength;
  }

  lemma ExampleFields()
    ensures EXAMPLE.aifc && EXAMPLE.nchannels == 1 && ValidParams(EXAMPLE) && CommLength(EXAMPLE) == 24
    ensures Long(4) == [0, 0, 0, 4] && Long(VERSION) == [0xA2, 0x80, 0x51, 0x40] && Long(24) == [0, 0, 0, 24]
    ensures Short(1) == [0, 1] && Short(8) == [0, 8]
  {
    hide Long;
    LongIs(4);
    LongIs(VERSION);
    LongIs(24);
  }

  lemma ExampleHead()
    ensures ValidParams(EXAMPLE) && Head(EXAMPLE) == EXAMPLE_HEAD
  {
    ExampleFields();
    hide Head, Kind, Long, Short, CommLength, ValidParams;
    HeadParts(EXAMPLE);
  }

  lemma ExampleMiddle()
    ensures Middle(EXAMPLE) == EXAMPLE_MIDDLE
  {
    RateOf8000();
    assert Compression(EXAMPLE) == [78, 79, 78, 69, 1, 97];
    hide WriteFloat, Compression;
  }

  lemma OneMarkChunk(m: Marker)
    requires ValidMarker(m)
    ensures ValidMarkers([m])
    ensures MarkChunk([m]) == MARK + Long(2 + |MarkEntry(m)|) + Short(1) + (Short(m.id) + Long(m.pos) + Pascal(m.name))
  {
    assert [m][1..] == [];
    assert ValidMarkers([]);
    hide Long, Pascal, Short, ValidMarker;
    assert MarkEntries([m]) == MarkEntry(m) + [] == MarkEntry(m);
  }

  lemma ExampleMarkFields()
    ensures ValidMarker(EXAMPLE_MARK) && |MarkEntry(EXAMPLE_MARK)| == 8
    ensures EXAMPLE_MARK.id == 1 && Long(EXAMPLE_MARK.pos) == [0, 0, 0, 2] && Long(10) == [0, 0, 0, 10]
    ensures Short(1) == [0, 1] && Pascal(EXAMPLE_MARK.name) == [1, 109]
  {
    hide Long;
    LongIs(2);
    LongIs(10);
  }

  lemma ExampleMarks()
    ensures ValidMarkers([EXAMPLE_MARK])
    ensures MarkChunk([EXAMPLE_MARK]) == EXAMPLE_MARKS && |EXAMPLE_MARKS| == 18
  {
    ExampleMarkFields();
    hide MarkChunk, MarkEntry, MarkEntries, Long, Short, Pascal, ValidMarker, ValidMarkers;
    OneMarkChunk(EXAMPLE_MARK);
  }

  const EXAMPLE_HEAD: seq<byte> := [65, 73, 70, 67] + [70, 86, 69, 82] + [0, 0, 0, 4] + [0xA2, 0x80, 0x51, 0x40] +
                                   [67, 79, 77, 77] + [0, 0, 0, 24] + [0, 1]
  const EXAMPLE_MIDDLE: seq<byte> := [0, 8] + ([0x40, 0x0B] + [0xFA, 0, 0, 0] + [0, 0, 0, 0]) +
                                     [78, 79, 78, 69, 1, 97] + [83, 83, 78, 68]
  const EXAMPLE_MARKS: seq<byte> := [77, 65, 82, 75] + [0, 0, 0, 10] + [0, 1] + ([0, 1] + [0, 0, 0, 2] + [1, 109])

  lemma ExampleLongs()
    ensures Long(86) == [0, 0, 0, 86] && Long(3) == [0, 0, 0, 3] && Long(12) == [0, 0, 0, 12] && Long(0) == [0, 0, 0, 0]
  {
    LongIs(86);
    LongIs(3);
    LongIs(12);
    LongIs(0);
  }

  /** A whole file, byte by byte: three frames of mono 8-bit sound at 8000 frames a second, padded, with
      the compression name "a" and a marker "m" at frame 2. */
  lemma ExampleFile()
    ensures ValidParams(EXAMPLE) && ValidMarkers([EXAMPLE_MARK])
    ensures Encode(EXAMPLE, [1, 2, 3], [EXAMPLE_MARK])
      == [70, 79, 82, 77] + [0, 0, 0, 86] +
         (EXAMPLE_HEAD + [0, 0, 0, 3] + (EXAMPLE_MIDDLE + [0, 0, 0, 12] + ([0, 0, 0, 0] + [0, 0, 0, 0]))) +
         [1, 2, 3, 0] + EXAMPLE_MARKS
  {
    var p, data, ms := EXAMPLE, [1, 2, 3], [EXAMPLE_MARK];
    ExampleHead();
    ExampleMiddle();
    ExampleMarks();
    ExampleSizes();
    ExampleLongs();
    hide *;
    EncodeParts(p, data, ms);
  }

  lemma EncodeParts(p: Params, data: seq<byte>, ms: seq<Marker>)
    requires ValidParams(p) && ValidMarkers(ms) && |ms| < 0x1_0000
    ensures Encode(p, data, ms)
      == FORM + Long(FormLength(p, |Padded(data)|, |MarkChunk(ms)|)) +
         (Head(p) + Long(FramesIn(p, |data|)) + (Middle(p) + Long(|Padded(data)| + 8) + (Long(0) + Long(0)))) +
         Padded(data) + MarkChunk(ms)
  {
    hide Long, Head, Middle, MarkChunk, ValidMarkers, FramesIn, Padded, CommLength, FormLength, ValidParams;
  }

  lemma ExampleSizes()
    ensures FramesIn(EXAMPLE, 3) == 3 && Padded([1, 2, 3]) == [1, 2, 3, 0] && FormLength(EXAMPLE, 4, 18) == 86
  {
  }

  // ---------- Files ----------

  lemma WriteKeepsBefore(f: seq<byte>, pos: nat, s: seq<byte>)
    requires pos <= |f|
    ensures var g := WriteAt(f, pos, s);
      pos + |s| <= |g| && g[..pos + |s|] == f[..pos] + s && |g| == if pos + |s| <= |f| then |f| else pos + |s|
  {
  }

  lemma Replace(x: seq<byte>, y: seq<byte>, z: seq<byte>, y': seq<byte>)
    requires |y| == |y'|
    ensures WriteAt(x + y + z, |x|, y') == x + y' + z
  {
  }

  lemma WriteLeft(x: seq<byte>, y: seq<byte>, k: nat, s: seq<byte>)
    requires k + |s| <= |x|
    ensures WriteAt(x + y, k, s) == WriteAt(x, k, s) + y
  {
  }

  lemma WriteRight(x: seq<byte>, y: seq<byte>, k: nat, s: seq<byte>)
    requires k + |s| <= |y|
    ensures WriteAt(x + y, |x| + k, s) == x + WriteAt(y, k, s)
  {
  }

  /** A write inside the header leaves the stale bytes before it and everything after it. */
  lemma WriteInside(pre: seq<byte>, h: seq<byte>, rest: seq<byte>, k: nat, s: seq<byte>)
    requires k + |s| <= |h|
    ensures WriteAt(pre + h + rest, |pre| + k, s) == pre + WriteAt(h, k, s) + rest
  {
    WriteLeft(pre + h, rest, |pre| + k, s);
    WriteRight(pre, h, k, s);
  }

  /** A file with a header in the middle, given by its three lengths. */
  function Headed(p: Params, pre: seq<byte>, form: int, n: int, sound: int, rest: seq<byte>): (f: seq<byte>)
    requires ValidParams(p)
    ensures |f| == |pre| + HeaderSize(p) + |rest| && |pre| + 16 + |Head(p)| + |Middle(p)| <= |f|
  {
    pre + (FORM + Long(form) + CommHeader(p, n, sound)) + rest
  }

  lemma HeadedIs(p: Params, pre: seq<byte>, n: int, sound: int, marks: int, rest: seq<byte>)
    requires ValidParams(p)
    ensures Headed(p, pre, FormLength(p, sound, marks), n, sound, rest) == pre + Header(p, n, sound, marks) + rest
  {
  }

  lemma PatchForm(p: Params, pre: seq<byte>, form: int, n: int, sound: int, rest: seq<byte>, form': int)
    requires ValidParams(p)
    ensures WriteAt(Headed(p, pre, form, n, sound, rest), |pre| + 4, Long(form'))
         == Headed(p, pre, form', n, sound, rest)
  {
    hide CommHeader, Long, WriteAt, ValidParams, CommLength;
    WriteInside(pre, FORM + Long(form) + CommHeader(p, n, sound), rest, 4, Long(form'));
    Replace(FORM, Long(form), CommHeader(p, n, sound), Long(form'));
  }

  lemma PatchCount(p: Params, pre: seq<byte>, form: int, n: int, sound: int, rest: seq<byte>, n': int)
    requires ValidParams(p)
    ensures WriteAt(Headed(p, pre, form, n, sound, rest), |pre| + 8 + |Head(p)|, Long(n'))
         == Headed(p, pre, form, n', sound, rest)
  {
    hide SoundHeader, Head, Long, WriteAt, ValidParams, CommLength;
    var lead := FORM + Long(form);
    WriteInside(pre, lead + CommHeader(p, n, sound), rest, 8 + |Head(p)|, Long(n'));
    WriteRight(lead, CommHeader(p, n, sound), |Head(p)|, Long(n'));
    Replace(Head(p), Long(n), SoundHeader(p, sound), Long(n'));
  }

  lemma PatchSound(p: Params, pre: seq<byte>, form: int, n: int, sound: int, rest: seq<byte>, sound': int)
    requires ValidParams(p)
    ensures WriteAt(Headed(p, pre, form, n, sound, rest), |pre| + 12 + |Head(p)| + |Middle(p)|, Long(sound' + 8))
         == Headed(p, pre, form, n, sound', rest)
  {
    hide Head, Long, Middle, WriteAt, ValidParams, CommLength;
    var lead, head := FORM + Long(form), Head(p) + Long(n);
    WriteInside(pre, lead + CommHeader(p, n, sound), rest, 12 + |Head(p)| + |Middle(p)|, Long(sound' + 8));
    WriteRight(lead, CommHeader(p, n, sound), |head| + |Middle(p)|, Long(sound' + 8));
    WriteRight(head, SoundHeader(p, sound), |Middle(p)|, Long(sound' + 8));
    Replace(Middle(p), Long(sound + 8), Long(0) + Long(0), Long(sound' + 8));
  }

  predicate WholeFrames(p: Params, data: seq<byte>)
    requires ValidParams(p)
  {
    |data| == SoundSize(p, FramesIn(p, |data|))
  }

  lemma MoreFrames(p: Params, a: int, b: int)
    ensures SoundSize(p, a) + SoundSize(p, b) == SoundSize(p, a + b)
  {
  }

  lemma CountFrames(p: Params, data: seq<byte>, n: nat)
    requires ValidParams(p) && |data| == SoundSize(p, n)
    ensures FramesIn(p, |data|) == n
  {
    MultipleHasNoRest(n, FrameSize(p));
  }

  /** What follows the header once the data has been padded in place. */
  lemma PaddedInPlace(f: seq<byte>, top: seq<byte>, data: seq<byte>)
    requires |top| + |data| <= |f| <= |top| + |data| + |data| % 2
    requires f[..|top| + |data|] == top + data
    ensures (if |data| % 2 == 1 then WriteAt(f, |top| + |data|, [0]) else f)[|top|..] == Padded(data)
    ensures |data| % 2 == 0 ==> f == top + Padded(data)
    ensures |Padded(data)| == Pad(|data|)
  {
  }

  lemma PaddedStart(data: seq<byte>)
    ensures |data| <= |Padded(data)| <= |data| + |data| % 2 && Padded(data)[..|data|] == data
    ensures |Padded(data)| % 2 == 0
  {
  }

  lemma Join(pre: seq<byte>, h: seq<byte>, a: seq<byte>, b: seq<byte>)
    ensures pre + h + (a + b) == pre + (h + a + b)
  {
  }

  lemma EncodeIs(p: Params, pre: seq<byte>, data: seq<byte>, n: nat, ms: seq<Marker>)
    requires ValidParams(p) && ValidMarkers(ms) && |ms| < 0x1_0000 && |data| == SoundSize(p, n)
    ensures pre + Header(p, n, |Padded(data)|, |MarkChunk(ms)|) + (Padded(data) + MarkChunk(ms))
         == pre + Encode(p, data, ms)
  {
    CountFrames(p, data, n);
    hide Header, Padded, MarkChunk, ValidMarkers, ValidParams, SoundSize, FramesIn;
    Join(pre, Header(p, n, |Padded(data)|, |MarkChunk(ms)|), Padded(data), MarkChunk(ms));
  }

  lemma NoFrames(p: Params)
    ensures SoundSize(p, 0) == 0
  {
  }

  lemma Regroup3(t: seq<byte>, a: seq<byte>, b: seq<byte>, c: seq<byte>)
    ensures t + a + b + c == t + (a + b + c)
  {
    assert t + a + b == t + (a + b);
  }

  lemma Regroup4(t: seq<byte>, a: seq<byte>, b: seq<byte>, c: seq<byte>, d: seq<byte>)
    ensures t + a + b + c + d == t + (a + b + c + d)
  {
    assert t + a + b == t + (a + b);
    assert t + (a + b) + c == t + (a + b + c);
  }

  lemma PrefixKept(f: seq<byte>, g: seq<byte>, pos: nat, s: seq<byte>, n: nat)
    requires n <= pos <= |f| && pos + |s| <= |g| && g[..pos + |s|] == f[..pos] + s
    ensures g[..n] == f[..n]
  {
    assert g[..n] == g[..pos + |s|][..n];
  }

  lemma SplitAt(f: seq<byte>, n: nat)
    requires n <= |f|
    ensures f == f[..n] + f[n..]
  {
  }

  // ---------- The writer ----------

  class AifcWrite {
    const p: Params
    var file: seq<byte>
    var pos: nat
    var nframes: int
    var nframeswritten: nat
    var datawritten: nat
    var datalength: int
    var markers: seq<Marker>
    var marklength: nat
    var formLengthPos: nat
    var nframesPos: nat
    var ssndLengthPos: nat

    /** What was written before the last header, the sound data after it, and whether there is one. */
    ghost var prefix: seq<byte>
    ghost var data: seq<byte>
    ghost var started: bool

    /** The three lengths to patch are where they were noted. */
    ghost predicate Positions()
      reads this
    {
      && ValidParams(p)
      && formLengthPos == |prefix| + 4
      && nframesPos == |prefix| + 8 + |Head(p)|
      && ssndLengthPos == nframesPos + 4 + |Middle(p)|
    }

    ghost function Top(marks: nat): seq<byte>
      requires ValidParams(p)
      reads this
    {
      prefix + Header(p, nframes, datalength, marks)
    }

    ghost predicate Valid()
      reads this
    {
      && ValidParams(p)
      && marklength == 0 && datawritten == |data| == SoundSize(p, nframeswritten)
      && pos <= |file| <= pos + |data| % 2
      && (started ==> Positions() && file[..pos] == Top(0) + data)
      && (!started ==> file == [] && prefix == [] && data == [] && nframeswritten == 0)
      && (started ==> datalength % 2 == 0)
    }

    /** `initfp` and the setters. */
    constructor (p: Params, estimate: int)
      requires ValidParams(p)
      ensures Valid() && this.p == p && nframes == estimate
      ensures data == [] && markers == [] && !started && nframeswritten == 0 && file == [] && prefix == []
    {
      this.p := p;
      file, pos := [], 0;
      nframes, nframeswritten, datawritten, datalength := estimate, 0, 0, 0;
      markers, marklength := [], 0;
      formLengthPos, nframesPos, ssndLengthPos := 0, 0, 0;
      prefix, data, started := [], [], false;
    }

    method Write(s: seq<byte>)
      requires pos <= |file|
      modifies `file, `pos
      ensures file == WriteAt(old(file), old(pos), s) && pos == old(pos) + |s| <= |file|
      ensures file[..pos] == old(file[..pos]) + s
      ensures |file| == if pos <= |old(file)| then |old(file)| else pos
      ensures old(pos == |file|) ==> file == old(file) + s
    {
      WriteKeepsBefore(file, pos, s);
      file := file[..pos] + s + if pos + |s| <= |file| then file[pos + |s|..] else [];
      pos := pos + |s|;
    }

    method WriteFormLength(datalength: int) returns (commlength: nat)
      requires ValidParams(p) && pos <= |file|
      modifies `file, `pos
      ensures commlength == CommLength(p)
      ensures file == WriteAt(old(file), old(pos), Long(FormLength(p, datalength, marklength)))
      ensures pos == old(pos) + 4
      ensures old(pos == |file|) ==> file == old(file) + Long(FormLength(p, datalength, marklength))
    {
      var verslength;
      if p.aifc {
        commlength := 18 + 5 + |p.compname|;
        if commlength % 2 == 1 {
          commlength := commlength + 1;
        }
        verslength := 12;
      } else {
        commlength := 18;
        verslength := 0;
      }
      var length := EncodeLong(4 + verslength + marklength + 8 + commlength + 16 + datalength);
      Write(length);
    }

    method WriteHead(commlength: nat)
      requires ValidParams(p) && pos == |file| && commlength == CommLength(p)
      modifies `file, `pos
      ensures file == old(file) + Head(p) && pos == |file|
    {
      ghost var start := file;
      if p.aifc {
        Write(AIFC);
        Write(FVER);
        Write(Long(4));
        Write(Long(VERSION));
        Regroup4(start, AIFC, FVER, Long(4), Long(VERSION));
      } else {
        Write(AIFF);
      }
      assert file == start + Kind(p);
      Write(COMM);
      Write(Long(commlength));
      Write(Short(p.nchannels));
      hide Kind;
      Regroup4(start, Kind(p), COMM, Long(commlength), Short(p.nchannels));
    }

    method WriteCompression()
      requires ValidParams(p) && pos == |file|
      modifies `file, `pos
      ensures file == old(file) + Compression(p) && pos == |file|
    {
      hide Pascal;
      ghost var start := file;
      if p.aifc {
        Write(NONE);
        Write(Pascal(p.compname));
        assert start + NONE + Pascal(p.compname) == start + (NONE + Pascal(p.compname));
      }
    }

    method WriteMiddle()
      requires ValidParams(p) && pos == |file|
      modifies `file, `pos
      ensures file == old(file) + Middle(p) && pos == |file|
    {
      hide Compression, WriteFloat, CommLength;
      ghost var start := file;
      Write(Short(p.sampwidth * 8));
      Write(WriteFloat(Rate(p)));
      WriteCompression();
      Write(SSND);
      hide Short;
      Regroup4(start, Short(p.sampwidth * 8), WriteFloat(Rate(p)), Compression(p), SSND);
    }

    method WriteLong(x: int)
      requires pos <= |file|
      modifies `file, `pos
      ensures file == WriteAt(old(file), old(pos), Long(x)) && pos == old(pos) + 4 <= |file|
      ensures |file| == if pos <= |old(file)| then |old(file)| else pos
      ensures file[..pos] == old(file[..pos]) + Long(x)
      ensures old(pos == |file|) ==> file == old(file) + Long(x)
    {
      var s := EncodeLong(x);
      Write(s);
    }

    method WriteSoundHeader()
      requires ValidParams(p) && pos == |file|
      modifies `file, `pos, `ssndLengthPos
      ensures file == old(file) + SoundHeader(p, datalength) && pos == |file|
      ensures ssndLengthPos == |old(file)| + |Middle(p)|
    {
      ghost var start := file;
      hide Middle, Long, ValidParams;
      WriteMiddle();
      ssndLengthPos := pos;
      WriteLong(datalength + 8);
      ghost var here := file;
      WriteLong(0);
      WriteLong(0);
      assert here + Long(0) + Long(0) == here + (Long(0) + Long(0));
      Regroup3(start, Middle(p), Long(datalength + 8), Long(0) + Long(0));
    }

    method WriteCommHeader(commlength: nat)
      requires ValidParams(p) && pos == |file| && commlength == CommLength(p)
      modifies `file, `pos, `nframesPos, `ssndLengthPos
      ensures file == old(file) + CommHeader(p, nframes, datalength) && pos == |file|
      ensures nframesPos == |old(file)| + |Head(p)|
      ensures ssndLengthPos == nframesPos + 4 + |Middle(p)|
    {
      ghost var start := file;
      hide Head, Long, SoundHeader, ValidParams;
      WriteHead(commlength);
      nframesPos := pos;
      WriteLong(nframes);
      WriteSoundHeader();
      Regroup3(start, Head(p), Long(nframes), SoundHeader(p, datalength));
    }

    /** The estimate that goes into the header: the caller's, or else what is about to be written. */
    method Estimate(initlength: nat)
      requires ValidParams(p)
      modifies `nframes, `datalength
      ensures nframes == if old(nframes) == 0 then FramesIn(p, initlength) else old(nframes)
      ensures datalength == Pad(SoundSize(p, nframes))
    {
      if nframes == 0 {
        nframes := initlength / (p.nchannels * p.sampwidth);
      }
      datalength := nframes * (p.nchannels * p.sampwidth);
      if datalength % 2 == 1 {
        datalength := datalength + 1;
      }
    }

    method WriteHeader(initlength: nat)
      requires ValidParams(p) && pos == |file| && marklength == 0
      modifies `file, `pos, `nframes, `datalength, `formLengthPos, `nframesPos, `ssndLengthPos
      ensures file == old(file) + Header(p, nframes, datalength, 0) && pos == |file|
      ensures formLengthPos == |old(file)| + 4
      ensures nframesPos == |old(file)| + 8 + |Head(p)|
      ensures ssndLengthPos == nframesPos + 4 + |Middle(p)|
      ensures nframes == if old(nframes) == 0 then FramesIn(p, initlength) else old(nframes)
      ensures datalength == Pad(SoundSize(p, nframes))
    {
      ghost var start := file;
      hide ValidParams, Pad, Head, Middle, Long, FormLength, SoundSize, CommHeader, FramesIn;
      hide WriteAt, HeaderSize, CommLength;
      Write(FORM);
      Estimate(initlength);
      formLengthPos := pos;
      var commlength := WriteFormLength(datalength);
      WriteCommHeader(commlength);
      Regroup3(start, FORM, Long(FormLength(p, datalength, 0)), CommHeader(p, nframes, datalength));
    }

    /** A call while no frame has been written writes a header, even after an earlier one. */
    method EnsureHeaderWritten(datasize: nat)
      requires Valid()
      modifies `file, `pos, `nframes, `datalength, `formLengthPos, `nframesPos, `ssndLengthPos, `prefix, `started
      ensures Valid() && started
      ensures prefix == if nframeswritten == 0 then old(file) else old(prefix)
      ensures nframeswritten == 0 && old(nframes) == 0 ==> nframes == FramesIn(p, datasize)
      ensures nframeswritten != 0 || old(nframes) != 0 ==> nframes == old(nframes)
    {
      NoFrames(p);
      hide SoundSize, Header, Head, Middle, ValidParams, FramesIn;
      if nframeswritten == 0 {
        prefix, started := file, true;
        WriteHeader(datasize);
        assert file[..pos] == Top(0) + data;
      }
    }

    method WriteLongAt(at: nat, x: int)
      requires at <= |file|
      modifies `file, `pos
      ensures file == WriteAt(old(file), at, Long(x))
    {
      pos := at;
      WriteLong(x);
    }

    method PatchLengths(length: nat, ghost rest: seq<byte>)
      requires Positions() && file == Headed(p, prefix, FormLength(p, datalength, 0), nframes, datalength, rest)
      modifies `file, `pos
      ensures file == Headed(p, prefix, FormLength(p, length, marklength), nframeswritten, length, rest)
    {
      hide Headed, Head, Middle, Long, WriteAt, FormLength, CommLength, HeaderSize, ValidParams;
      hide CommHeader, Header;
      ghost var form, form' := FormLength(p, datalength, 0), FormLength(p, length, marklength);
      PatchForm(p, prefix, form, nframes, datalength, rest, form');
      PatchCount(p, prefix, form', nframes, datalength, rest, nframeswritten);
      PatchSound(p, prefix, form', nframeswritten, datalength, rest, length);
      pos := formLengthPos;
      var _ := WriteFormLength(length);
      WriteLongAt(nframesPos, nframeswritten);
      WriteLongAt(ssndLengthPos, length + 8);
    }

    /** Brings the three lengths in the header up to date, after padding the data. */
    method PatchHeader()
      requires Positions() && |prefix| + HeaderSize(p) <= pos <= |file|
      requires file[..|prefix| + HeaderSize(p)] == Top(0)
      requires |file| <= pos + datawritten % 2 || datawritten % 2 == 0
      modifies `file, `pos, `nframes, `datalength
      ensures pos == old(pos) && nframes == nframeswritten && datalength == Pad(datawritten)
      ensures file == Top(marklength)
        + old(if datawritten % 2 == 1 then WriteAt(file, pos, [0]) else file)[|prefix| + HeaderSize(p)..]
    {
      hide Header, Head, Middle, FormLength, Long, ValidParams, Headed, HeaderSize, CommLength, WriteAt;
      ghost var before := file;
      var curpos, length := pos, datawritten;
      if datawritten % 2 == 1 {
        length := datawritten + 1;
        Write([0]);
        PrefixKept(before, file, curpos, [0], |prefix| + HeaderSize(p));
      }
      ghost var rest := file[|prefix| + HeaderSize(p)..];
      SplitAt(file, |prefix| + HeaderSize(p));
      HeadedIs(p, prefix, nframes, datalength, 0, rest);
      HeadedIs(p, prefix, nframeswritten, length, marklength, rest);
      if length == datalength && nframes == nframeswritten && marklength == 0 {
        pos := curpos;
        return;
      }
      PatchLengths(length, rest);
      pos := curpos;
      nframes, datalength := nframeswritten, length;
    }

    method WriteFramesRaw(chunk: seq<byte>)
      requires Valid() && WholeFrames(p, chunk)
      modifies `file, `pos, `nframes, `nframeswritten, `datawritten, `datalength
      modifies `formLengthPos, `nframesPos, `ssndLengthPos, `prefix, `data, `started
      ensures Valid() && started && data == old(data) + chunk
      ensures nframeswritten == old(nframeswritten) + FramesIn(p, |chunk|)
      ensures prefix == if old(nframeswritten) == 0 then old(file) else old(prefix)
    {
      hide SoundSize, FramesIn, Header, Head, Middle, ValidParams, WriteAt;
      EnsureHeaderWritten(|chunk|);
      ghost var top := Top(0);
      assert top + data + chunk == top + (data + chunk);
      MoreFrames(p, nframeswritten, FramesIn(p, |chunk|));
      assert 0 <= FramesIn(p, |chunk|);
      Write(chunk);
      nframeswritten := nframeswritten + FramesIn(p, |chunk|);
      datawritten := datawritten + |chunk|;
      data := data + chunk;
    }

    /** The end of `writeframes`. */
    method UpdateHeader()
      requires Valid() && started
      modifies `file, `pos, `nframes, `datalength
      ensures Valid() && nframes == nframeswritten && datalength == |Padded(data)|
      ensures file == Top(0) + Padded(data)
    {
      hide SoundSize, FramesIn, Header, Head, Middle, ValidParams, WriteAt, CommLength, HeaderSize, Padded;
      PaddedInPlace(file, Top(0), data);
      PaddedStart(data);
      if nframeswritten != nframes || datalength != datawritten {
        PatchHeader();
      }
      assert file[..pos] == Top(0) + data;
    }

    /** After this the file is complete, but for markers. */
    method WriteFrames(chunk: seq<byte>)
      requires Valid() && WholeFrames(p, chunk)
      modifies `file, `pos, `nframes, `nframeswritten, `datawritten, `datalength
      modifies `formLengthPos, `nframesPos, `ssndLengthPos, `prefix, `data, `started
      ensures Valid() && started && data == old(data) + chunk
      ensures nframeswritten == old(nframeswritten) + FramesIn(p, |chunk|)
      ensures prefix == if old(nframeswritten) == 0 then old(file) else old(prefix)
      ensures file == prefix + Encode(p, data, [])
    {
      hide SoundSize, FramesIn, Header, Head, Middle, ValidParams, WriteAt, CommLength, HeaderSize;
      hide Padded, Encode;
      WriteFramesRaw(chunk);
      UpdateHeader();
      EncodeIs(p, prefix, data, nframeswritten, []);
      assert Padded(data) + MarkChunk([]) == Padded(data);
    }

    method SetMark(id: int, at: int, name: seq<byte>) returns (ok: bool)
      modifies `markers
      ensures ok == (id > 0 && at >= 0)
      ensures markers == if ok then PutMark(old(markers), Marker(id, at, name)) else old(markers)
    {
      if id <= 0 || at < 0 {
        return false;
      }
      ghost var m := Marker(id, at, name);
      var i := 0;
      while i < |markers|
        invariant i <= |markers| && markers == old(markers)
        invariant PutMark(markers, m) == markers[..i] + PutMark(markers[i..], m)
      {
        if id == markers[i].id {
          markers := markers[i := Marker(id, at, name)];
          return true;
        }
        assert markers[i..][1..] == markers[i + 1..];
        i := i + 1;
      }
      markers := markers + [Marker(id, at, name)];
      return true;
    }

    method MarkersLength() returns (length: nat)
      requires ValidMarkers(markers)
      ensures length == 2 + |MarkEntries(markers)|
    {
      length := 2;
      var i := 0;
      assert markers[0..] == markers;
      while i < |markers|
        invariant i <= |markers| && ValidMarkers(markers[i..])
        invariant length + |MarkEntries(markers[i..])| == 2 + |MarkEntries(markers)|
      {
        MarkersValid(markers, i);
        var m := markers[i];
        length := length + |m.name| + 1 + 6;
        if |m.name| % 2 == 0 {
          length := length + 1;
        }
        i := i + 1;
      }
    }

    method WriteMarker(m: Marker, ghost rest: seq<byte>)
      requires ValidMarker(m) && pos == |file|
      modifies `file, `pos
      ensures file + rest == old(file) + (MarkEntry(m) + rest) && pos == |file|
    {
      ghost var start := file;
      Write(Short(m.id));
      WriteLong(m.pos);
      Write(Pascal(m.name));
      Regroup3(start, Short(m.id), Long(m.pos), Pascal(m.name));
      assert start + MarkEntry(m) + rest == start + (MarkEntry(m) + rest);
    }

    method WriteEntries()
      requires ValidMarkers(markers) && pos == |file|
      modifies `file, `pos
      ensures file == old(file) + MarkEntries(markers) && pos == |file|
    {
      var i := 0;
      assert markers[0..] == markers;
      while i < |markers|
        invariant i <= |markers| && ValidMarkers(markers[i..]) && pos == |file|
        invariant file + MarkEntries(markers[i..]) == old(file) + MarkEntries(markers)
      {
        MarkersValid(markers, i);
        WriteMarker(markers[i], MarkEntries(markers[i + 1..]));
        i := i + 1;
      }
    }

    method WriteMarkHead(length: nat)
      requires pos == |file| && |markers| < 0x1_0000
      modifies `file, `pos
      ensures file == old(file) + (MARK + Long(length) + Short(|markers|)) && pos == |file|
    {
      hide Long, Short, WriteAt;
      ghost var start := file;
      Write(MARK);
      WriteLong(length);
      Write(Short(|markers|));
      Regroup3(start, MARK, Long(length), Short(|markers|));
    }

    method WriteMarkers()
      requires ValidMarkers(markers) && |markers| < 0x1_0000 && pos == |file| && marklength == 0
      modifies `file, `pos, `marklength
      ensures file == old(file) + MarkChunk(markers) && pos == |file|
      ensures marklength == |MarkChunk(markers)|
    {
      if |markers| == 0 {
        return;
      }
      hide MarkEntries, ValidMarkers, Long, Short, WriteAt;
      ghost var start := file;
      var length := MarkersLength();
      marklength := length + 8;
      WriteMarkHead(length);
      WriteEntries();
      ghost var lead, entries := MARK + Long(length) + Short(|markers|), MarkEntries(markers);
      assert start + lead + entries == start + (lead + entries);
    }

    /** The last byte of `close`, where the data has an odd length. */
    method PadData()
      requires Valid() && started
      modifies `file, `pos, `datawritten
      ensures file == Top(0) + Padded(data) && pos == |file| && datawritten == |Padded(data)|
    {
      hide SoundSize, Header, Head, Middle, ValidParams, CommLength, HeaderSize;
      ghost var top := Top(0);
      if datawritten % 2 == 1 {
        assert top + data + [0] == top + (data + [0]);
        Write([0]);
        datawritten := datawritten + 1;
      }
    }

    /** The last test of `close`. */
    method PatchClosed(ghost rest: seq<byte>)
      requires Positions() && file == Top(0) + rest && pos == |file| && datawritten % 2 == 0
      modifies `file, `pos, `nframes, `datalength
      ensures file == prefix + Header(p, nframeswritten, datawritten, marklength) + rest
    {
      hide Header, Head, Middle, ValidParams, CommLength, HeaderSize;
      if nframeswritten != nframes || datalength != datawritten || marklength != 0 {
        PatchHeader();
      }
    }

    method Close()
      requires Valid() && ValidMarkers(markers) && |markers| < 0x1_0000
      modifies `file, `pos, `nframes, `datawritten, `datalength, `marklength
      modifies `formLengthPos, `nframesPos, `ssndLengthPos, `prefix, `started
      ensures file == prefix + Encode(p, data, markers)
      ensures prefix == if nframeswritten == 0 then old(file) else old(prefix)
    {
      hide SoundSize, FramesIn, Header, Head, Middle, ValidParams, CommLength, HeaderSize, Padded;
      hide Encode, MarkChunk, ValidMarkers;
      EnsureHeaderWritten(0);
      PadData();
      PaddedStart(data);
      ghost var top, sound, marks := Top(0), Padded(data), MarkChunk(markers);
      WriteMarkers();
      assert top + sound + marks == top + (sound + marks);
      PatchClosed(sound + marks);
      EncodeIs(p, prefix, data, nframeswritten, markers);
    }
  }

  // ---------- Whole runs ----------

  datatype Op = Raw(data: seq<byte>) | Frames(data: seq<byte>) | Mark(marker: Marker)

  predicate ValidOps(p: Params, ops: seq<Op>)
    requires ValidParams(p)
  {
    ops == [] ||
    ((match ops[0]
      case Mark(m) => ValidMarker(m)
      case Raw(d) => WholeFrames(p, d)
      case Frames(d) => WholeFrames(p, d))
     && ValidOps(p, ops[1..]))
  }

  function SoundOf(ops: seq<Op>): seq<byte> {
    if ops == [] then []
    else (if ops[0].Mark? then [] else ops[0].data) + SoundOf(ops[1..])
  }

  function MarkersOf(ops: seq<Op>, ms: seq<Marker>): seq<Marker> {
    if ops == [] then ms
    else MarkersOf(ops[1..], if ops[0].Mark? then PutMark(ms, ops[0].marker) else ms)
  }

  lemma {:induction false} MarkersOfValid(p: Params, ops: seq<Op>, ms: seq<Marker>)
    requires ValidParams(p) && ValidOps(p, ops) && ValidMarkers(ms)
    ensures ValidMarkers(MarkersOf(ops, ms))
    decreases |ops|
  {
    if ops != [] {
      hide ValidParams, ValidMarker, WholeFrames;
      if ops[0].Mark? {
        PutKeepsValid(ms, ops[0].marker);
      }
      MarkersOfValid(p, ops[1..], if ops[0].Mark? then PutMark(ms, ops[0].marker) else ms);
    }
  }

  lemma AllMarkersValid(p: Params, ops: seq<Op>)
    requires ValidParams(p) && ValidOps(p, ops)
    ensures ValidMarkers(MarkersOf(ops, []))
  {
    hide ValidOps, MarkersOf, ValidParams;
    MarkersOfValid(p, ops, []);
  }

  lemma {:induction false} SoundOfWhole(p: Params, ops: seq<Op>)
    requires ValidParams(p) && ValidOps(p, ops)
    ensures WholeFrames(p, SoundOf(ops))
  {
    if ops == [] {
      CountFrames(p, [], 0);
    } else {
      SoundOfWhole(p, ops[1..]);
      hide ValidParams, SoundSize, FramesIn;
      if !ops[0].Mark? {
        WholeTogether(p, ops[0].data, SoundOf(ops[1..]));
      } else {
        assert [] + SoundOf(ops[1..]) == SoundOf(ops[1..]);
      }
    }
  }

  lemma WholeTogether(p: Params, a: seq<byte>, b: seq<byte>)
    requires ValidParams(p) && WholeFrames(p, a) && WholeFrames(p, b)
    ensures WholeFrames(p, a + b)
  {
    var m, n := FramesIn(p, |a|), FramesIn(p, |b|);
    hide SoundSize, FramesIn, ValidParams;
    MoreFrames(p, m, n);
    CountFrames(p, a + b, m + n);
  }

  /** No write of zero frames comes first. */
  predicate StartsWithSound(ops: seq<Op>) {
    ops == [] || if ops[0].Mark? then StartsWithSound(ops[1..]) else ops[0].data != []
  }

  lemma SomeFrames(p: Params, n: nat)
    requires ValidParams(p)
    ensures SoundSize(p, n) == 0 <==> n == 0
  {
    if n > 0 {
      LeTimes(1, FrameSize(p), n);
    }
  }

  method Apply(w: AifcWrite, op: Op)
    requires w.Valid() && ValidOps(w.p, [op])
    modifies w
    ensures w.Valid() && (w.nframeswritten == 0 <==> w.data == [])
    ensures w.data == old(w.data) + (if op.Mark? then [] else op.data)
    ensures w.markers == if op.Mark? then PutMark(old(w.markers), op.marker) else old(w.markers)
    ensures w.started == (!op.Mark? || old(w.started))
    ensures w.prefix == if op.Mark? || old(w.nframeswritten) > 0 then old(w.prefix) else old(w.file)
    ensures op.Mark? ==> w.file == old(w.file)
    ensures w.started <==> w.file != []
    ensures !w.started ==> w.data == [] && w.prefix == []
  {
    hide SoundSize, FramesIn, ValidParams;
    match op {
      case Mark(m) =>
        var _ := w.SetMark(m.id, m.pos, m.name);
      case Raw(d) =>
        w.WriteFramesRaw(d);
      case Frames(d) =>
        w.WriteFrames(d);
    }
    SomeFrames(w.p, w.nframeswritten);
  }

  lemma NoOps(data: seq<byte>, ms: seq<Marker>)
    ensures data + SoundOf([]) == data && MarkersOf([], ms) == ms && StartsWithSound([])
  {
  }

  lemma RunStep(ops: seq<Op>, i: nat, data: seq<byte>, ms: seq<Marker>)
    requires i < |ops|
    ensures var op := ops[i];
      && data + SoundOf(ops[i..]) == data + (if op.Mark? then [] else op.data) + SoundOf(ops[i + 1..])
      && MarkersOf(ops[i..], ms) == MarkersOf(ops[i + 1..], if op.Mark? then PutMark(ms, op.marker) else ms)
      && (StartsWithSound(ops[i..]) <==> if op.Mark? then StartsWithSound(ops[i + 1..]) else op.data != [])
  {
    assert ops[i..][1..] == ops[i + 1..];
    hide PutMark;
  }

  lemma OpsValid(p: Params, ops: seq<Op>, i: nat)
    requires ValidParams(p) && i < |ops| && ValidOps(p, ops[i..])
    ensures ValidOps(p, [ops[i]]) && ValidOps(p, ops[i + 1..])
  {
    assert ops[i..][1..] == ops[i + 1..];
    hide ValidParams, ValidMarker, WholeFrames;
  }

  lemma NothingBefore(a: seq<byte>, b: seq<byte>)
    ensures a + b == b <==> a == []
  {
    if a == [] {
      assert a + b == b;
    } else {
      assert |a + b| > |b|;
    }
  }

  /** A whole run, for any estimate and any mix of writes and markers: the file is complete, its
      three lengths right, if and only if no write of zero frames came first. */
  method WriteAll(p: Params, estimate: int, ops: seq<Op>) returns (file: seq<byte>)
    requires ValidParams(p) && ValidOps(p, ops) && |MarkersOf(ops, [])| < 0x1_0000
    ensures ValidMarkers(MarkersOf(ops, []))
    ensures file == Encode(p, SoundOf(ops), MarkersOf(ops, [])) <==> StartsWithSound(ops)
  {
    hide ValidOps, ValidMarkers, ValidParams, SoundOf, MarkersOf, StartsWithSound, Encode, PutMark;
    hide AifcWrite.Valid;
    AllMarkersValid(p, ops);
    var w := new AifcWrite(p, estimate);
    var i := 0;
    assert ops[0..] == ops;
    assert [] + SoundOf(ops) == SoundOf(ops);
    while i < |ops|
      invariant i <= |ops| && w.p == p && w.Valid() && ValidOps(p, ops[i..])
      invariant (w.started <==> w.file != []) && (w.nframeswritten == 0 <==> w.data == [])
      invariant !w.started ==> w.data == [] && w.prefix == []
      invariant w.data + SoundOf(ops[i..]) == SoundOf(ops)
      invariant MarkersOf(ops[i..], w.markers) == MarkersOf(ops, [])
      invariant !w.started ==> (StartsWithSound(ops) <==> StartsWithSound(ops[i..]))
      invariant w.started && w.nframeswritten == 0 ==> !StartsWithSound(ops)
      invariant w.started && w.nframeswritten > 0 ==> (StartsWithSound(ops) <==> w.prefix == [])
    {
      OpsValid(p, ops, i);
      RunStep(ops, i, w.data, w.markers);
      Apply(w, ops[i]);
      i := i + 1;
    }
    assert ops[i..] == [];
    NoOps(w.data, w.markers);
    w.Close();
    file := w.file;
    NothingBefore(w.prefix, Encode(p, w.data, w.markers));
  }
}
