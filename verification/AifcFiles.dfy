/** What the class Aifc_read makes of a file that Aifc_write closed, in Lib/aifc.py. */
module AifcFiles {
  import opened AifcCodecs
  import opened AifcWriter
  import opened AifcReader
  import opened Basics

  // ---------- Fields ----------

  lemma ShortAt(b: seq<byte>, i: nat, x: int)
    requires 0 <= x < 0x1_0000 && i + 2 <= |b| && b[i..i + 2] == Short(x)
    ensures Number(b, i, 2) == Some(x) && (x < 0x8000 ==> SignedShort(x) == x)
  {
    ShortRoundTrip(x);
  }

  lemma LongAt(b: seq<byte>, i: nat, x: nat)
    requires i + 4 <= |b| && b[i..i + 4] == Long(x)
    ensures Number(b, i, 4) == Some(x % TWO32)
    ensures x < TWO32 ==> x % TWO32 == x
    ensures x < TWO31 ==> SignedLong(x) == x
  {
    LongModulo(x);
  }

  lemma Within(b: seq<byte>, i: nat, f: seq<byte>, j: nat, k: nat)
    requires i + |f| <= |b| && b[i..i + |f|] == f && j <= k <= |f|
    ensures b[i + j..i + k] == f[j..k]
  {
    forall m | 0 <= m < k - j ensures b[i + j..i + k][m] == f[j..k][m] {
      assert b[i..i + |f|][j + m] == f[j + m];
    }
  }

  lemma PascalAt(b: seq<byte>, i: nat, s: seq<byte>)
    requires |s| < 256 && i + |Pascal(s)| <= |b| && b[i..i + |Pascal(s)|] == Pascal(s)
    ensures StringAt(b, i) == Some((s, i + |Pascal(s)|))
  {
    var t := Pascal(s);
    assert t[0] == |s| && t[1..1 + |s|] == s;
    Within(b, i, t, 0, 1);
    Within(b, i, t, 1, 1 + |s|);
  }

  // ---------- The COMM chunk ----------

  function CommBody(p: Params, n: int): seq<byte>
    requires ValidParams(p)
  {
    Short(p.nchannels) + Long(n) + (Short(p.sampwidth * 8) + WriteFloat(Rate(p)) + Compression(p))
  }

  lemma FieldsAt(b: seq<byte>, i: nat, e: nat, hi: nat, lo: nat)
    requires e < 0x1_0000 && hi < TWO32 && lo < TWO32
    requires i + 10 <= |b| && b[i..i + 10] == Short(e) + Long(hi) + Long(lo)
    ensures FloatAt(b, i) == Some(ReadFloat(SignedShort(e), hi, lo))
  {
    var f := Short(e) + Long(hi) + Long(lo);
    assert f[..2] == Short(e) && f[2..6] == Long(hi) && f[6..10] == Long(lo);
    Within(b, i, f, 0, 2);
    Within(b, i, f, 2, 6);
    Within(b, i, f, 6, 10);
    hide Short, Long, ReadFloat;
    ShortAt(b, i, e);
    LongAt(b, i + 2, hi);
    LongAt(b, i + 6, lo);
  }

  /** A number that has been written, wherever it stands. */
  lemma FloatReads(b: seq<byte>, i: nat, x: Float)
    requires i + 10 <= |b| && b[i..i + 10] == WriteFloat(x)
    ensures FloatAt(b, i) == Some(Stored(x))
  {
    if x.mant == 0 {
      FieldsAt(b, i, 0, 0, 0);
    } else if Exponent(x) > 16384 {
      FieldsAt(b, i, if x.negative then 0xFFFF else 0x7FFF, 0, 0);
    } else {
      FieldDecodes(x);
      MantissaIsFloor(x);
      var e, hi, lo := ExponentField(x), HighHalf(x), LowHalf(x);
      hide HighHalf, LowHalf, ExponentField, SignedShort, Long, Short, ReadFloat;
      FieldsAt(b, i, e, hi, lo);
    }
  }

  /** The ten bytes of a number: zero is read as zero, a number beyond the exponent range as a huge one
      of its sign, and any other as itself if and only if it fits the mantissa. */
  lemma FloatBytesRoundTrip(x: Float)
    ensures var r := FloatAt(WriteFloat(x), 0);
      if x.mant == 0 then r == Some(Finite(Float(false, 0, 0)))
      else if Exponent(x) > 16384 then r == Some(Huge(x.negative))
      else r != None && r.value.Finite? && (SameNumber(r.value.f, x) <==> FitsMantissa(x))
  {
    assert WriteFloat(x)[0..10] == WriteFloat(x);
    hide FloatAt, WriteFloat, SameNumber, FitsMantissa, ReadFloat, ExponentField, HighHalf, LowHalf;
    FloatReads(WriteFloat(x), 0, x);
    if x.mant > 0 && Exponent(x) <= 16384 {
      FloatRoundTrip(x);
    }
  }

  /** The rate is within the range of the reader. */
  predicate Loadable(p: Params) {
    ValidParams(p) && Bits(p.framerate) <= 16384
  }

  /** What the reader can represent of what the writer accepts. */
  predicate Readable(p: Params) {
    Loadable(p) && p.nchannels < 0x8000 && FitsMantissa(Rate(p))
  }

  function CommOf(p: Params, n: nat): Comm {
    Comm(p.nchannels, n, p.sampwidth, p.framerate, if p.aifc then p.compname else NOT_COMPRESSED)
  }

  /** The same as the reader sees it. */
  function SeenComm(p: Params, n: nat): Comm
    requires Loadable(p)
  {
    RateRange(p);
    Comm(SignedShort(p.nchannels), n, p.sampwidth, Truncate(Stored(Rate(p)).f),
         if p.aifc then p.compname else NOT_COMPRESSED)
  }

  lemma RateRange(p: Params)
    requires ValidParams(p)
    ensures Stored(Rate(p)).Finite? <==> Loadable(p)
    ensures Loadable(p) ==> (Truncate(Stored(Rate(p)).f) == p.framerate <==> FitsMantissa(Rate(p)))
  {
    assert Exponent(Rate(p)) == Bits(p.framerate);
    if Loadable(p) {
      hide Bits, Stored, Truncate, FitsMantissa;
      IntegerIsRead(p.framerate);
    }
  }

  /** The reader sees channels and rate as they are if and only if they are readable. */
  lemma SeenCommIsRight(p: Params, n: nat)
    requires Loadable(p)
    ensures SeenComm(p, n) == CommOf(p, n) <==> Readable(p)
  {
    hide Stored, Truncate, FitsMantissa, Bits, Rate;
    RateRange(p);
  }

  lemma CommParts(c: seq<byte>, n: seq<byte>, w: seq<byte>, f: seq<byte>, z: seq<byte>)
    requires |c| == 2 && |n| == 4 && |w| == 2 && |f| == 10
    ensures var b := c + n + (w + f + z);
      && |b| == 18 + |z| && b[0..2] == c && b[2..6] == n && b[6..8] == w && b[8..18] == f && b[18..] == z
  {
  }

  lemma CommFields(p: Params, n: nat)
    requires ValidParams(p) && n < TWO31
    ensures var b := CommBody(p, n);
      && |b| == CommLength(p) && b[18..] == Compression(p)
      && Number(b, 0, 2) == Some(p.nchannels)
      && Number(b, 2, 4) == Some(n) && SignedLong(n) == n
      && Number(b, 6, 2) == Some(p.sampwidth * 8) && SignedShort(p.sampwidth * 8) == p.sampwidth * 8
      && FloatAt(b, 8) == Some(Stored(Rate(p)))
  {
    var b := CommBody(p, n);
    CommParts(Short(p.nchannels), Long(n), Short(p.sampwidth * 8), WriteFloat(Rate(p)), Compression(p));
    hide CommBody, Short, Long, WriteFloat, Stored, CommLength, Compression, Number, FloatAt;
    ShortAt(b, 0, p.nchannels);
    LongAt(b, 2, n);
    ShortAt(b, 6, p.sampwidth * 8);
    FloatReads(b, 8, Rate(p));
  }

  lemma NameAt(b: seq<byte>, s: seq<byte>)
    requires |s| < 256 && |b| >= 18 && b[18..] == NONE + Pascal(s)
    ensures Slice(b, 18, 4) == NONE && After(b, 18, 4) == 22
    ensures StringAt(b, 22) == Some((s, |b|))
  {
    var z := NONE + Pascal(s);
    assert b[18..18 + |z|] == z;
    assert z[0..4] == NONE && z[4..|z|] == Pascal(s);
    Within(b, 18, z, 0, 4);
    Within(b, 18, z, 4, |z|);
    hide Pascal;
    PascalAt(b, 22, s);
  }

  lemma CommFound(aifc: bool, size: nat, b: seq<byte>, c: nat, n: nat, w: nat, rate: Float, name: seq<byte>, end: nat)
    requires Number(b, 0, 2) == Some(c) && Number(b, 2, 4) == Some(n) && Number(b, 6, 2) == Some(w)
    requires FloatAt(b, 8) == Some(Finite(rate))
    requires aifc ==> size != 18 && Slice(b, 18, 4) == NONE && StringAt(b, After(b, 18, 4)) == Some((name, end))
    ensures ReadComm(aifc, size, b) == Ok((
      Comm(SignedShort(c), SignedLong(n), (SignedShort(w) + 7) / 8, Truncate(rate),
           if aifc then name else NOT_COMPRESSED),
      if aifc then end else 18))
  {
    hide Number, FloatAt, StringAt, Slice, After, SignedShort, SignedLong, Truncate;
  }

  lemma NameFound(p: Params, b: seq<byte>)
    requires ValidParams(p) && p.aifc && |b| == CommLength(p) && b[18..] == Compression(p)
    ensures |b| > 18 && Slice(b, 18, 4) == NONE && StringAt(b, After(b, 18, 4)) == Some((p.compname, |b|))
  {
    assert Compression(p) == NONE + Pascal(p.compname);
    hide Pascal, Slice, After, StringAt;
    NameAt(b, p.compname);
  }

  lemma HugeRate(aifc: bool, size: nat, b: seq<byte>, c: nat, n: nat, w: nat, negative: bool)
    requires Number(b, 0, 2) == Some(c) && Number(b, 2, 4) == Some(n) && Number(b, 6, 2) == Some(w)
    requires FloatAt(b, 8) == Some(Huge(negative))
    ensures ReadComm(aifc, size, b) == Fail(NotModelled)
  {
    hide Number, FloatAt, StringAt, Slice, After, SignedShort, SignedLong, Truncate;
  }

  lemma LoadableReads(p: Params, n: nat)
    requires Loadable(p) && n < TWO31
    ensures ReadComm(p.aifc, CommLength(p), CommBody(p, n)) == Ok((SeenComm(p, n), CommLength(p)))
  {
    hide CommBody, Number, FloatAt, StringAt, Slice, After, SignedShort, SignedLong, Truncate;
    hide Compression, ReadComm, Stored;
    hide Bits, Rate, CommLength;
    CommFields(p, n);
    RateRange(p);
    var b := CommBody(p, n);
    if p.aifc {
      NameFound(p, b);
    }
    PlainLength(p);
    WidthIsRead(p.sampwidth);
    CommFound(p.aifc, CommLength(p), b, p.nchannels, n, p.sampwidth * 8, Stored(Rate(p)).f, p.compname, |b|);
  }

  lemma WidthIsRead(w: nat)
    ensures (w * 8 + 7) / 8 == w
  {
  }

  lemma PlainLength(p: Params)
    ensures !p.aifc ==> CommLength(p) == 18
  {
  }

  lemma CommReads(p: Params, n: nat)
    requires ValidParams(p) && n < TWO31
    ensures ReadComm(p.aifc, CommLength(p), CommBody(p, n))
      == if Loadable(p) then Ok((SeenComm(p, n), CommLength(p))) else Fail(NotModelled)
  {
    hide CommBody, Number, FloatAt, Compression, ReadComm, Stored, Rate, Loadable, SeenComm, CommLength;
    if Loadable(p) {
      LoadableReads(p, n);
    } else {
      CommFields(p, n);
      RateRange(p);
      HugeRate(p.aifc, CommLength(p), CommBody(p, n), p.nchannels, n, p.sampwidth * 8, Stored(Rate(p)).negative);
    }
  }

  // ---------- The MARK chunk ----------

  /** What is left of a list of markers. */
  function KeptOf(ms: seq<Marker>): seq<Marker> {
    if ms == [] then [] else (if Kept(ms[0]) then [ms[0]] else []) + KeptOf(ms[1..])
  }

  /** A marker as the reader sees it. */
  function Seen(m: Marker): Marker
    requires ValidMarker(m)
  {
    Marker(SignedShort(m.id), SignedLong(m.pos % TWO32), m.name)
  }

  function SeenOf(ms: seq<Marker>): seq<Marker>
    requires ValidMarkers(ms)
  {
    if ms == [] then [] else (if Kept(Seen(ms[0])) then [Seen(ms[0])] else []) + SeenOf(ms[1..])
  }

  /** A count that uses the sign bit is taken for a negative one, and no marker is read. */
  function SeenMarks(ms: seq<Marker>): seq<Marker>
    requires ValidMarkers(ms)
  {
    if |ms| < 0x8000 then SeenOf(ms) else []
  }

  /** The fields of a marker do not use their sign bits. */
  predicate ReadableMarker(m: Marker) {
    m.id < 0x8000 && m.pos < TWO31
  }

  predicate ReadableMarkers(ms: seq<Marker>) {
    forall m :: m in KeptOf(ms) ==> ReadableMarker(m)
  }

  lemma SeenIsRight(m: Marker)
    requires ValidMarker(m)
    ensures Seen(m) == m <==> ReadableMarker(m)
    ensures Kept(Seen(m)) ==> Kept(m)
  {
    if m.pos >= TWO31 {
      assert m.pos % TWO32 < TWO32;
    }
  }

  lemma {:induction false} SeenOfIsRight(ms: seq<Marker>)
    requires ValidMarkers(ms)
    ensures |SeenOf(ms)| <= |KeptOf(ms)|
    ensures SeenOf(ms) == KeptOf(ms) <==> ReadableMarkers(ms)
  {
    if ms != [] {
      var m, rest := ms[0], ms[1..];
      SeenIsRight(m);
      SeenOfIsRight(rest);
      hide Seen, Kept, ReadableMarker, ValidMarker;
      HeadsAgree(if Kept(Seen(m)) then [Seen(m)] else [], SeenOf(rest), if Kept(m) then [m] else [], KeptOf(rest));
      ReadableHead(ms);
      if Kept(m) && ReadableMarker(m) {
        assert Seen(m) == m;
      }
    }
  }

  lemma ReadableHead(ms: seq<Marker>)
    requires ms != []
    ensures ReadableMarkers(ms) <==> (Kept(ms[0]) ==> ReadableMarker(ms[0])) && ReadableMarkers(ms[1..])
  {
    hide Kept, ReadableMarker;
    var a := if Kept(ms[0]) then [ms[0]] else [];
    assert KeptOf(ms) == a + KeptOf(ms[1..]);
    assert forall m :: m in KeptOf(ms) <==> m in a || m in KeptOf(ms[1..]);
  }

  lemma HeadsAgree(a: seq<Marker>, x: seq<Marker>, b: seq<Marker>, y: seq<Marker>)
    requires |a| <= |b| && |x| <= |y|
    ensures a + x == b + y <==> a == b && x == y
  {
    if a + x == b + y {
      assert |a| == |b|;
      assert (a + x)[..|a|] == a && (b + y)[..|b|] == b;
      assert (a + x)[|a|..] == x && (b + y)[|b|..] == y;
    }
  }

  /** The reader sees the markers as they are, less the dropped ones, if and only if those that are kept
      do not use the sign bits, and neither does the count if there are any. */
  lemma SeenMarksAreRight(ms: seq<Marker>)
    requires ValidMarkers(ms)
    ensures SeenMarks(ms) == KeptOf(ms) <==> ReadableMarkers(ms) && (|ms| < 0x8000 || KeptOf(ms) == [])
  {
    SeenOfIsRight(ms);
  }

  /** Marker number 40000 at position 5 is read back as number -25536. */
  lemma MarkNumberIsLost()
    ensures var m := Marker(40000, 5, [120]);
      ValidMarkers([m]) && KeptOf([m]) == [m] && SeenMarks([m]) == [Marker(-25536, 5, [120])]
      && !ReadableMarkers([m])
  {
    var m := Marker(40000, 5, [120]);
    assert [m][1..] == [];
    assert Seen(m) == Marker(-25536, 5, [120]);
    assert m in KeptOf([m]) && !ReadableMarker(m);
  }

  lemma EntryReads(b: seq<byte>, i: nat, m: Marker)
    requires ValidMarker(m)
    requires i + |MarkEntry(m)| <= |b| && b[i..i + |MarkEntry(m)|] == MarkEntry(m)
    ensures EntryAt(b, i) == (Entry(Seen(m)), i + |MarkEntry(m)|)
  {
    var e, s := MarkEntry(m), Pascal(m.name);
    assert e[0..2] == Short(m.id) && e[2..6] == Long(m.pos) && e[6..6 + |s|] == s;
    Within(b, i, e, 0, 2);
    Within(b, i, e, 2, 6);
    Within(b, i, e, 6, |e|);
    hide Short, Long, Pascal, MarkEntry;
    ShortAt(b, i, m.id);
    LongAt(b, i + 2, m.pos);
    PascalAt(b, i + 6, m.name);
  }

  lemma FirstEntry(b: seq<byte>, i: nat, e: seq<byte>, rest: seq<byte>)
    requires i <= |b| && b[i..] == e + rest
    ensures i + |e| <= |b| && b[i..i + |e|] == e && b[i + |e|..] == rest
  {
    assert b[i..][..|e|] == e && b[i..][|e|..] == rest;
  }

  /** A marker as the reader keeps it, if it does. */
  function OneSeen(m: Marker): seq<Marker>
    requires ValidMarker(m)
  {
    if Kept(Seen(m)) then [Seen(m)] else []
  }

  lemma MarksStart(b: seq<byte>, i: nat, ms: seq<Marker>, known: seq<Marker>)
    requires ValidMarkers(ms) && ms != [] && i <= |b| && b[i..] == MarkEntries(ms)
    ensures var j := i + |MarkEntry(ms[0])|;
      && j <= |b| && b[j..] == MarkEntries(ms[1..])
      && ReadMarks(b, i, |ms|, known) == ReadMarks(b, j, |ms[1..]|, known + OneSeen(ms[0]))
      && SeenOf(ms) == OneSeen(ms[0]) + SeenOf(ms[1..])
  {
    hide MarkEntry, EntryAt, ReadMarks, Seen, Kept, ValidMarker;
    FirstEntry(b, i, MarkEntry(ms[0]), MarkEntries(ms[1..]));
    EntryReads(b, i, ms[0]);
    OneMarkMore(b, i, |ms|, known, Seen(ms[0]), i + |MarkEntry(ms[0])|);
  }

  lemma MarksEnd(b: seq<byte>, i: nat, ms: seq<Marker>, known: seq<Marker>)
    requires ms == [] && i <= |b| && b[i..] == MarkEntries(ms)
    ensures ReadMarks(b, i, |ms|, known) == Ok((known + SeenOf(ms), |b|))
  {
    assert known + [] == known;
  }

  lemma NoMarks(b: seq<byte>, i: nat, n: int, ms: seq<Marker>)
    requires n <= 0
    ensures ReadMarks(b, i, n, ms) == Ok((ms, i))
  {
  }

  /** Reading entries as written returns the markers as they are seen. */
  lemma {:induction false} MarksRead(b: seq<byte>, i: nat, ms: seq<Marker>, known: seq<Marker>)
    requires ValidMarkers(ms) && i <= |b| && b[i..] == MarkEntries(ms)
    ensures ReadMarks(b, i, |ms|, known) == Ok((known + SeenOf(ms), |b|))
    decreases |ms|
  {
    hide MarkEntry, MarkEntries, OneSeen, SeenOf, ReadMarks;
    if ms == [] {
      MarksEnd(b, i, ms, known);
    } else {
      MarksStart(b, i, ms, known);
      MarksRead(b, i + |MarkEntry(ms[0])|, ms[1..], known + OneSeen(ms[0]));
      assert known + OneSeen(ms[0]) + SeenOf(ms[1..]) == known + (OneSeen(ms[0]) + SeenOf(ms[1..]));
    }
  }

  lemma OneMarkMore(b: seq<byte>, i: nat, n: nat, known: seq<Marker>, m: Marker, j: nat)
    requires n > 0 && EntryAt(b, i) == (Entry(m), j)
    ensures ReadMarks(b, i, n, known) == ReadMarks(b, j, n - 1, known + if Kept(m) then [m] else [])
  {
    hide EntryAt, Kept;
    assert known + [] == known;
  }

  // ---------- Chunks ----------

  function ChunkText(name: seq<byte>, b: seq<byte>): seq<byte> {
    name + Long(|b|) + b
  }

  lemma ChunkPlaces(pre: seq<byte>, name: seq<byte>, l: seq<byte>, b: seq<byte>, post: seq<byte>)
    requires |name| == 4 && |l| == 4
    ensures var f, o := pre + (name + l + b) + post, |pre|;
      f[o..o + 4] == name && f[o + 4..o + 8] == l && f[o + 8..o + 8 + |b|] == b
  {
    var f, t, o := pre + (name + l + b) + post, name + l + b, |pre|;
    assert f[o..o + |t|] == t;
    assert t[0..4] == name && t[4..8] == l && t[8..|t|] == b;
    Within(f, o, t, 0, 4);
    Within(f, o, t, 4, 8);
    Within(f, o, t, 8, |t|);
  }

  lemma LoopUnfolds(f: seq<byte>, o: nat, name: seq<byte>, b: seq<byte>, left: nat, aifc: bool,
      info: Info, seek: bool)
    requires o + 8 <= |f| && f[o..o + 4] == name && Body(f, o + 8, |b|) == b && |b| % 2 == 0
    requires Number(f, o + 4, 4) != None && SignedLong(Number(f, o + 4, 4).value) == |b|
    ensures ReadChunks(f, aifc, o, 8 + |b| + left, info, seek)
      == match ReadChunk(aifc, name, Sound(o + 8, |b|), b, info)
         case Fail(e) => Fail(e)
         case Ok(r) => ReadChunks(f, aifc, o + 8 + |b|, left, r.0, name != SSND)
  {
    hide ReadChunk, SignedLong, Number, Body;
    var formlength := 8 + |b| + left;
    assert formlength - 8 - |b| - |b| % 2 == left;
  }

  /** One pass of the reading loop over a chunk of even size. */
  lemma ChunkReads(f: seq<byte>, o: nat, name: seq<byte>, b: seq<byte>, left: nat, aifc: bool, info: Info, seek: bool)
    requires |b| < TWO31 && |b| % 2 == 0 && o + 8 + |b| <= |f|
    requires f[o..o + 4] == name && f[o + 4..o + 8] == Long(|b|) && f[o + 8..o + 8 + |b|] == b
    ensures ReadChunks(f, aifc, o, 8 + |b| + left, info, seek)
      == match ReadChunk(aifc, name, Sound(o + 8, |b|), b, info)
         case Fail(e) => Fail(e)
         case Ok(r) => ReadChunks(f, aifc, o + 8 + |b|, left, r.0, name != SSND)
  {
    assert Body(f, o + 8, |b|) == b;
    hide ReadChunk, ReadChunks, Long, SignedLong, Number, Body;
    LongAt(f, o + 4, |b|);
    LoopUnfolds(f, o, name, b, left, aifc, info, seek);
  }

  /** `skip` passes over the pad byte of an odd chunk if and only if the chunk has not been read to
      its end. */
  lemma PadIsPassed(f: seq<byte>, offset: nat, size: nat, read: nat)
    requires offset + size < |f|
    ensures Skipped(f, offset, size, read) == offset + size + size % 2 <==> size % 2 == 0 || read < size
  {
  }

  // ---------- Whole files ----------

  function CommText(p: Params, n: int): seq<byte>
    requires ValidParams(p)
  {
    ChunkText(COMM, CommBody(p, n))
  }

  function SoundBody(data: seq<byte>): seq<byte> {
    Long(0) + Long(0) + Padded(data)
  }

  function Lead(p: Params, formlength: int): seq<byte> {
    FORM + Long(formlength) + Kind(p)
  }

  lemma CommFirst(k: seq<byte>, c: seq<byte>, l: seq<byte>, s: seq<byte>, n: seq<byte>, w: seq<byte>, q: seq<byte>)
    ensures k + c + l + s + n + (w + q) == k + (c + l + (s + n + w)) + q
  {
    assert k + c + l + s + n + (w + q) == k + c + l + s + n + w + q;
    Regroup3(k + c + l, s, n, w);
    Regroup3(k, c, l, s + n + w);
  }

  lemma SoundLast(a: seq<byte>, k: seq<byte>, c: seq<byte>, s: seq<byte>, d: seq<byte>, z: seq<byte>,
      p: seq<byte>, m: seq<byte>)
    ensures a + (k + c + (s + d + z)) + p + m == a + k + c + (s + d + (z + p)) + m
  {
    var q := s + d + z;
    assert a + (k + c + q) == a + k + c + q;
    assert a + k + c + q + p == a + k + c + (q + p);
    assert q + p == s + d + (z + p);
  }

  /** A closed file is its form header and its chunks. */
  lemma EncodeIsChunks(p: Params, data: seq<byte>, ms: seq<Marker>)
    requires ValidParams(p) && ValidMarkers(ms) && |ms| < 0x1_0000
    ensures Encode(p, data, ms)
      == Lead(p, FormLength(p, |Padded(data)|, |MarkChunk(ms)|)) + CommText(p, FramesIn(p, |data|))
         + ChunkText(SSND, SoundBody(data)) + MarkChunk(ms)
  {
    var form, n, sound := FormLength(p, |Padded(data)|, |MarkChunk(ms)|), FramesIn(p, |data|), |Padded(data)|;
    assert |SoundBody(data)| == sound + 8;
    assert |CommBody(p, n)| == CommLength(p);
    hide FormLength, FramesIn, Padded, MarkChunk, Kind, CommLength, ValidMarkers, ValidParams;
    hide Compression, Long, Short, WriteFloat;
    var w, z := Short(p.sampwidth * 8) + WriteFloat(Rate(p)) + Compression(p), Long(0) + Long(0);
    assert w + SSND + Long(sound + 8) + z == w + (SSND + Long(sound + 8) + z);
    CommFirst(Kind(p), COMM, Long(CommLength(p)), Short(p.nchannels), Long(n), w, SSND + Long(sound + 8) + z);
    SoundLast(FORM + Long(form), Kind(p), CommText(p, n), SSND, Long(sound + 8), z, Padded(data), MarkChunk(ms));
  }

  lemma ChunkAt(pre: seq<byte>, name: seq<byte>, b: seq<byte>, post: seq<byte>)
    requires |name| == 4
    ensures var f, o := pre + ChunkText(name, b) + post, |pre|;
      && |f| == o + 8 + |b| + |post|
      && f[o..o + 4] == name && f[o + 4..o + 8] == Long(|b|) && f[o + 8..o + 8 + |b|] == b
  {
    ChunkPlaces(pre, name, Long(|b|), b, post);
  }

  lemma StepAt(pre: seq<byte>, name: seq<byte>, b: seq<byte>, post: seq<byte>, aifc: bool, info: Info,
      seek: bool, r: (Info, nat))
    requires |name| == 4 && |b| < TWO31 && |b| % 2 == 0
    requires ReadChunk(aifc, name, Sound(|pre| + 8, |b|), b, info) == Ok(r)
    ensures var f := pre + ChunkText(name, b) + post;
      && |f| == |pre| + 8 + |b| + |post|
      && ReadChunks(f, aifc, |pre|, 8 + |b| + |post|, info, seek)
         == ReadChunks(f, aifc, |pre| + 8 + |b|, |post|, r.0, name != SSND)
  {
    hide ReadChunk, Long, ChunkText, ReadChunks;
    ChunkAt(pre, name, b, post);
    ChunkReads(pre + ChunkText(name, b) + post, |pre|, name, b, |post|, aifc, info, seek);
  }

  lemma StepFails(pre: seq<byte>, name: seq<byte>, b: seq<byte>, post: seq<byte>, aifc: bool,
      info: Info, seek: bool, e: Error)
    requires |name| == 4 && |b| < TWO31 && |b| % 2 == 0
    requires ReadChunk(aifc, name, Sound(|pre| + 8, |b|), b, info) == Fail(e)
    ensures ReadChunks(pre + ChunkText(name, b) + post, aifc, |pre|, 8 + |b| + |post|, info, seek) == Fail(e)
  {
    hide ReadChunk, Long, ChunkText, ReadChunks;
    ChunkAt(pre, name, b, post);
    ChunkReads(pre + ChunkText(name, b) + post, |pre|, name, b, |post|, aifc, info, seek);
  }

  lemma {:induction false} EntriesEven(ms: seq<Marker>)
    requires ValidMarkers(ms)
    ensures |MarkEntries(ms)| % 2 == 0
  {
    if ms != [] {
      EntriesEven(ms[1..]);
    }
  }

  function MarkBody(ms: seq<Marker>): seq<byte>
    requires ValidMarkers(ms) && |ms| < 0x1_0000
  {
    Short(|ms|) + MarkEntries(ms)
  }

  lemma MarkChunkIs(ms: seq<Marker>)
    requires ValidMarkers(ms) && 0 < |ms| < 0x1_0000
    ensures MarkChunk(ms) == ChunkText(MARK, MarkBody(ms)) && |MarkChunk(ms)| == 8 + |MarkBody(ms)|
  {
    hide MarkEntries, Short, Long, ValidMarkers;
    assert MARK + Long(2 + |MarkEntries(ms)|) + Short(|ms|) + MarkEntries(ms)
        == MARK + Long(2 + |MarkEntries(ms)|) + (Short(|ms|) + MarkEntries(ms));
  }

  lemma MarkReads(aifc: bool, s: Sound, b: seq<byte>, info: Info, n: nat)
    requires Number(b, 0, 2) == Some(n)
    ensures ReadChunk(aifc, MARK, s, b, info)
      == match ReadMarks(b, 2, SignedShort(n), info.markers)
         case Ok(r) => Ok((info.(markers := r.0), r.1))
         case Fail(e) => Fail(e)
  {
    assert MARK[0] != COMM[0] && MARK[0] != SSND[0] && MARK[0] != FVER[0];
    hide Number, ReadMarks, SignedShort;
  }

  lemma MarkBodyParts(ms: seq<Marker>)
    requires ValidMarkers(ms) && |ms| < 0x1_0000
    ensures var b := MarkBody(ms);
      |b| >= 2 && |b| % 2 == 0 && b[0..2] == Short(|ms|) && b[2..] == MarkEntries(ms)
  {
    hide MarkEntries, ValidMarkers;
    EntriesEven(ms);
  }

  lemma MarkBodyReads(ms: seq<Marker>, aifc: bool, s: Sound, info: Info)
    requires ValidMarkers(ms) && |ms| < 0x1_0000 && info.markers == []
    ensures |MarkBody(ms)| % 2 == 0
    ensures var r := ReadChunk(aifc, MARK, s, MarkBody(ms), info);
      r.Ok? && r.value.0 == info.(markers := SeenMarks(ms))
  {
    assert |ms| >= 0x8000 ==> SignedShort(|ms|) < 0;
    hide MarkBody, MarkEntries, Short, SeenOf, ReadMarks, SignedShort, ValidMarkers, ReadChunk, Number;
    MarkBodyParts(ms);
    var b := MarkBody(ms);
    ShortAt(b, 0, |ms|);
    MarkReads(aifc, s, b, info, |ms|);
    if |ms| < 0x8000 {
      MarksRead(b, 2, ms, []);
      assert [] + SeenOf(ms) == SeenOf(ms);
    } else {
      NoMarks(b, 2, SignedShort(|ms|), []);
    }
  }

  function VersionOf(p: Params): int {
    if p.aifc then SignedLong(BigEndian(Long(VERSION))) else 0
  }

  /** What the reader is to find: sound that starts with 8 bytes of offset and block size. */
  function InfoOf(p: Params, data: seq<byte>, ms: seq<Marker>): Info
    requires ValidParams(p)
  {
    Info(VersionOf(p), Some(CommOf(p, FramesIn(p, |data|))), Some(SoundIn(p, data)), KeptOf(ms))
  }

  function SoundIn(p: Params, data: seq<byte>): Sound {
    Sound(8 + |Kind(p)| + 8 + CommLength(p) + 8, |SoundBody(data)|)
  }

  /** What it finds. */
  function SeenInfo(p: Params, data: seq<byte>, ms: seq<Marker>): Info
    requires Loadable(p) && ValidMarkers(ms)
  {
    Info(VersionOf(p), Some(SeenComm(p, FramesIn(p, |data|))), Some(SoundIn(p, data)), SeenMarks(ms))
  }

  lemma SomeMarks(pre: seq<byte>, ms: seq<Marker>, aifc: bool, info: Info, seek: bool)
    requires ValidMarkers(ms) && 0 < |ms| < 0x1_0000 && info.markers == []
    requires |MarkChunk(ms)| < TWO31
    ensures ReadChunks(pre + MarkChunk(ms), aifc, |pre|, |MarkChunk(ms)|, info, seek)
      == Ok((info.(markers := SeenMarks(ms)), true))
  {
    hide MarkBody, MarkChunk, SeenMarks, ReadChunk, ValidMarkers, ChunkText, ReadChunks;
    var b, known := MarkBody(ms), info.(markers := SeenMarks(ms));
    MarkChunkIs(ms);
    MarkBodyReads(ms, aifc, Sound(|pre| + 8, |b|), info);
    var read := ReadChunk(aifc, MARK, Sound(|pre| + 8, |b|), b, info).value.1;
    assert pre + MarkChunk(ms) + [] == pre + MarkChunk(ms);
    assert MARK[0] != SSND[0];
    StepAt(pre, MARK, b, [], aifc, info, seek, (known, read));
    NoChunksLeft(pre + MarkChunk(ms), aifc, |pre| + 8 + |b|, 0, known, true);
  }

  lemma MarksStep(pre: seq<byte>, ms: seq<Marker>, aifc: bool, info: Info)
    requires ValidMarkers(ms) && |ms| < 0x1_0000 && info.markers == []
    requires |MarkChunk(ms)| < TWO31
    ensures ReadChunks(pre + MarkChunk(ms), aifc, |pre|, |MarkChunk(ms)|, info, false)
      == Ok((info.(markers := SeenMarks(ms)), ms != []))
  {
    if ms == [] {
      assert info.(markers := []) == info;
    } else {
      SomeMarks(pre, ms, aifc, info, false);
    }
  }

  lemma VersionStep(pre: seq<byte>, post: seq<byte>, info: Info, seek: bool)
    ensures ReadChunks(pre + ChunkText(FVER, Long(VERSION)) + post, true, |pre|, 12 + |post|, info, seek)
      == ReadChunks(pre + ChunkText(FVER, Long(VERSION)) + post, true, |pre| + 12, |post|,
                    info.(version := SignedLong(BigEndian(Long(VERSION)))), true)
  {
    var b, s := Long(VERSION), Sound(|pre| + 8, 4);
    assert FVER[0] != COMM[0] && FVER[0] != SSND[0];
    assert b[0..4] == b;
    assert ReadChunk(true, FVER, s, b, info) == Ok((info.(version := SignedLong(BigEndian(b))), 4));
    hide ReadChunk, Long, SignedLong, BigEndian, ReadChunks, ChunkText;
    StepAt(pre, FVER, b, post, true, info, seek, (info.(version := SignedLong(BigEndian(b))), 4));
  }

  lemma CommBodyReads(p: Params, n: nat, s: Sound, info: Info)
    requires ValidParams(p) && n < TWO31 && s.size == CommLength(p)
    ensures |CommBody(p, n)| == CommLength(p) && CommLength(p) % 2 == 0
    ensures ReadChunk(p.aifc, COMM, s, CommBody(p, n), info)
      == if Loadable(p) then Ok((info.(comm := Some(SeenComm(p, n))), CommLength(p))) else Fail(NotModelled)
  {
    assert |CommBody(p, n)| == CommLength(p);
    hide CommBody, SeenComm, Loadable, CommLength, ReadComm;
    CommReads(p, n);
  }

  lemma CommStep(p: Params, n: nat, pre: seq<byte>, post: seq<byte>, info: Info, seek: bool)
    requires ValidParams(p) && n < TWO31
    ensures var f := pre + CommText(p, n) + post;
      ReadChunks(f, p.aifc, |pre|, 8 + CommLength(p) + |post|, info, seek)
      == if !Loadable(p) then Fail(NotModelled)
         else ReadChunks(f, p.aifc, |pre| + 8 + CommLength(p), |post|, info.(comm := Some(SeenComm(p, n))), true)
  {
    hide ReadChunks, ReadChunk, ChunkText, CommBody, SeenComm, CommLength, Loadable;
    assert COMM[0] != SSND[0];
    CommBodyReads(p, n, Sound(|pre| + 8, CommLength(p)), info);
    CommLimit(p);
    if Loadable(p) {
      var next := info.(comm := Some(SeenComm(p, n)));
      StepAt(pre, COMM, CommBody(p, n), post, p.aifc, info, seek, (next, CommLength(p)));
    } else {
      StepFails(pre, COMM, CommBody(p, n), post, p.aifc, info, seek, NotModelled);
    }
  }

  lemma CommLimit(p: Params)
    requires ValidParams(p)
    ensures CommLength(p) < TWO31
  {
  }

  lemma SoundBodyReads(data: seq<byte>, aifc: bool, s: Sound, info: Info)
    ensures 8 <= |SoundBody(data)| == 8 + |Padded(data)| && |SoundBody(data)| % 2 == 0
    ensures ReadChunk(aifc, SSND, s, SoundBody(data), info) == Ok((info.(sound := Some(s)), 8))
  {
    PaddedStart(data);
    assert SSND[0] != COMM[0];
  }

  lemma SoundStep(pre: seq<byte>, data: seq<byte>, post: seq<byte>, aifc: bool, info: Info, seek: bool)
    requires |Padded(data)| < TWO31 - 8
    ensures var f, s := pre + ChunkText(SSND, SoundBody(data)) + post, Sound(|pre| + 8, |SoundBody(data)|);
      && ReadChunks(f, aifc, |pre|, 8 + |SoundBody(data)| + |post|, info, seek)
         == ReadChunks(f, aifc, |pre| + 8 + |SoundBody(data)|, |post|, info.(sound := Some(s)), false)
      && Body(f, |pre| + 8, |SoundBody(data)|) == SoundBody(data)
  {
    hide ReadChunks, ReadChunk, ChunkText, SoundBody, Padded;
    var b, s := SoundBody(data), Sound(|pre| + 8, |SoundBody(data)|);
    SoundBodyReads(data, aifc, s, info);
    ChunkAt(pre, SSND, b, post);
    StepAt(pre, SSND, b, post, aifc, info, seek, (info.(sound := Some(s)), 8));
  }

  /** What a closed file can be made of. */
  predicate Writable(p: Params, ms: seq<Marker>) {
    ValidParams(p) && ValidMarkers(ms) && |ms| < 0x1_0000
  }

  function FormOf(p: Params, data: seq<byte>, ms: seq<Marker>): int
    requires Writable(p, ms)
  {
    FormLength(p, |Padded(data)|, |MarkChunk(ms)|)
  }

  /** What can be read back of what can be written: the rate fits the mantissa, and no field uses its
      sign bit, but for markers that are dropped anyway. */
  predicate Recoverable(p: Params, data: seq<byte>, ms: seq<Marker>)
    requires Writable(p, ms)
  {
    && Readable(p) && FormOf(p, data, ms) < TWO31
    && ReadableMarkers(ms) && (|ms| < 0x8000 || KeptOf(ms) == [])
  }

  lemma FewFrames(p: Params, data: seq<byte>)
    requires ValidParams(p)
    ensures FramesIn(p, |data|) <= |data|
  {
    var q, k := FramesIn(p, |data|), FrameSize(p);
    assert |data| == k * q + |data| % k;
    LeTimes(1, k, q);
  }

  function KindInfo(p: Params): Info {
    Info(VersionOf(p), None, None, [])
  }

  /** The chunks after the form header, and after the version where there is one. */
  lemma LeadStep(p: Params, form: int, post: seq<byte>)
    ensures var f := Lead(p, form) + post;
      && |f| == |Lead(p, form)| + |post|
      && ReadChunks(f, p.aifc, 12, |f| - 12, Info(0, None, None, []), true)
      == ReadChunks(f, p.aifc, |Lead(p, form)|, |post|, KindInfo(p), true)
  {
    if p.aifc {
      var pre := FORM + Long(form) + AIFC;
      assert Lead(p, form) == pre + ChunkText(FVER, Long(VERSION));
      hide Lead, ChunkText, Long, ReadChunks, SignedLong, BigEndian;
      VersionStep(pre, post, Info(0, None, None, []), true);
    }
  }

  lemma Nested(l: seq<byte>, c: seq<byte>, s: seq<byte>, m: seq<byte>)
    ensures l + c + s + m == l + (c + (s + m)) == l + c + (s + m)
  {
  }

  lemma ChunkTextLength(name: seq<byte>, b: seq<byte>)
    ensures |ChunkText(name, b)| == |name| + 4 + |b|
  {
  }

  lemma CommTextLength(p: Params, n: int)
    requires ValidParams(p)
    ensures |CommText(p, n)| == 8 + CommLength(p)
  {
  }

  /** The chunks of a closed file, given the number of its frames. */
  function ChunksOf(p: Params, form: int, n: nat, data: seq<byte>, ms: seq<Marker>): seq<byte>
    requires Writable(p, ms)
  {
    Lead(p, form) + CommText(p, n) + ChunkText(SSND, SoundBody(data)) + MarkChunk(ms)
  }

  /** The reader's loop over them. */
  function LoopOver(p: Params, f: seq<byte>): Outcome<(Info, bool)>
    requires |f| >= 12
  {
    ReadChunks(f, p.aifc, 12, |f| - 12, Info(0, None, None, []), true)
  }

  lemma ChunksStart(p: Params, form: int, n: nat, data: seq<byte>, ms: seq<Marker>)
    requires Writable(p, ms) && n < TWO31
    ensures var f, lead := ChunksOf(p, form, n, data, ms), Lead(p, form);
      var rest := ChunkText(SSND, SoundBody(data)) + MarkChunk(ms);
      && |f| >= 12
      && f == lead + (CommText(p, n) + rest)
      && LoopOver(p, f) == if !Loadable(p) then Fail(NotModelled)
         else ReadChunks(f, p.aifc, |lead + CommText(p, n)|, |rest|, KindInfo(p).(comm := Some(SeenComm(p, n))), true)
  {
    hide Lead, CommText, ChunkText, SoundBody, MarkChunk, ReadChunks, SeenComm, Loadable;
    hide ValidMarkers, KindInfo;
    var l, c, s, m := Lead(p, form), CommText(p, n), ChunkText(SSND, SoundBody(data)), MarkChunk(ms);
    Nested(l, c, s, m);
    ThroughComm(p, n, s + m, form);
  }

  lemma ChunksEnd(l: seq<byte>, data: seq<byte>, ms: seq<Marker>, aifc: bool, info: Info)
    requires ValidMarkers(ms) && |ms| < 0x1_0000 && info.markers == []
    requires |Padded(data)| < TWO31 - 8 && |MarkChunk(ms)| < TWO31
    ensures var rest, s := ChunkText(SSND, SoundBody(data)) + MarkChunk(ms), Sound(|l| + 8, |SoundBody(data)|);
      && ReadChunks(l + rest, aifc, |l|, |rest|, info, true)
         == Ok((info.(sound := Some(s), markers := SeenMarks(ms)), ms != []))
      && Body(l + rest, s.offset, s.size) == SoundBody(data)
  {
    hide ChunkText, SoundBody, MarkChunk, ReadChunks, SeenMarks, ValidMarkers, Body, Padded;
    var s, m := ChunkText(SSND, SoundBody(data)), MarkChunk(ms);
    ChunkTextLength(SSND, SoundBody(data));
    Associates(l, s, m);
    SoundStep(l, data, m, aifc, info, true);
    MarksStep(l + s, ms, aifc, info.(sound := Some(Sound(|l| + 8, |SoundBody(data)|))));
  }

  lemma SoundIsIn(p: Params, form: int, n: nat, data: seq<byte>)
    requires ValidParams(p)
    ensures SoundIn(p, data) == Sound(|Lead(p, form) + CommText(p, n)| + 8, |SoundBody(data)|)
  {
    hide Lead, CommText, SoundBody, CommLength, Kind;
    LeadLength(p, form);
    CommTextLength(p, n);
  }

  lemma ChunksRead(p: Params, form: int, n: nat, data: seq<byte>, ms: seq<Marker>)
    requires Writable(p, ms) && n < TWO31 && |Padded(data)| < TWO31 - 8 && |MarkChunk(ms)| < TWO31
    ensures var f := ChunksOf(p, form, n, data, ms);
      && |f| >= 12
      && (!Loadable(p) ==> LoopOver(p, f) == Fail(NotModelled))
      && (Loadable(p) ==>
          && LoopOver(p, f)
             == Ok((Info(VersionOf(p), Some(SeenComm(p, n)), Some(SoundIn(p, data)), SeenMarks(ms)), ms != []))
          && Body(f, SoundIn(p, data).offset, SoundIn(p, data).size) == SoundBody(data))
  {
    hide Lead, CommText, ChunkText, SoundBody, MarkChunk, ReadChunks, SeenComm, Loadable;
    hide ValidMarkers, ChunksOf, LoopOver;
    hide Body, Padded, SeenMarks, VersionOf, Kind, CommLength, ValidParams, SoundIn;
    ChunksStart(p, form, n, data, ms);
    if Loadable(p) {
      var l := Lead(p, form) + CommText(p, n);
      ChunksEnd(l, data, ms, p.aifc, KindInfo(p).(comm := Some(SeenComm(p, n))));
      Associates(Lead(p, form), CommText(p, n), ChunkText(SSND, SoundBody(data)) + MarkChunk(ms));
      SoundIsIn(p, form, n, data);
    }
  }

  lemma LeadReads(p: Params, form: int, post: seq<byte>)
    requires 0 < form < TWO31
    ensures var f := Lead(p, form) + post;
      && Slice(f, 0, 4) == FORM && Number(f, 4, 4) != None && SignedLong(Number(f, 4, 4).value) == form
      && Slice(f, 8, 4) == (if p.aifc then AIFC else AIFF)
  {
    var f := Lead(p, form) + post;
    assert f[0..4] == FORM && f[4..8] == Long(form) && f[8..12] == if p.aifc then AIFC else AIFF;
    hide Lead, Long, SignedLong;
    LongAt(f, 4, form);
  }

  lemma KindsDiffer()
    ensures AIFC != AIFF
  {
    assert AIFC[3] != AIFF[3];
  }

  lemma FormIs(p: Params, form: int, rest: seq<byte>)
    requires 4 <= form < TWO31 && |Lead(p, form) + rest| == form + 8
    ensures var f := Lead(p, form) + rest;
      ReadForm(f) == match LoopOver(p, f)
        case Fail(e) => Fail(e)
        case Ok(r) => if r.0.comm == None || r.0.sound == None then Fail(BadFormat) else Ok(r)
  {
    KindsDiffer();
    hide Lead, ReadChunks, Number, SignedLong, Slice;
    LeadReads(p, form, rest);
  }

  lemma FieldBounds(p: Params, data: seq<byte>, ms: seq<Marker>)
    requires Writable(p, ms)
    ensures var form := FormOf(p, data, ms);
      && 28 <= form && |Encode(p, data, ms)| == form + 8
      && FramesIn(p, |data|) <= |data| <= |Padded(data)| < form - 20 && |MarkChunk(ms)| < form
  {
    FewFrames(p, data);
    PaddedStart(data);
    FormIsWhole(p, data, ms);
    hide Encode, MarkChunk, ValidMarkers, FramesIn, Padded;
  }

  lemma EncodeIsChunksOf(p: Params, data: seq<byte>, ms: seq<Marker>)
    requires Writable(p, ms)
    ensures var form, n := FormOf(p, data, ms), FramesIn(p, |data|);
      && Encode(p, data, ms) == ChunksOf(p, form, n, data, ms)
      && Encode(p, data, ms)
         == Lead(p, form) + (CommText(p, n) + (ChunkText(SSND, SoundBody(data)) + MarkChunk(ms)))
  {
    hide Encode, MarkChunk, ValidMarkers, FramesIn, Padded, Lead, CommText, ChunkText, SoundBody;
    hide FormLength, ValidParams;
    EncodeIsChunks(p, data, ms);
    var c, s := CommText(p, FramesIn(p, |data|)), ChunkText(SSND, SoundBody(data));
    Nested(Lead(p, FormOf(p, data, ms)), c, s, MarkChunk(ms));
  }

  /** What the reader makes of a closed file whose form size fits: the sound chunk, and parameters,
      frame count and markers as far as they can be seen. */
  lemma SmallFormReads(p: Params, data: seq<byte>, ms: seq<Marker>)
    requires Writable(p, ms) && FormOf(p, data, ms) < TWO31
    ensures var f, s := Encode(p, data, ms), SoundIn(p, data);
      && (!Loadable(p) ==> ReadForm(f).Fail?)
      && (Loadable(p) ==> ReadForm(f) == Ok((SeenInfo(p, data, ms), ms != [])))
      && (Loadable(p) ==> Body(f, s.offset, s.size) == SoundBody(data))
  {
    hide Lead, CommText, ChunkText, SoundBody, MarkChunk, ReadForm, SeenComm, CommLength, SeenMarks;
    hide Encode, LoopOver, ChunksOf;
    hide ValidMarkers, Body, Padded, VersionOf, Kind, FramesIn, ValidParams, FormLength, Loadable;
    var form, n := FormOf(p, data, ms), FramesIn(p, |data|);
    FieldBounds(p, data, ms);
    EncodeIsChunksOf(p, data, ms);
    ChunksRead(p, form, n, data, ms);
    var rest := CommText(p, n) + (ChunkText(SSND, SoundBody(data)) + MarkChunk(ms));
    FormIs(p, form, rest);
  }

  predicate ShortSound(info: Info) {
    info.sound != None ==> info.sound.value.size < TWO31
  }

  /** The loop goes on with one more chunk, or ends. */
  lemma ChunksUnfold(f: seq<byte>, aifc: bool, pos: nat, formlength: int, info: Info, seek: bool)
    requires formlength > 0 && ReadChunks(f, aifc, pos, formlength, info, seek).Ok?
    ensures var u, r := Number(f, pos + 4, 4), ReadChunks(f, aifc, pos, formlength, info, seek);
      if u == None then r == Ok((info, true))
      else
        && pos + 8 <= |f| && SignedLong(u.value) >= 0
        && var name, size := f[pos..pos + 4], SignedLong(u.value);
           var c := ReadChunk(aifc, name, Sound(pos + 8, size), Body(f, pos + 8, size), info);
           && c.Ok?
           && var next, left := Skipped(f, pos + 8, size, c.value.1), formlength - 8 - size - size % 2;
              r == ReadChunks(f, aifc, next, left, c.value.0, name != SSND)
  {
    hide ReadChunk, SignedLong, Body, Skipped, BigEndian;
  }

  /** No chunk that the reader accepts has a size of 2 to the 31 or more. */
  lemma {:induction false} SoundIsShort(f: seq<byte>, aifc: bool, pos: nat, formlength: int, info: Info, seek: bool)
    requires ShortSound(info) && ReadChunks(f, aifc, pos, formlength, info, seek).Ok?
    ensures ShortSound(ReadChunks(f, aifc, pos, formlength, info, seek).value.0)
    decreases formlength
  {
    hide ReadChunks, ReadChunk, SignedLong, Number, Body, Skipped;
    if formlength <= 0 {
      NoChunksLeft(f, aifc, pos, formlength, info, seek);
    } else {
      ChunksUnfold(f, aifc, pos, formlength, info, seek);
      if Number(f, pos + 4, 4) != None {
        var name, size := f[pos..pos + 4], SignedLong(Number(f, pos + 4, 4).value);
        NumberIsShort(f, pos + 4);
        SoundOfChunk(aifc, name, Sound(pos + 8, size), Body(f, pos + 8, size), info);
        var c := ReadChunk(aifc, name, Sound(pos + 8, size), Body(f, pos + 8, size), info);
        var next, left := Skipped(f, pos + 8, size, c.value.1), formlength - 8 - size - size % 2;
        SoundIsShort(f, aifc, next, left, c.value.0, name != SSND);
      }
    }
  }

  lemma NoChunksLeft(f: seq<byte>, aifc: bool, pos: nat, formlength: int, info: Info, seek: bool)
    requires formlength <= 0
    ensures ReadChunks(f, aifc, pos, formlength, info, seek) == Ok((info, seek))
  {
  }

  lemma NumberIsShort(f: seq<byte>, i: nat)
    requires Number(f, i, 4) != None
    ensures Number(f, i, 4).value < TWO32 && SignedLong(Number(f, i, 4).value) < TWO31
  {
    BigEndianBound(f[i..i + 4]);
    SmallPowers();
  }

  lemma SoundOfChunk(aifc: bool, name: seq<byte>, s: Sound, b: seq<byte>, info: Info)
    ensures var r := ReadChunk(aifc, name, s, b, info);
      r.Ok? ==> r.value.0.sound == info.sound || r.value.0.sound == Some(s)
  {
    hide ReadComm, ReadMarks, Number, SignedLong, SignedShort;
  }

  lemma FormAccepted(f: seq<byte>)
    requires ReadForm(f).Ok?
    ensures var r := ReadForm(f).value;
      && r.0.comm != None && r.0.sound != None && r.0.sound.value.size < TWO31
      && Number(f, 4, 4) != None && SignedLong(Number(f, 4, 4).value) > 0
  {
    var formlength, kind := SignedLong(Number(f, 4, 4).value), Slice(f, 8, 4);
    assert ShortSound(Info(0, None, None, []));
    SoundIsShort(f, kind == AIFC, 12, formlength - 4, Info(0, None, None, []), true);
    hide ReadChunks, Number, SignedLong, Slice;
  }

  lemma {:induction false} EntriesAreShort(ms: seq<Marker>)
    requires ValidMarkers(ms)
    ensures |MarkEntries(ms)| <= 264 * |ms|
  {
    if ms != [] {
      EntriesAreShort(ms[1..]);
    }
  }

  lemma MostIsSound(p: Params, data: seq<byte>, ms: seq<Marker>)
    requires Writable(p, ms)
    ensures FormOf(p, data, ms) <= |data| + 0x200_0000
  {
    EntriesAreShort(ms);
    PaddedStart(data);
    hide MarkEntries, ValidMarkers, Padded;
  }

  lemma FormField(p: Params, data: seq<byte>, ms: seq<Marker>)
    requires Writable(p, ms)
    ensures Number(Encode(p, data, ms), 4, 4) == Some(FormOf(p, data, ms) % TWO32)
  {
    hide ValidMarkers, MarkChunk, Padded, FramesIn, FormLength, CommHeader, Long, Kind, CommLength;
    hide Number, Encode, ValidParams;
    var n, sound := FramesIn(p, |data|), |Padded(data)|;
    EncodeStarts(p, data, ms);
    FormBounds(p, sound, |MarkChunk(ms)|);
    HeaderPlaces(p, n, FormOf(p, data, ms), sound, Padded(data) + MarkChunk(ms));
    LongAt(Encode(p, data, ms), 4, FormOf(p, data, ms));
  }

  /** A file with a larger form size is refused, or loses sound. */
  lemma LargeFormLosesSound(p: Params, data: seq<byte>, ms: seq<Marker>)
    requires Writable(p, ms) && FormOf(p, data, ms) >= TWO31
    ensures var r := ReadForm(Encode(p, data, ms));
      r.Ok? ==> r.value.0.sound != None && r.value.0.sound.value.size < |data|
  {
    hide Encode, ReadForm, Number, ValidMarkers, ValidParams, FormOf;
    var form := FormOf(p, data, ms);
    FormField(p, data, ms);
    MostIsSound(p, data, ms);
    assert form < TWO32 ==> form % TWO32 == form;
    if ReadForm(Encode(p, data, ms)).Ok? {
      FormAccepted(Encode(p, data, ms));
    }
  }

  lemma LeadLength(p: Params, form: int)
    ensures |Lead(p, form)| == 8 + |Kind(p)|
  {
  }

  lemma SeenIsRecoverable(p: Params, data: seq<byte>, ms: seq<Marker>)
    requires Writable(p, ms) && Loadable(p) && FormOf(p, data, ms) < TWO31
    ensures SeenInfo(p, data, ms) == InfoOf(p, data, ms) <==> Recoverable(p, data, ms)
    ensures SeenComm(p, FramesIn(p, |data|)) == CommOf(p, FramesIn(p, |data|)) && SeenMarks(ms) == KeptOf(ms)
      <==> Recoverable(p, data, ms)
  {
    hide SeenComm, CommOf, Readable, SeenMarks, ReadableMarkers, FormOf, FramesIn, ValidMarkers;
    hide VersionOf, SoundIn, Loadable;
    SeenCommIsRight(p, FramesIn(p, |data|));
    SeenMarksAreRight(ms);
  }

  /** The reader recovers parameters, frame count, sound chunk and markers of a closed file if and only
      if no field uses its sign bit, but for markers that are dropped, and the rate fits the mantissa. */
  lemma EncodeReads(p: Params, data: seq<byte>, ms: seq<Marker>)
    requires Writable(p, ms)
    ensures ReadForm(Encode(p, data, ms)) == Ok((InfoOf(p, data, ms), ms != [])) <==> Recoverable(p, data, ms)
    ensures Recoverable(p, data, ms) ==>
      Body(Encode(p, data, ms), SoundIn(p, data).offset, SoundIn(p, data).size) == SoundBody(data)
  {
    SoundBodyLength(data);
    hide ReadForm, Encode, SeenInfo, Loadable, FormOf, ValidMarkers, ValidParams, SoundBody, Body;
    hide SeenComm, SeenMarks;
    if FormOf(p, data, ms) >= TWO31 {
      LargeFormLosesSound(p, data, ms);
    } else {
      SmallFormReads(p, data, ms);
      if Loadable(p) {
        SeenIsRecoverable(p, data, ms);
      }
    }
  }

  lemma SoundBodyLength(data: seq<byte>)
    ensures |SoundBody(data)| == 8 + |Padded(data)| && |data| <= |Padded(data)|
  {
  }

  lemma HeaderPlaces(p: Params, n: int, form: int, sound: int, post: seq<byte>)
    requires ValidParams(p)
    ensures var f, comm := FORM + Long(form) + CommHeader(p, n, sound) + post, 8 + |Kind(p)|;
      && comm + 16 + CommLength(p) <= |f|
      && f[4..8] == Long(form) && f[comm + 10..comm + 14] == Long(n)
      && f[comm + 12 + CommLength(p)..comm + 16 + CommLength(p)] == Long(sound + 8)
  {
    var h, s := CommHeader(p, n, sound), SoundHeader(p, sound);
    var f := FORM + Long(form) + h + post;
    assert f[8..8 + |h|] == h;
    assert h[|Head(p)|..|Head(p)| + 4] == Long(n) && h[|Head(p)| + 4..|h|] == s;
    assert s[|Middle(p)|..|Middle(p)| + 4] == Long(sound + 8);
    hide CommHeader, SoundHeader, Long;
    Within(f, 8, h, |Head(p)|, |Head(p)| + 4);
    Within(f, 8, h, |Head(p)| + 4, |h|);
    Within(f, 8 + |Head(p)| + 4, s, |Middle(p)|, |Middle(p)| + 4);
  }

  /** A long field holds a number that is not negative if and only if it has 32 bits. */
  lemma LongHolds(b: seq<byte>, i: nat, x: nat)
    requires i + 4 <= |b| && b[i..i + 4] == Long(x)
    ensures Number(b, i, 4) == Some(x) <==> x < TWO32
  {
    LongAt(b, i, x);
    assert x % TWO32 < TWO32;
  }

  lemma HeaderLengths(p: Params, n: int, form: nat, sound: nat, post: seq<byte>)
    requires ValidParams(p)
    ensures var f, comm := FORM + Long(form) + CommHeader(p, n, sound) + post, 8 + |Kind(p)|;
      && comm + 16 + CommLength(p) <= |f|
      && (Number(f, 4, 4) == Some(form) <==> form < TWO32)
      && f[comm + 10..comm + 14] == Long(n)
      && (Number(f, comm + 12 + CommLength(p), 4) == Some(8 + sound) <==> 8 + sound < TWO32)
  {
    hide CommHeader, Long, Number, CommLength, Kind;
    HeaderPlaces(p, n, form, sound, post);
    var f := FORM + Long(form) + CommHeader(p, n, sound) + post;
    LongHolds(f, 4, form);
    LongHolds(f, 8 + |Kind(p)| + 12 + CommLength(p), sound + 8);
  }

  lemma FormBounds(p: Params, sound: nat, marks: nat)
    ensures sound + 28 <= FormLength(p, sound, marks)
  {
  }

  lemma EncodeStarts(p: Params, data: seq<byte>, ms: seq<Marker>)
    requires ValidParams(p) && ValidMarkers(ms) && |ms| < 0x1_0000
    ensures var form := FormLength(p, |Padded(data)|, |MarkChunk(ms)|);
      Encode(p, data, ms)
      == FORM + Long(form) + CommHeader(p, FramesIn(p, |data|), |Padded(data)|) + (Padded(data) + MarkChunk(ms))
  {
    hide ValidMarkers, MarkChunk, Padded, FramesIn, FormLength, CommHeader, Long;
  }

  /** The three lengths of a closed file are right as long as they fit their fields: the form size
      plus 8 is the length of the file, the frame count that of the frames, and the sound size is 8
      plus the padded data. */
  lemma LengthsAreRight(p: Params, data: seq<byte>, ms: seq<Marker>)
    requires ValidParams(p) && ValidMarkers(ms) && |ms| < 0x1_0000
    ensures var f, comm := Encode(p, data, ms), 8 + |Kind(p)|;
      && comm + 16 + CommLength(p) <= |f|
      && (Number(f, 4, 4) == Some(|f| - 8) <==> |f| - 8 < TWO32)
      && (Number(f, comm + 10, 4) == Some(FramesIn(p, |data|)) <==> FramesIn(p, |data|) < TWO32)
      && (Number(f, comm + 12 + CommLength(p), 4) == Some(8 + |Padded(data)|) <==> 8 + |Padded(data)| < TWO32)
  {
    hide ValidMarkers, MarkChunk, Padded, FramesIn, FormLength, CommHeader, Long, Kind, CommLength;
    hide Number, Encode;
    var n, form, sound := FramesIn(p, |data|), FormLength(p, |Padded(data)|, |MarkChunk(ms)|), |Padded(data)|;
    FormBounds(p, sound, |MarkChunk(ms)|);
    FormIsWhole(p, data, ms);
    HeaderLengths(p, n, form, sound, Padded(data) + MarkChunk(ms));
    EncodeStarts(p, data, ms);
    CommFits(p);
    LongHolds(Encode(p, data, ms), 8 + |Kind(p)| + 10, n);
  }

  lemma CommFits(p: Params)
    ensures CommLength(p) >= 18
  {
  }

  // ---------- Other files ----------

  /** The markers that are kept are those with a position or a name. */
  lemma {:induction false} KeptOfIs(ms: seq<Marker>, m: Marker)
    ensures m in KeptOf(ms) <==> m in ms && (m.pos != 0 || |m.name| > 0)
  {
    if ms != [] {
      KeptOfIs(ms[1..], m);
      assert ms == [ms[0]] + ms[1..];
    }
  }

  /** The sample width is the number of whole bytes that the bits need. */
  lemma WidthRoundsUp(b: seq<byte>)
    requires ReadFields(b).Ok?
    ensures Number(b, 6, 2) != None
    ensures var bits, width := SignedShort(Number(b, 6, 2).value), ReadFields(b).value.sampwidth;
      8 * (width - 1) < bits <= 8 * width
  {
    hide Number, FloatAt, SignedShort, SignedLong, Truncate;
  }

  /** The codes of a chunk name. */
  function Codes(name: string): seq<byte>
    requires forall i :: 0 <= i < |name| ==> name[i] as int < 256
  {
    if name == "" then [] else [name[0] as int] + Codes(name[1..])
  }

  lemma FourCodes(name: string)
    requires |name| == 4 && forall i :: 0 <= i < 4 ==> name[i] as int < 256
    ensures Codes(name) == [name[0] as int, name[1] as int, name[2] as int, name[3] as int]
  {
    assert name[1..][1..] == name[2..] && name[2..][1..] == name[3..] && name[3..][1..] == "";
    assert Codes(name[3..]) == [name[3] as int];
    assert Codes(name[2..]) == [name[2] as int, name[3] as int];
    assert Codes(name[1..]) == [name[1] as int, name[2] as int, name[3] as int];
  }

  /** Chunks with these names are read over. */
  lemma OtherChunks(aifc: bool, s: Sound, b: seq<byte>, info: Info)
    ensures forall name :: name in [
        "COMT", "INST", "MIDI", "AESD", "APPL", "NAME", "AUTH", "(c) ", "ANNO"] ==>
      ReadChunk(aifc, Codes(name), s, b, info) == Ok((info, 0))
  {
    forall name | name in ["COMT", "INST", "MIDI", "AESD", "APPL", "NAME", "AUTH", "(c) ", "ANNO"]
      ensures ReadChunk(aifc, Codes(name), s, b, info) == Ok((info, 0))
    {
      FourCodes(name);
      SkippedChunk(aifc, Codes(name), s, b, info);
    }
  }

  lemma SkippedChunk(aifc: bool, name: seq<byte>, s: Sound, b: seq<byte>, info: Info)
    requires name in SKIP
    ensures ReadChunk(aifc, name, s, b, info) == Ok((info, 0))
  {
    assert name[3] != 77 && name[0] != 83 && name[0] != 70 && (name[0] == 77 ==> name[1] == 73);
    assert COMM[3] == 77 && SSND[0] == 83 && FVER[0] == 70 && MARK[0] == 77 && MARK[1] == 65;
    hide ReadComm, ReadMarks, Number;
  }

  /** Where the file ends before the form does, the reader makes do if just 8 bytes are missing. */
  lemma FormTooLong(f: seq<byte>, aifc: bool, pos: nat, left: int, info: Info, seek: bool)
    requires left > 0 && |f| < pos + 8
    ensures ReadChunks(f, aifc, pos, left, info, seek) == if left == 8 then Ok((info, true)) else Fail(EndOfFile)
  {
  }

  // ---------- Odd chunks ----------

  lemma UnknownChunk(aifc: bool, name: seq<byte>, s: Sound, b: seq<byte>, info: Info)
    requires name != [] && name[0] == 0
    ensures ReadChunk(aifc, name, s, b, info) == Fail(BadFormat)
  {
    assert COMM[0] != 0 && SSND[0] != 0 && FVER[0] != 0 && MARK[0] != 0;
  }

  lemma LostPlace(f: seq<byte>, o: nat, left: nat, aifc: bool, info: Info, seek: bool)
    requires 0 < left && o + 8 <= |f| && f[o] == 0
    ensures ReadChunks(f, aifc, o, left, info, seek).Fail?
  {
    var u := Number(f, o + 4, 4).value;
    if SignedLong(u) >= 0 {
      var name := f[o..o + 4];
      assert name[0] == 0;
      UnknownChunk(aifc, name, Sound(o + 8, SignedLong(u)), Body(f, o + 8, SignedLong(u)), info);
    }
  }

  lemma OddUnfolds(f: seq<byte>, o: nat, name: seq<byte>, b: seq<byte>, left: nat, aifc: bool,
      info: Info, seek: bool, r: Info)
    requires o + 8 <= |f| && f[o..o + 4] == name && Body(f, o + 8, |b|) == b && |b| % 2 == 1
    requires Number(f, o + 4, 4) != None && SignedLong(Number(f, o + 4, 4).value) == |b|
    requires ReadChunk(aifc, name, Sound(o + 8, |b|), b, info) == Ok((r, |b|))
    ensures ReadChunks(f, aifc, o, 8 + |b| + 1 + left, info, seek)
      == ReadChunks(f, aifc, o + 8 + |b|, left, r, name != SSND)
  {
    hide ReadChunk, SignedLong, Number, Body;
    var formlength := 8 + |b| + 1 + left;
    assert formlength - 8 - |b| - |b| % 2 == left;
  }

  /** After an odd chunk that is read to its end, a reader that should go on with another chunk takes
      the pad byte for the start of its name, and gives up. */
  lemma OddChunkFails(f: seq<byte>, o: nat, name: seq<byte>, b: seq<byte>, left: nat, aifc: bool,
      info: Info, seek: bool, r: Info)
    requires |b| < TWO31 && |b| % 2 == 1 && o + 8 + |b| + 8 <= |f| && left > 0
    requires f[o..o + 4] == name && f[o + 4..o + 8] == Long(|b|) && f[o + 8..o + 8 + |b|] == b
    requires f[o + 8 + |b|] == 0 && ReadChunk(aifc, name, Sound(o + 8, |b|), b, info) == Ok((r, |b|))
    ensures ReadChunks(f, aifc, o, 8 + |b| + 1 + left, info, seek).Fail?
  {
    assert Body(f, o + 8, |b|) == b;
    hide ReadChunk, ReadChunks, Long, SignedLong, Number, Body;
    LongAt(f, o + 4, |b|);
    LostPlace(f, o + 8 + |b|, left, aifc, r, name != SSND);
    OddUnfolds(f, o, name, b, left, aifc, info, seek, r);
  }

  /** The body of a MARK chunk with one marker, numbered 1, at position 0 and without a name or the
      pad byte of a name: nine bytes. */
  const ODD_MARK: seq<byte> := [0, 1, 0, 1, 0, 0, 0, 0, 0]

  lemma OddMarkReads(aifc: bool, s: Sound, info: Info)
    ensures ReadChunk(aifc, MARK, s, ODD_MARK, info) == Ok((info, 9))
  {
    var b := ODD_MARK;
    ZeroLong();
    assert b[0..2] == Short(1) && b[2..4] == Short(1) && b[4..8] == Long(0);
    ShortAt(b, 0, 1);
    ShortAt(b, 2, 1);
    LongAt(b, 4, 0);
    assert StringAt(b, 8) == Some(([], 9));
    hide Short, Long, Number, StringAt, SignedShort, SignedLong;
    assert EntryAt(b, 2) == (Entry(Marker(1, 0, [])), 9);
    assert ReadMarks(b, 9, 0, info.markers) == Ok((info.markers, 9));
    assert ReadMarks(b, 2, 1, info.markers) == Ok((info.markers, 9));
    MarkReads(aifc, s, b, info, 1);
    assert info.(markers := info.markers) == info;
  }

  lemma ZeroLong()
    ensures Long(0) == [0, 0, 0, 0]
  {
    assert Bytes(1, 0) == [0] && Bytes(2, 0) == [0, 0] && Bytes(3, 0) == [0, 0, 0];
  }

  lemma OddMarkAt(pre: seq<byte>, post: seq<byte>)
    ensures var f, o := pre + ChunkText(MARK, ODD_MARK) + [0] + post, |pre|;
      && |f| == o + 18 + |post|
      && f[o..o + 4] == MARK && f[o + 4..o + 8] == Long(9) && f[o + 8..o + 17] == ODD_MARK && f[o + 17] == 0
  {
    ChunkAt(pre, MARK, ODD_MARK, [0] + post);
    assert pre + ChunkText(MARK, ODD_MARK) + [0] + post == pre + ChunkText(MARK, ODD_MARK) + ([0] + post);
  }

  lemma OddMarkStep(pre: seq<byte>, post: seq<byte>, aifc: bool, info: Info)
    requires |post| >= 8
    ensures ReadChunks(pre + ChunkText(MARK, ODD_MARK) + [0] + post, aifc, |pre|, 18 + |post|, info, true).Fail?
  {
    hide ChunkText, ReadChunks, ReadChunk, Long;
    OddMarkAt(pre, post);
    OddMarkReads(aifc, Sound(|pre| + 8, 9), info);
    var f := pre + ChunkText(MARK, ODD_MARK) + [0] + post;
    OddChunkFails(f, |pre|, MARK, ODD_MARK, |post|, aifc, info, true, info);
  }

  lemma FourParts(l: seq<byte>, c: seq<byte>, m: seq<byte>, s: seq<byte>)
    ensures l + (c + (m + [0] + s)) == l + c + (m + [0] + s) == l + c + m + [0] + s
  {
  }

  lemma ThroughComm(p: Params, n: nat, rest: seq<byte>, form: int)
    requires ValidParams(p) && n < TWO31
    ensures var f := Lead(p, form) + (CommText(p, n) + rest);
      && |f| >= 12
      && LoopOver(p, f) == if !Loadable(p) then Fail(NotModelled)
         else ReadChunks(f, p.aifc, |Lead(p, form) + CommText(p, n)|, |rest|,
                         KindInfo(p).(comm := Some(SeenComm(p, n))), true)
  {
    hide Lead, CommText, ReadChunks, SeenComm, CommLength, VersionOf, KindInfo, ValidParams, Kind, Loadable;
    var l, c := Lead(p, form), CommText(p, n);
    CommTextLength(p, n);
    Associates(l, c, rest);
    assert |c + rest| == 8 + CommLength(p) + |rest| && |l + c| == |l| + 8 + CommLength(p);
    LeadStep(p, form, c + rest);
    LeadLength(p, form);
    CommStep(p, n, l, rest, KindInfo(p), true);
  }

  lemma Associates(l: seq<byte>, c: seq<byte>, r: seq<byte>)
    ensures l + (c + r) == l + c + r
  {
  }

  lemma OddMarkChunks(p: Params, n: nat, post: seq<byte>, form: int)
    requires ValidParams(p) && n < TWO31 && |post| >= 8
    ensures var f := Lead(p, form) + (CommText(p, n) + (ChunkText(MARK, ODD_MARK) + [0] + post));
      |f| >= 12 && LoopOver(p, f).Fail?
  {
    hide Lead, CommText, ChunkText, ReadChunks, SeenComm, CommLength, VersionOf, KindInfo, LoopOver;
    ChunkTextLength(MARK, ODD_MARK);
    ThroughComm(p, n, ChunkText(MARK, ODD_MARK) + [0] + post, form);
    if Loadable(p) {
      OddMarkStep(Lead(p, form) + CommText(p, n), post, p.aifc, KindInfo(p).(comm := Some(SeenComm(p, n))));
      FourParts(Lead(p, form), CommText(p, n), ChunkText(MARK, ODD_MARK), post);
    }
  }

  /** A file with that chunk before its sound. */
  function OddFile(p: Params, n: nat, data: seq<byte>, form: int): seq<byte>
    requires ValidParams(p)
  {
    Lead(p, form) + (CommText(p, n) + (ChunkText(MARK, ODD_MARK) + [0] + ChunkText(SSND, SoundBody(data))))
  }

  /** So no file with that chunk, padded as it should be, before its sound can be opened. */
  lemma OddMarkDefeatsReader(p: Params, n: nat, data: seq<byte>, form: int)
    requires ValidParams(p) && n < TWO31 && 0 < form < TWO31
    requires |OddFile(p, n, data, form)| == form + 8
    ensures ReadForm(OddFile(p, n, data, form)).Fail?
  {
    var s := ChunkText(SSND, SoundBody(data));
    ChunkTextLength(SSND, SoundBody(data));
    hide Lead, CommText, ChunkText, SoundBody, LoopOver, ReadForm;
    OddMarkChunks(p, n, s, form);
    FormIs(p, form, CommText(p, n) + (ChunkText(MARK, ODD_MARK) + [0] + s));
  }
}
