/** Reading back what Aifc_write wrote, in Lib/aifc.py. */
module AifcRoundTrip {
  import opened AifcCodecs
  import opened AifcWriter
  import opened AifcReader
  import opened AifcFiles
  import opened Basics

  // ---------- Sound ----------

  lemma SoundFits(p: Params, data: seq<byte>, c: Comm)
    requires ValidParams(p) && WholeFrames(p, data) && c == CommOf(p, FramesIn(p, |data|))
    ensures FrameSizeOf(c) > 0 && c.nframes == FramesIn(p, |data|) && SizeOf(c, c.nframes) == |data|
  {
  }

  lemma SizeIsNothing(c: Comm)
    ensures SizeOf(c, 0) == 0
  {
  }

  lemma AllFrames(c: Comm, data: seq<byte>)
    requires SizeOf(c, c.nframes) == |data|
    ensures Slice(SoundBody(data), 8, SizeOf(c, c.nframes)) == data
  {
    assert SoundBody(data)[8..8 + |data|] == data;
    SliceIs(SoundBody(data), 8, |data|);
    hide SizeOf, Slice, SoundBody;
  }

  /** What a first call of `readframes` that asks for all frames returns. */
  function FirstRead(f: seq<byte>, c: Comm, s: Sound): (Option<Error>, seq<byte>) {
    var start := After(Body(f, s.offset, s.size), 0, 8);
    if c.nframes == 0 then (None, [])
    else if FrameSizeOf(c) == 0 then (Some(DivisionByZero), Piece(f, s, start, 0))
    else (None, Piece(f, s, start, SizeOf(c, c.nframes)))
  }

  /** Parameters, markers and sound are those that were written. */
  ghost predicate Restored(p: Params, data: seq<byte>, ms: seq<Marker>, comm: Option<Comm>,
      markers: seq<Marker>, sound: seq<byte>)
    requires ValidParams(p)
  {
    comm == Some(CommOf(p, FramesIn(p, |data|))) && markers == KeptOf(ms) && sound == data
  }

  ghost predicate ReadsBack(p: Params, data: seq<byte>, ms: seq<Marker>, f: seq<byte>)
    requires ValidParams(p)
  {
    ReadForm(f).Ok? &&
    var i := ReadForm(f).value.0;
    i.comm != None && i.sound != None &&
    var (error, sound) := FirstRead(f, i.comm.value, i.sound.value);
    error == None && Restored(p, data, ms, i.comm, i.markers, sound)
  }

  lemma EightBytes(data: seq<byte>)
    ensures After(SoundBody(data), 0, 8) == 8
  {
  }

  /** The sound that was written is what the first read returns. */
  lemma SoundReads(p: Params, data: seq<byte>, f: seq<byte>)
    requires ValidParams(p) && WholeFrames(p, data)
    requires Body(f, SoundIn(p, data).offset, SoundIn(p, data).size) == SoundBody(data)
    ensures FirstRead(f, CommOf(p, FramesIn(p, |data|)), SoundIn(p, data)) == (None, data)
  {
    var c := CommOf(p, FramesIn(p, |data|));
    SoundFits(p, data, c);
    AllFrames(c, data);
    EightBytes(data);
    hide SizeOf, Body, SoundBody, SoundIn, FrameSizeOf, FramesIn, CommOf, Slice, After;
  }

  /** A sound chunk that is too short for the data cannot return it. */
  lemma ShortSoundIsLess(p: Params, data: seq<byte>, f: seq<byte>, s: Sound)
    requires ValidParams(p) && s.size < |data|
    ensures FirstRead(f, CommOf(p, FramesIn(p, |data|)), s).1 != data
  {
    var c := CommOf(p, FramesIn(p, |data|));
    assert FrameSizeOf(c) == FrameSize(p) > 0;
    LeTimes(0, c.nframes, FrameSizeOf(c));
    hide Slice, FrameSizeOf, After;
  }

  /** A closed file is read back in full, by opening it and reading all frames, if and only if it is
      recoverable. */
  lemma ReadBackIsExact(p: Params, data: seq<byte>, ms: seq<Marker>)
    requires Writable(p, ms) && WholeFrames(p, data)
    ensures ReadsBack(p, data, ms, Encode(p, data, ms)) <==> Recoverable(p, data, ms)
  {
    var f := Encode(p, data, ms);
    hide Encode, ReadForm, WholeFrames, CommOf, FramesIn, KeptOf, ValidMarkers, ValidParams;
    hide FirstRead, Body, SoundIn, SoundBody;
    hide SeenMarks, SeenComm, Loadable, FormOf, Recoverable, VersionOf;
    if FormOf(p, data, ms) >= TWO31 {
      LargeFormLosesSound(p, data, ms);
      RecoverableIsLoadable(p, data, ms);
      if ReadForm(f).Ok? {
        ShortSoundIsLess(p, data, f, ReadForm(f).value.0.sound.value);
      }
    } else {
      SmallFormReads(p, data, ms);
      RecoverableIsLoadable(p, data, ms);
      if Loadable(p) {
        SeenIsRecoverable(p, data, ms);
        SoundReads(p, data, f);
      }
    }
  }

  lemma RecoverableIsLoadable(p: Params, data: seq<byte>, ms: seq<Marker>)
    requires Writable(p, ms)
    ensures Recoverable(p, data, ms) ==> Loadable(p) && FormOf(p, data, ms) < TWO31
  {
    hide FormOf;
  }

  /** What comes of opening any file and reading all of its frames. */
  predicate FileReads(f: seq<byte>, error: Option<Error>, comm: Option<Comm>, markers: seq<Marker>,
      sound: seq<byte>) {
    match ReadForm(f)
    case Fail(e) => error == Some(e)
    case Ok((i, _)) =>
      i.comm != None && i.sound != None && comm == i.comm && markers == i.markers &&
      var r := FirstRead(f, i.comm.value, i.sound.value);
      error == r.0 && (error == None ==> sound == r.1)
  }

  /** Opening any file and reading all of its frames. */
  method ReadFile(f: seq<byte>) returns (error: Option<Error>, r: AifcRead, sound: seq<byte>)
    ensures FileReads(f, error, r.comm, r.markers, sound)
  {
    hide ReadForm, SizeOf, FrameSizeOf, Piece, Body, After;
    var file := new File(f);
    r := new AifcRead(file);
    sound := [];
    error := r.InitFp();
    if error == None {
      SizeIsNothing(r.comm.value);
      error, sound := r.ReadFrames(r.comm.value.nframes);
    }
  }

  /** Opening a closed file and reading all of its frames. */
  method ReadBack(f: seq<byte>, ghost p: Params, ghost data: seq<byte>, ghost ms: seq<Marker>)
    returns (error: Option<Error>, r: AifcRead, sound: seq<byte>)
    requires Writable(p, ms) && WholeFrames(p, data) && f == Encode(p, data, ms)
    ensures error == None && Restored(p, data, ms, r.comm, r.markers, sound) <==> Recoverable(p, data, ms)
  {
    hide Encode, ReadForm, WholeFrames, CommOf, FramesIn, KeptOf, ValidMarkers, ValidParams;
    hide FirstRead, Recoverable, Restored;
    error, r, sound := ReadFile(f);
    ReadBackIsExact(p, data, ms);
  }

  // ---------- Reading in pieces ----------

  datatype Request = Seek(pos: int) | Restart | Tell | Read(n: nat)

  datatype Reply = Refused | Moved | Position(pos: int) | Played(data: seq<byte>)

  /** A player of the padded data: the byte at which it is, and the frame that it reports. */
  datatype Player = Player(cursor: nat, tell: int)

  /** What a request does and returns, in terms of the data only. */
  function Serve(p: Params, data: seq<byte>, at: Player, r: Request): (a: (Player, Reply))
    requires ValidParams(p) && at.cursor <= |Padded(data)|
    ensures a.0.cursor <= |Padded(data)|
  {
    match r
    case Seek(pos) =>
      if 0 <= pos <= FramesIn(p, |data|) then
        SizeWithin(p, data, pos);
        (Player(SoundSize(p, pos), pos), Moved)
      else (at, Refused)
    case Restart => (Player(0, 0), Moved)
    case Tell => (at, Position(at.tell))
    case Read(n) =>
      var piece := Next(Padded(data), at.cursor, SoundSize(p, n));
      (Player(at.cursor + |piece|, at.tell + |piece| / FrameSize(p)), Played(piece))
  }

  function Replies(p: Params, data: seq<byte>, at: Player, rs: seq<Request>): seq<Reply>
    requires ValidParams(p) && at.cursor <= |Padded(data)|
    decreases |rs|
  {
    if rs == [] then []
    else
      var (next, reply) := Serve(p, data, at, rs[0]);
      [reply] + Replies(p, data, next, rs[1..])
  }

  /** Bytes i to i + n, or those up to the end. */
  function Next(b: seq<byte>, i: nat, n: int): seq<byte>
    requires i <= |b|
  {
    if n < 0 then [] else if i + n <= |b| then b[i..i + n] else b[i..]
  }

  lemma SizeWithin(p: Params, data: seq<byte>, k: nat)
    requires ValidParams(p) && k <= FramesIn(p, |data|)
    ensures 0 <= SoundSize(p, k) <= |data| <= |Padded(data)|
  {
    LeTimes(0, k, FrameSize(p));
    LeTimes(k, FramesIn(p, |data|), FrameSize(p));
  }

  /** After a seek, wherever the player was, it plays the frames that are asked for. */
  lemma SeekThenRead(p: Params, data: seq<byte>, at: Player, k: nat, n: nat)
    requires ValidParams(p) && at.cursor <= |Padded(data)| && k + n <= FramesIn(p, |data|)
    ensures 0 <= SoundSize(p, k) <= SoundSize(p, k + n) <= |data|
    ensures Replies(p, data, at, [Seek(k), Read(n), Tell])
      == [Moved, Played(data[SoundSize(p, k)..SoundSize(p, k + n)]), Position(k + n)]
  {
    SizeWithin(p, data, k);
    FramesPlayed(p, data, Player(SoundSize(p, k), k), n);
    hide Padded, SoundSize, FramesIn, Next, ValidParams;
    var rs := [Seek(k), Read(n), Tell];
    assert rs[1..] == [Read(n), Tell] && [Read(n), Tell][1..] == [Tell] && [Tell][1..] == [];
    var there, after := Player(SoundSize(p, k), k), Player(SoundSize(p, k + n), k + n);
    var played := Played(data[SoundSize(p, k)..SoundSize(p, k + n)]);
    assert Serve(p, data, at, Seek(k)) == (there, Moved) && Serve(p, data, after, Tell) == (after, Position(k + n));
    hide Serve;
    assert Replies(p, data, after, [Tell]) == [Position(k + n)] + Replies(p, data, after, []);
    assert Replies(p, data, there, [Read(n), Tell]) == [played] + Replies(p, data, after, [Tell]);
    assert Replies(p, data, at, rs) == [Moved] + Replies(p, data, there, [Read(n), Tell]);
  }

  /** At a frame of the data, as many as there are can be played, and the player is at the frame after
      them. */
  lemma FramesPlayed(p: Params, data: seq<byte>, at: Player, n: nat)
    requires ValidParams(p) && at.tell >= 0 && at.cursor == SoundSize(p, at.tell) && at.tell + n <= FramesIn(p, |data|)
    ensures 0 <= at.cursor <= SoundSize(p, at.tell + n) <= |data| <= |Padded(data)|
    ensures Serve(p, data, at, Read(n))
      == (Player(SoundSize(p, at.tell + n), at.tell + n), Played(data[at.cursor..SoundSize(p, at.tell + n)]))
  {
    SizeWithin(p, data, at.tell);
    SizeWithin(p, data, at.tell + n);
    MoreFrames(p, at.tell, n);
    LeTimes(0, n, FrameSize(p));
    assert SoundSize(p, n) / FrameSize(p) == n by { MultipleHasNoRest(n, FrameSize(p)); }
    PaddedStart(data);
    hide SoundSize, FramesIn, FrameSize, Padded;
    StartOf(Padded(data), data, at.cursor, SoundSize(p, at.tell + n));
  }

  lemma StartOf(b: seq<byte>, a: seq<byte>, i: nat, j: nat)
    requires |a| <= |b| && b[..|a|] == a && i <= j <= |a|
    ensures b[i..j] == a[i..j]
  {
    SliceOfSlice(b, 0, |a|, i, j);
    assert b[0..|a|] == b[..|a|];
  }

  /** A read beyond the last frame returns the rest of the data, and its pad byte if there is one. */
  lemma ReadPastEnd(p: Params, data: seq<byte>, k: nat, n: nat)
    requires ValidParams(p) && WholeFrames(p, data) && k <= FramesIn(p, |data|) < k + n
    ensures 0 <= SoundSize(p, k) <= |data|
    ensures Serve(p, data, Player(SoundSize(p, k), k), Read(n)).1 == Played(data[SoundSize(p, k)..])
      <==> |data| % 2 == 0
  {
    SizeWithin(p, data, k);
    MoreFrames(p, k, n);
    MoreFrames(p, FramesIn(p, |data|), k + n - FramesIn(p, |data|));
    LeTimes(1, k + n - FramesIn(p, |data|), FrameSize(p));
    hide SoundSize, FramesIn, WholeFrames;
    assert SoundSize(p, k + n) >= |data| + 1 >= |Padded(data)|;
    var piece := Padded(data)[SoundSize(p, k)..];
    assert Next(Padded(data), SoundSize(p, k), SoundSize(p, n)) == piece;
    assert |piece| == |Padded(data)| - SoundSize(p, k) && |data[SoundSize(p, k)..]| == |data| - SoundSize(p, k);
  }

  function Reads(counts: seq<nat>): seq<Request> {
    if counts == [] then [] else [Read(counts[0])] + Reads(counts[1..])
  }

  function Total(counts: seq<nat>): nat {
    if counts == [] then 0 else counts[0] + Total(counts[1..])
  }

  function Heard(replies: seq<Reply>): seq<byte> {
    if replies == [] then [] else (if replies[0].Played? then replies[0].data else []) + Heard(replies[1..])
  }

  /** Any sequence of reads plays the consecutive frames. */
  lemma {:induction false} ReadsAreConsecutive(p: Params, data: seq<byte>, k: nat, counts: seq<nat>)
    requires ValidParams(p) && k + Total(counts) <= FramesIn(p, |data|)
    ensures 0 <= SoundSize(p, k) <= SoundSize(p, k + Total(counts)) <= |data| <= |Padded(data)|
    ensures Heard(Replies(p, data, Player(SoundSize(p, k), k), Reads(counts)))
      == data[SoundSize(p, k)..SoundSize(p, k + Total(counts))]
    decreases |counts|
  {
    SizeWithin(p, data, k);
    if counts != [] {
      var k' := k + counts[0];
      FramesPlayed(p, data, Player(SoundSize(p, k), k), counts[0]);
      ReadsAreConsecutive(p, data, k', counts[1..]);
      var first := Played(data[SoundSize(p, k)..SoundSize(p, k')]);
      ReadsUnfold(p, data, Player(SoundSize(p, k), k), counts, Player(SoundSize(p, k'), k'), first.data);
    }
  }

  lemma ReadsUnfold(p: Params, data: seq<byte>, at: Player, counts: seq<nat>, next: Player, piece: seq<byte>)
    requires ValidParams(p) && at.cursor <= |Padded(data)| && next.cursor <= |Padded(data)| && counts != []
    requires Serve(p, data, at, Read(counts[0])) == (next, Played(piece))
    ensures Heard(Replies(p, data, at, Reads(counts))) == piece + Heard(Replies(p, data, next, Reads(counts[1..])))
  {
    hide Padded, Serve, ValidParams;
    var more := Replies(p, data, next, Reads(counts[1..]));
    assert Reads(counts)[1..] == Reads(counts[1..]);
    assert ([Played(piece)] + more)[1..] == more;
  }

  /** The reader takes the channels for what they are; the rate and the markers do not matter here. */
  predicate Playable(p: Params, data: seq<byte>, ms: seq<Marker>)
    requires Writable(p, ms)
  {
    Loadable(p) && p.nchannels < 0x8000 && FormOf(p, data, ms) < TWO31
  }

  /** The reader is where the player is, in a sound chunk whose text is given. */
  ghost predicate At(r: AifcRead, c: Comm, text: seq<byte>, at: Player)
    reads r, r.sound, if r.sound == null then {} else {r.sound.file}
  {
    && r.Opened() && r.comm == Some(c) && FrameSizeOf(c) > 0 && !r.OutOfSound()
    && r.sound.Text() == text && r.sound.size == |text|
    && r.SoundCursor() == 8 + at.cursor && r.soundpos == at.tell
  }

  /** What the reader and the player agree about. */
  predicate SameFrames(c: Comm, p: Params, data: seq<byte>)
    requires ValidParams(p)
  {
    FrameSizeOf(c) == FrameSize(p) && c.nframes == FramesIn(p, |data|)
  }

  lemma SameSize(c: Comm, p: Params, data: seq<byte>, n: int)
    requires ValidParams(p) && SameFrames(c, p, data)
    ensures SizeOf(c, n) == SoundSize(p, n) && FrameSizeOf(c) == FrameSize(p) > 0 && c.nframes == FramesIn(p, |data|)
  {
  }

  lemma PieceOfSound(data: seq<byte>, i: nat, n: nat)
    requires i <= |Padded(data)|
    ensures Slice(SoundBody(data), 8 + i, n) == Next(Padded(data), i, n)
  {
    var b, z := SoundBody(data), Padded(data);
    assert |b| == 8 + |z| && b[8..8 + |z|] == z;
    SliceIs(b, 8 + i, n);
    hide Padded, SoundBody, Slice;
    if i + n <= |z| {
      Within(b, 8, z, i, i + n);
    } else {
      Within(b, 8, z, i, |z|);
    }
  }

  method ReadMore(r: AifcRead, n: nat, ghost c: Comm, ghost p: Params, ghost data: seq<byte>, ghost at: Player)
      returns (error: Option<Error>, piece: seq<byte>)
    requires r.Opened() && ValidParams(p) && at.cursor <= |Padded(data)|
    modifies r, r.sound, r.file
    ensures r.Opened() && r.sound == old(r.sound)
    ensures SameFrames(c, p, data) && old(At(r, c, SoundBody(data), at)) ==>
      && error == None && Serve(p, data, at, Read(n)).1 == Played(piece)
      && At(r, c, SoundBody(data), Serve(p, data, at, Read(n)).0)
  {
    ghost var playing := SameFrames(c, p, data) && At(r, c, SoundBody(data), at);
    if playing {
      SameSize(c, p, data, n);
      SizeIsPositive(c, n);
      if SoundSize(p, n) >= 0 {
        PieceOfSound(data, at.cursor, SoundSize(p, n));
      }
      WholeDivision(c, p);
    }
    hide Body, After, SizeOf, Slice, FrameSizeOf, FrameSize, FramesOf;
    hide SoundBody, Padded, SoundSize, SameFrames, FramesIn, Next;
    hide AifcRead.SoundCursor, AifcRead.OutOfSound;
    error, piece := r.ReadFrames(n);
    if playing {
      NotOut(r);
    }
  }

  lemma WholeDivision(c: Comm, p: Params)
    requires FrameSizeOf(c) == FrameSize(p) > 0
    ensures forall n: nat :: FramesOf(c, n) == n / FrameSize(p)
    ensures 0 / FrameSize(p) == 0
  {
    QuotientIs(0, FrameSize(p), 0, 0);
  }

  lemma NotOut(r: AifcRead)
    requires r.Opened() && !r.seekNeeded
    ensures !r.OutOfSound()
  {
  }

  /** A reader that has yet to seek frame k. */
  lemma SeeksFrame(r: AifcRead, c: Comm, p: Params, data: seq<byte>, k: nat)
    requires ValidParams(p) && SameFrames(c, p, data) && k <= FramesIn(p, |data|)
    requires r.Opened() && r.comm == Some(c) && r.seekNeeded && r.soundpos == k
    requires r.sound.Text() == SoundBody(data) && r.sound.size == |SoundBody(data)|
    ensures SoundSize(p, k) >= 0 && At(r, c, SoundBody(data), Player(SoundSize(p, k), k))
  {
    SameSize(c, p, data, k);
    SizeWithin(p, data, k);
    EightBytes(data);
    SoundBodyLength(data);
    hide SizeOf, SoundSize, FrameSizeOf, FrameSize, FramesIn, SoundBody, After, Body, Padded;
  }

  method SeekFrame(r: AifcRead, pos: int, ghost c: Comm, ghost p: Params, ghost data: seq<byte>, ghost at: Player)
      returns (ok: bool)
    requires r.Opened() && ValidParams(p) && at.cursor <= |Padded(data)|
    modifies r
    ensures r.Opened() && r.sound == old(r.sound)
    ensures SameFrames(c, p, data) && old(At(r, c, SoundBody(data), at)) ==>
      Serve(p, data, at, Seek(pos)).1 == (if ok then Moved else Refused) &&
      At(r, c, SoundBody(data), Serve(p, data, at, Seek(pos)).0)
  {
    ghost var playing := SameFrames(c, p, data) && At(r, c, SoundBody(data), at);
    if playing {
      SameSize(c, p, data, 0);
    }
    hide Body, After, SizeOf, FrameSizeOf, FrameSize, SoundBody, Padded, SoundSize, SameFrames, FramesIn;
    ok := r.SetPos(pos);
    if playing && ok {
      SeeksFrame(r, c, p, data, pos);
    }
  }

  method RewindFrames(r: AifcRead, ghost c: Comm, ghost p: Params, ghost data: seq<byte>, ghost at: Player)
    requires r.Opened() && ValidParams(p) && at.cursor <= |Padded(data)|
    modifies r
    ensures r.Opened() && r.sound == old(r.sound)
    ensures SameFrames(c, p, data) && old(At(r, c, SoundBody(data), at)) ==>
      At(r, c, SoundBody(data), Player(0, 0))
  {
    ghost var playing := SameFrames(c, p, data) && At(r, c, SoundBody(data), at);
    NoSize(p);
    hide Body, After, SizeOf, FrameSizeOf, FrameSize, SoundBody, Padded, SoundSize, SameFrames, FramesIn;
    hide AifcRead.SoundCursor, AifcRead.OutOfSound;
    r.Rewind();
    if playing {
      SeeksFrame(r, c, p, data, 0);
    }
  }

  method ServeRequest(r: AifcRead, q: Request, ghost c: Comm, ghost p: Params, ghost data: seq<byte>, ghost at: Player)
      returns (error: Option<Error>, reply: Reply)
    requires r.Opened() && ValidParams(p) && at.cursor <= |Padded(data)|
    modifies r, r.sound, r.file
    ensures r.Opened() && r.sound == old(r.sound)
    ensures SameFrames(c, p, data) && old(At(r, c, SoundBody(data), at)) ==>
      error == None && Serve(p, data, at, q).1 == reply && At(r, c, SoundBody(data), Serve(p, data, at, q).0)
  {
    hide SoundBody, Padded, SoundSize, SameFrames, FramesIn, FrameSize, AifcRead.Opened;
    error := None;
    match q {
      case Seek(pos) =>
        var ok := SeekFrame(r, pos, c, p, data, at);
        reply := if ok then Moved else Refused;
      case Restart =>
        RewindFrames(r, c, p, data, at);
        reply := Moved;
      case Tell =>
        reply := Position(r.soundpos);
      case Read(n) =>
        var piece;
        error, piece := ReadMore(r, n, c, p, data, at);
        reply := Played(piece);
    }
  }

  lemma NoSize(p: Params)
    ensures SoundSize(p, 0) == 0
  {
  }

  lemma ChannelsAreSeen(p: Params, n: nat)
    requires Loadable(p) && p.nchannels < 0x8000
    ensures FrameSizeOf(SeenComm(p, n)) == FrameSize(p) > 0 && SeenComm(p, n).nframes == n
  {
    hide Truncate, Stored, Bits;
    assert SignedShort(p.nchannels) == p.nchannels;
    assert FrameSizeOf(SeenComm(p, n)) == FrameSize(p) > 0;
  }

  lemma PlayableIsOpen(p: Params, data: seq<byte>, ms: seq<Marker>)
    requires Writable(p, ms) && Playable(p, data, ms)
    ensures var f, c := Encode(p, data, ms), SeenComm(p, FramesIn(p, |data|));
      && ReadForm(f) == Ok((SeenInfo(p, data, ms), ms != []))
      && Body(f, SoundIn(p, data).offset, SoundIn(p, data).size) == SoundBody(data)
      && SoundIn(p, data).size == |SoundBody(data)| && SameFrames(c, p, data)
  {
    assert SoundIn(p, data).size == |SoundBody(data)|;
    hide Encode, ReadForm, SeenInfo, SeenComm, Body, SoundIn, SoundBody, FrameSizeOf, Loadable;
    hide FramesIn, ValidMarkers, FormOf, FrameSize;
    ChannelsAreSeen(p, FramesIn(p, |data|));
    SmallFormReads(p, data, ms);
  }

  lemma StartsAtFirst(r: AifcRead, c: Comm, p: Params, data: seq<byte>)
    requires ValidParams(p) && SameFrames(c, p, data)
    requires r.Opened() && r.comm == Some(c) && r.soundpos == 0
    requires r.sound.Text() == SoundBody(data) && r.sound.size == |SoundBody(data)|
    requires !r.seekNeeded ==> r.sound.sizeRead == After(r.sound.Text(), 0, 8)
    ensures At(r, c, SoundBody(data), Player(0, 0))
  {
    NoSize(p);
    if r.seekNeeded {
      SeeksFrame(r, c, p, data, 0);
    } else {
      SameSize(c, p, data, 0);
      EightBytes(data);
      hide SoundBody, After, Body, FrameSizeOf, FrameSize, SizeOf, SoundSize;
      NotOut(r);
    }
  }

  method ServeAll(r: AifcRead, requests: seq<Request>, ghost c: Comm, ghost p: Params, ghost data: seq<byte>)
      returns (error: Option<Error>, replies: seq<Reply>)
    requires r.Opened() && ValidParams(p)
    modifies r, r.sound, r.file
    ensures SameFrames(c, p, data) && old(At(r, c, SoundBody(data), Player(0, 0))) ==>
      error == None && replies == Replies(p, data, Player(0, 0), requests)
  {
    ghost var playing := SameFrames(c, p, data) && At(r, c, SoundBody(data), Player(0, 0));
    hide At, SoundBody, Padded, SameFrames, Serve, Replies;
    hide AifcRead.Opened;
    ghost var at := Player(0, 0);
    error, replies := None, [];
    assert requests[0..] == requests;
    assert [] + Replies(p, data, at, requests) == Replies(p, data, at, requests);
    for i := 0 to |requests|
      invariant error == None && r.Opened() && r.sound == old(r.sound) && at.cursor <= |Padded(data)|
      invariant playing ==> At(r, c, SoundBody(data), at)
      invariant playing ==>
        replies + Replies(p, data, at, requests[i..]) == Replies(p, data, Player(0, 0), requests)
    {
      RepliesUnfold(p, data, at, requests, i);
      var reply;
      error, reply := ServeRequest(r, requests[i], c, p, data, at);
      if error != None {
        return;
      }
      at, replies := Serve(p, data, at, requests[i]).0, replies + [reply];
    }
    NoReplies(p, data, at);
    assert requests[|requests|..] == [];
    assert replies + [] == replies;
  }

  lemma RepliesUnfold(p: Params, data: seq<byte>, at: Player, rs: seq<Request>, i: nat)
    requires ValidParams(p) && at.cursor <= |Padded(data)| && i < |rs|
    ensures var (next, reply) := Serve(p, data, at, rs[i]);
      forall before: seq<Reply> ::
        before + Replies(p, data, at, rs[i..]) == before + [reply] + Replies(p, data, next, rs[i + 1..])
  {
    hide Padded, Serve;
    assert rs[i..][1..] == rs[i + 1..];
  }

  lemma NoReplies(p: Params, data: seq<byte>, at: Player)
    requires ValidParams(p) && at.cursor <= |Padded(data)|
    ensures Replies(p, data, at, []) == []
  {
  }

  /** Opening a closed file and serving any sequence of seeks, rewinds and reads: the replies are those
      of a player of the data. */
  method ReadPieces(f: seq<byte>, requests: seq<Request>, ghost p: Params, ghost data: seq<byte>, ghost ms: seq<Marker>)
      returns (error: Option<Error>, replies: seq<Reply>)
    requires Writable(p, ms) && f == Encode(p, data, ms)
    ensures Playable(p, data, ms) ==> error == None && replies == Replies(p, data, Player(0, 0), requests)
  {
    ghost var playing := Playable(p, data, ms);
    ghost var c := if playing then SeenComm(p, FramesIn(p, |data|)) else CommOf(p, 0);
    hide ReadForm, Encode, Body, SoundBody, FramesIn, FrameSizeOf, CommOf, SeenComm, After, SizeOf, SoundSize, Replies;
    hide ValidMarkers, FormOf, ValidParams, SeenMarks, VersionOf, Kind, CommLength, Playable, SameFrames;
    if playing {
      PlayableIsOpen(p, data, ms);
    }
    var file := new File(f);
    var r := new AifcRead(file);
    replies := [];
    error := r.InitFp();
    if error != None {
      return;
    }
    if playing {
      StartsAtFirst(r, c, p, data);
    }
    error, replies := ServeAll(r, requests, c, p, data);
  }

  // ---------- Whole runs ----------

  /** A whole run of the writer that does not start with a write of zero frames, read back: everything
      is restored if and only if what was written is recoverable. */
  method WriteThenRead(p: Params, estimate: int, ops: seq<Op>)
    returns (error: Option<Error>, r: AifcRead, sound: seq<byte>)
    requires ValidParams(p) && ValidOps(p, ops) && |MarkersOf(ops, [])| < 0x1_0000
    ensures ValidMarkers(MarkersOf(ops, []))
    ensures StartsWithSound(ops) ==>
      (error == None && Restored(p, SoundOf(ops), MarkersOf(ops, []), r.comm, r.markers, sound)
       <==> Recoverable(p, SoundOf(ops), MarkersOf(ops, [])))
  {
    AllMarkersValid(p, ops);
    SoundOfWhole(p, ops);
    var f := WriteAll(p, estimate, ops);
    hide *;
    error, r, sound := ReadFile(f);
    if StartsWithSound(ops) {
      FileOfRun(p, ops, f, error, r.comm, r.markers, sound);
    }
  }

  lemma FileOfRun(p: Params, ops: seq<Op>, f: seq<byte>, error: Option<Error>, comm: Option<Comm>,
      markers: seq<Marker>, sound: seq<byte>)
    requires Writable(p, MarkersOf(ops, [])) && WholeFrames(p, SoundOf(ops))
    requires f == Encode(p, SoundOf(ops), MarkersOf(ops, []))
    requires FileReads(f, error, comm, markers, sound)
    ensures error == None && Restored(p, SoundOf(ops), MarkersOf(ops, []), comm, markers, sound)
      <==> Recoverable(p, SoundOf(ops), MarkersOf(ops, []))
  {
    hide Encode, ReadForm, WholeFrames, FirstRead, Recoverable, Restored, Writable, SoundOf, MarkersOf;
    ReadBackIsExact(p, SoundOf(ops), MarkersOf(ops, []));
  }
}
