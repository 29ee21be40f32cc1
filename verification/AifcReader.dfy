/** The class Aifc_read of Lib/aifc.py, for uncompressed data. */
module AifcReader {
  import opened AifcCodecs
  import opened AifcWriter
  import opened Basics

  datatype Error = EndOfFile | BadFormat | NotModelled | OutOfRange | DivisionByZero

  datatype Outcome<+T> = Ok(value: T) | Fail(error: Error)

  // ---------- What the reader makes of a file ----------

  /** The bytes that a read of n from position i returns: fewer, or none, at the end. */
  function Slice(b: seq<byte>, i: nat, n: nat): (s: seq<byte>)
    ensures |s| <= n && i + |s| <= if i <= |b| then |b| else i
  {
    if i >= |b| then [] else if i + n <= |b| then b[i..i + n] else b[i..]
  }

  /** The cursor after that read. */
  function After(b: seq<byte>, i: nat, n: nat): nat {
    i + |Slice(b, i, n)|
  }

  /** A big-endian number of k bytes at i, if they are there. */
  function Number(b: seq<byte>, i: nat, k: nat): Option<nat> {
    if i + k <= |b| then Some(BigEndian(b[i..i + k])) else None
  }

  /** A counted string at i, and the cursor after it and its pad byte. */
  function StringAt(b: seq<byte>, i: nat): Option<(seq<byte>, nat)> {
    if i >= |b| then None
    else
      var s := Slice(b, i + 1, b[i]);
      var j := i + 1 + |s|;
      Some((s, if b[i] % 2 == 0 then After(b, j, 1) else j))
  }

  /** The bytes of "not compressed". */
  const NOT_COMPRESSED: seq<byte> := [110, 111, 116, 32, 99, 111, 109, 112, 114, 101, 115, 115, 101, 100]

  datatype Comm = Comm(nchannels: int, nframes: int, sampwidth: int, framerate: int, compname: seq<byte>)

  datatype Sound = Sound(offset: nat, size: nat)

  datatype Info = Info(version: int, comm: Option<Comm>, sound: Option<Sound>, markers: seq<Marker>)

  function FloatAt(b: seq<byte>, i: nat): Option<FloatResult> {
    match (Number(b, i, 2), Number(b, i + 2, 4), Number(b, i + 6, 4))
    case (Some(e), Some(hi), Some(lo)) => Some(ReadFloat(SignedShort(e), hi, lo))
    case _ => None
  }

  /** The first four fields of the COMM chunk. */
  function ReadFields(b: seq<byte>): Outcome<Comm> {
    match (Number(b, 0, 2), Number(b, 2, 4), Number(b, 6, 2), FloatAt(b, 8))
    case (Some(c), Some(n), Some(w), Some(Finite(rate))) =>
      Ok(Comm(SignedShort(c), SignedLong(n), (SignedShort(w) + 7) / 8, Truncate(rate), NOT_COMPRESSED))
    case (Some(_), Some(_), Some(_), Some(Huge(_))) => Fail(NotModelled)
    case _ => Fail(EndOfFile)
  }

  /** `_read_comm_chunk`, with the number of bytes that it reads. */
  function ReadComm(aifc: bool, size: nat, b: seq<byte>): Outcome<(Comm, nat)> {
    match ReadFields(b)
    case Fail(e) => Fail(e)
    case Ok(comm) =>
      if !aifc then Ok((comm, 18))
      else if size == 18 then Fail(NotModelled)
      else (
        match StringAt(b, After(b, 18, 4))
        case None => Fail(BadFormat)
        case Some(r) => if Slice(b, 18, 4) == NONE then Ok((comm.(compname := r.0), r.1)) else Fail(NotModelled)
      )
  }

  datatype Entry = Truncated | Unreadable | Entry(marker: Marker)

  /** One marker at i, and the cursor after it. */
  function EntryAt(b: seq<byte>, i: nat): (Entry, nat) {
    match (Number(b, i, 2), Number(b, i + 2, 4))
    case (Some(id), Some(at)) => (
      match StringAt(b, i + 6)
      case None => (Unreadable, i + 6)
      case Some(r) => (Entry(Marker(SignedShort(id), SignedLong(at), r.0)), r.1)
    )
    case _ => (Truncated, After(b, i, 6))
  }

  /** Markers at position 0 without a name are dropped. */
  predicate Kept(m: Marker) {
    m.pos != 0 || m.name != []
  }

  /** The loop of `_readmark`: a truncated entry ends it. */
  function ReadMarks(b: seq<byte>, i: nat, n: int, ms: seq<Marker>): Outcome<(seq<Marker>, nat)>
    decreases n
  {
    if n <= 0 then Ok((ms, i))
    else match EntryAt(b, i)
      case (Truncated, j) => Ok((ms, j))
      case (Unreadable, _) => Fail(BadFormat)
      case (Entry(m), j) => ReadMarks(b, j, n - 1, if Kept(m) then ms + [m] else ms)
  }

  /** Chunk names that are read over. */
  const SKIP: set<seq<byte>> := {
    [67, 79, 77, 84], [73, 78, 83, 84], [77, 73, 68, 73], [65, 69, 83, 68], [65, 80, 80, 76],
    [78, 65, 77, 69], [65, 85, 84, 72], [40, 99, 41, 32], [65, 78, 78, 79] }

  /** The bytes of a chunk that are in the file. */
  function Body(f: seq<byte>, offset: nat, size: nat): seq<byte> {
    Slice(f, offset, size)
  }

  /** One pass of the loop in `initfp`, with the number of bytes of the chunk that it reads. */
  function ReadChunk(aifc: bool, name: seq<byte>, s: Sound, b: seq<byte>, info: Info): Outcome<(Info, nat)> {
    if name == COMM then (
      match ReadComm(aifc, s.size, b)
      case Ok(r) => Ok((info.(comm := Some(r.0)), r.1))
      case Fail(e) => Fail(e)
    ) else if name == SSND then Ok((info.(sound := Some(s)), After(b, 0, 8)))
    else if name == FVER then (
      match Number(b, 0, 4)
      case Some(v) => Ok((info.(version := SignedLong(v)), 4))
      case None => Fail(EndOfFile)
    ) else if name == MARK then (
      match Number(b, 0, 2)
      case None => Fail(EndOfFile)
      case Some(n) =>
        match ReadMarks(b, 2, SignedShort(n), info.markers)
        case Ok(r) => Ok((info.(markers := r.0), r.1))
        case Fail(e) => Fail(e)
    ) else if name in SKIP then Ok((info, 0))
    else Fail(BadFormat)
  }

  /** Where `skip` leaves the file: the pad byte of an odd chunk is passed over only if the chunk
      has not been read to its end. */
  function Skipped(f: seq<byte>, offset: nat, size: nat, read: nat): nat {
    offset + size + if size % 2 == 1 && read < size && offset + size < |f| then 1 else 0
  }

  /** The loop in `initfp`; the flag says that the file is not at the sound data. */
  function ReadChunks(f: seq<byte>, aifc: bool, pos: nat, formlength: int, info: Info,
      seek: bool): Outcome<(Info, bool)>
    decreases formlength
  {
    if formlength <= 0 then Ok((info, seek))
    else match Number(f, pos + 4, 4)
      case None => if formlength == 8 then Ok((info, true)) else Fail(EndOfFile)
      case Some(u) =>
        var size := SignedLong(u);
        if size < 0 then Fail(NotModelled)
        else
          var name := f[pos..pos + 4];
          match ReadChunk(aifc, name, Sound(pos + 8, size), Body(f, pos + 8, size), info)
          case Fail(e) => Fail(e)
          case Ok(r) =>
            ReadChunks(f, aifc, Skipped(f, pos + 8, size, r.1), formlength - 8 - size - size % 2, r.0, name != SSND)
  }

  lemma ChunkHeader(f: seq<byte>, pos: nat)
    ensures Number(f, pos + 4, 4) != None ==>
      Slice(f, pos, 4) == f[pos..pos + 4] && After(f, pos, 4) == pos + 4 && After(f, pos + 4, 4) == pos + 8
    ensures After(f, pos, 4) != pos + 4 ==> Number(f, After(f, pos, 4), 4) == None == Number(f, pos + 4, 4)
  {
  }

  /** `initfp`: the parameters, markers and sound chunk of a file. */
  function ReadForm(f: seq<byte>): Outcome<(Info, bool)> {
    if Slice(f, 0, 4) != FORM then Fail(BadFormat)
    else match Number(f, 4, 4)
      case None => Fail(EndOfFile)
      case Some(u) =>
        var formlength, kind := SignedLong(u), Slice(f, 8, 4);
        if formlength <= 0 || (kind != AIFF && kind != AIFC) then Fail(BadFormat)
        else match ReadChunks(f, kind == AIFC, 12, formlength - 4, Info(0, None, None, []), true)
          case Fail(e) => Fail(e)
          case Ok(r) => if r.0.comm == None || r.0.sound == None then Fail(BadFormat) else Ok(r)
  }

  function FrameSizeOf(c: Comm): int {
    c.nchannels * c.sampwidth
  }

  function SizeOf(c: Comm, n: int): int {
    n * FrameSizeOf(c)
  }

  /** The frames in n bytes, by a division that rounds down, also where the size of a frame is
      negative. */
  function FramesOf(c: Comm, n: nat): int
    requires FrameSizeOf(c) != 0
  {
    var k := FrameSizeOf(c);
    if k > 0 then n / k else -((n - k - 1) / -k)
  }

  /** What a read of n bytes from byte i of a chunk returns; for a negative n, all that is left of
      the file. */
  function Piece(f: seq<byte>, s: Sound, i: nat, n: int): seq<byte> {
    if n >= 0 then Slice(Body(f, s.offset, s.size), i, n)
    else if i >= s.size then []
    else Slice(f, s.offset + i, |f|)
  }

  lemma SliceIs(b: seq<byte>, i: nat, n: nat)
    ensures Slice(b, i, n) == if i >= |b| then [] else b[i..if i + n <= |b| then i + n else |b|]
  {
  }

  lemma SliceOfSlice(f: seq<byte>, a: nat, e: nat, i: nat, j: nat)
    requires a <= e <= |f| && i <= j <= e - a
    ensures f[a..e][i..j] == f[a + i..a + j]
  {
    forall m | 0 <= m < j - i ensures f[a..e][i..j][m] == f[a + i..a + j][m] {
      assert f[a..e][i + m] == f[a + (i + m)];
    }
  }

  /** A read of a chunk is one of the file, cut off at the end of the chunk. */
  lemma PieceInside(f: seq<byte>, s: Sound, i: nat, n: nat)
    ensures i < s.size ==> Piece(f, s, i, n) == Slice(f, s.offset + i, if n > s.size - i then s.size - i else n)
    ensures i >= s.size ==> Piece(f, s, i, n) == []
  {
    var b := Body(f, s.offset, s.size);
    SliceIs(f, s.offset, s.size);
    SliceIs(b, i, n);
    hide Slice;
    if i < s.size {
      var k := if n > s.size - i then s.size - i else n;
      SliceIs(f, s.offset + i, k);
      if s.offset + i < |f| {
        var e := if s.offset + s.size <= |f| then s.offset + s.size else |f|;
        var j := if s.offset + i + n <= e then s.offset + i + n else e;
        SliceOfSlice(f, s.offset, e, i, j - s.offset);
      }
    }
  }

  lemma SizeIsPositive(c: Comm, n: nat)
    requires FrameSizeOf(c) > 0
    ensures if n == 0 then SizeOf(c, n) == 0 else SizeOf(c, n) > 0
  {
    if n > 0 {
      LeTimes(1, n, FrameSizeOf(c));
    }
  }

  // ---------- Files and chunks ----------

  class File {
    const data: seq<byte>
    var pos: nat

    constructor (data: seq<byte>)
      ensures this.data == data && pos == 0
    {
      this.data := data;
      pos := 0;
    }

    /** A negative n asks for all that is left. */
    method Read(n: int) returns (s: seq<byte>)
      modifies this
      ensures s == Slice(data, old(pos), if n < 0 then |data| else n) && pos == old(pos) + |s|
    {
      s := if pos >= |data| then [] else if 0 <= n <= |data| - pos then data[pos..pos + n] else data[pos..];
      pos := pos + |s|;
    }

    /** `_read_long` and the like, before a sign is given to the result. */
    method ReadNumber(k: nat) returns (r: Option<nat>)
      requires k > 0
      modifies this
      ensures r == Number(data, old(pos), k) && pos == After(data, old(pos), k)
    {
      var x: nat := 0;
      for i := 0 to k
        invariant pos == old(pos) + i && (i > 0 ==> pos <= |data|)
        invariant i > 0 ==> x == BigEndian(data[old(pos)..pos])
        invariant i == 0 ==> x == 0
      {
        var b := Read(1);
        if b == [] {
          return None;
        }
        x := x * 256 + b[0];
        assert data[old(pos)..pos][..i] == data[old(pos)..pos - 1];
      }
      return Some(x);
    }
  }

  class Chunk {
    const file: File
    const name: seq<byte>
    const size: nat
    const offset: nat
    var sizeRead: nat

    ghost predicate Valid()
      reads this, file
    {
      file.pos == offset + sizeRead
    }

    ghost function Text(): seq<byte> {
      Body(file.data, offset, size)
    }

    constructor (file: File, name: seq<byte>, size: nat)
      ensures this.file == file && this.name == name && this.size == size && offset == file.pos
      ensures sizeRead == 0 && Valid()
    {
      this.file, this.name, this.size, offset, sizeRead := file, name, size, file.pos, 0;
    }

    method Rewind()
      modifies this, file
      ensures Valid() && sizeRead == 0
    {
      file.pos, sizeRead := offset, 0;
    }

    method SetPos(pos: int) returns (ok: bool)
      requires Valid()
      modifies this, file
      ensures Valid() && ok == (0 <= pos <= size) && sizeRead == if ok then pos else old(sizeRead)
    {
      if pos < 0 || pos > size {
        return false;
      }
      file.pos, sizeRead := offset + pos, pos;
      return true;
    }

    method Read(n: int) returns (s: seq<byte>)
      requires Valid()
      modifies this, file
      ensures Valid() && sizeRead == old(sizeRead) + |s|
      ensures s == Piece(file.data, Sound(offset, size), old(sizeRead), n)
    {
      if n >= 0 {
        PieceInside(file.data, Sound(offset, size), sizeRead, n);
      }
      if sizeRead >= size {
        return [];
      }
      var length := n;
      if length > size - sizeRead {
        length := size - sizeRead;
      }
      s := file.Read(length);
      sizeRead := sizeRead + |s|;
    }

    method ReadNumber(k: nat) returns (r: Option<nat>)
      requires Valid() && k > 0
      modifies this, file
      ensures Valid() && r == Number(Text(), old(sizeRead), k) && sizeRead == After(Text(), old(sizeRead), k)
    {
      var x: nat := 0;
      for i := 0 to k
        invariant Valid() && sizeRead == old(sizeRead) + i && (i > 0 ==> sizeRead <= |Text()|)
        invariant i > 0 ==> x == BigEndian(Text()[old(sizeRead)..sizeRead])
        invariant i == 0 ==> x == 0
      {
        var b := Read(1);
        if b == [] {
          return None;
        }
        x := x * 256 + b[0];
        assert Text()[old(sizeRead)..sizeRead][..i] == Text()[old(sizeRead)..sizeRead - 1];
      }
      return Some(x);
    }

    method ReadString() returns (r: Option<seq<byte>>)
      requires Valid()
      modifies this, file
      ensures Valid()
      ensures match StringAt(Text(), old(sizeRead))
        case None => r == None
        case Some(s) => r == Some(s.0) && sizeRead == s.1
    {
      var b := Read(1);
      if b == [] {
        return None;
      }
      var s := [];
      if b[0] != 0 {
        s := Read(b[0]);
      }
      if b[0] % 2 == 0 {
        var _ := Read(1);
      }
      return Some(s);
    }

    method ReadReal() returns (r: Option<FloatResult>)
      requires Valid()
      modifies this, file
      ensures Valid() && r == FloatAt(Text(), old(sizeRead))
      ensures r != None ==> sizeRead == old(sizeRead) + 10
    {
      var expon := ReadNumber(2);
      if expon == None {
        return None;
      }
      var himant := ReadNumber(4);
      if himant == None {
        return None;
      }
      var lomant := ReadNumber(4);
      if lomant == None {
        return None;
      }
      return Some(ReadFloat(SignedShort(expon.value), himant.value, lomant.value));
    }

    method ReadEntry() returns (r: Entry)
      requires Valid()
      modifies this, file
      ensures Valid() && r == EntryAt(Text(), old(sizeRead)).0
      ensures r != Unreadable ==> sizeRead == EntryAt(Text(), old(sizeRead)).1
    {
      hide StringAt, SignedShort, SignedLong;
      var id := ReadNumber(2);
      if id == None {
        return Truncated;
      }
      var at := ReadNumber(4);
      if at == None {
        return Truncated;
      }
      var name := ReadString();
      if name == None {
        return Unreadable;
      }
      return Entry(Marker(SignedShort(id.value), SignedLong(at.value), name.value));
    }

    method Skip()
      requires Valid()
      modifies this, file
      ensures file.pos == Skipped(file.data, offset, size, old(sizeRead))
    {
      file.pos := offset + size;
      if size % 2 == 1 && sizeRead < size {
        var _ := file.Read(1);
      }
    }
  }

  // ---------- The reader ----------

  class AifcRead {
    const file: File
    var aifc: bool
    var version: int
    var comm: Option<Comm>
    var markers: seq<Marker>
    var sound: Chunk?
    var seekNeeded: bool
    var soundpos: int

    ghost function Known(): Info
      reads this
    {
      Info(version, comm, if sound == null then None else Some(Sound(sound.offset, sound.size)), markers)
    }

    constructor (file: File)
      ensures this.file == file && Known() == Info(0, None, None, []) && soundpos == 0
    {
      this.file := file;
      aifc, version, comm, markers, sound := false, 0, None, [], null;
      seekNeeded, soundpos := true, 0;
    }

    method ReadCommFields(chunk: Chunk) returns (r: Outcome<Comm>)
      requires chunk.file == file && chunk.Valid() && chunk.sizeRead == 0
      modifies chunk, file
      ensures r == ReadFields(chunk.Text())
      ensures r.Ok? ==> chunk.Valid() && chunk.sizeRead == 18
    {
      hide SignedShort, SignedLong, Truncate, FloatAt, BigEndian, Body;
      var nchannels := chunk.ReadNumber(2);
      if nchannels == None {
        return Fail(EndOfFile);
      }
      var nframes := chunk.ReadNumber(4);
      if nframes == None {
        return Fail(EndOfFile);
      }
      var sampwidth := chunk.ReadNumber(2);
      if sampwidth == None {
        return Fail(EndOfFile);
      }
      var framerate := chunk.ReadReal();
      if framerate == None {
        return Fail(EndOfFile);
      }
      if framerate.value.Huge? {
        return Fail(NotModelled);
      }
      return Ok(Comm(SignedShort(nchannels.value), SignedLong(nframes.value), (SignedShort(sampwidth.value) + 7) / 8,
                     Truncate(framerate.value.f), NOT_COMPRESSED));
    }

    method ReadCommChunk(chunk: Chunk) returns (error: Option<Error>)
      requires chunk.file == file && chunk.Valid() && chunk.sizeRead == 0
      modifies `comm, chunk, file
      ensures match ReadComm(aifc, chunk.size, chunk.Text())
        case Ok(r) => error == None && comm == Some(r.0) && chunk.Valid() && chunk.sizeRead == r.1
        case Fail(e) => error == Some(e)
    {
      hide ReadFields, StringAt, Slice, Body;
      var fields := ReadCommFields(chunk);
      if fields.Fail? {
        return Some(fields.error);
      }
      var c := fields.value;
      if aifc {
        if chunk.size == 18 {
          return Some(NotModelled);
        }
        var comptype := chunk.Read(4);
        var compname := chunk.ReadString();
        if compname == None {
          return Some(BadFormat);
        }
        if comptype != NONE {
          return Some(NotModelled);
        }
        c := c.(compname := compname.value);
      }
      comm := Some(c);
      return None;
    }

    method ReadEntries(chunk: Chunk, nmarkers: int) returns (error: Option<Error>)
      requires chunk.file == file && chunk.Valid()
      modifies `markers, chunk, file
      ensures match ReadMarks(chunk.Text(), old(chunk.sizeRead), nmarkers, old(markers))
        case Ok(r) => error == None && markers == r.0 && chunk.Valid() && chunk.sizeRead == r.1
        case Fail(e) => error == Some(e)
    {
      hide EntryAt, Kept, Body, Slice;
      var n := nmarkers;
      ghost var all := ReadMarks(chunk.Text(), chunk.sizeRead, n, markers);
      while n > 0
        invariant chunk.Valid()
        invariant all == ReadMarks(chunk.Text(), chunk.sizeRead, n, markers)
      {
        var entry := chunk.ReadEntry();
        if entry == Truncated {
          return None;
        }
        if entry == Unreadable {
          return Some(BadFormat);
        }
        if Kept(entry.marker) {
          markers := markers + [entry.marker];
        }
        n := n - 1;
      }
      return None;
    }

    method ReadMark(chunk: Chunk) returns (error: Option<Error>)
      requires chunk.file == file && chunk.Valid() && chunk.sizeRead == 0
      modifies `markers, chunk, file
      ensures match Number(chunk.Text(), 0, 2)
        case None => error == Some(EndOfFile)
        case Some(n) =>
          match ReadMarks(chunk.Text(), 2, SignedShort(n), old(markers))
          case Ok(r) => error == None && markers == r.0 && chunk.Valid() && chunk.sizeRead == r.1
          case Fail(e) => error == Some(e)
    {
      var nmarkers := chunk.ReadNumber(2);
      if nmarkers == None {
        return Some(EndOfFile);
      }
      hide ReadMarks;
      error := ReadEntries(chunk, SignedShort(nmarkers.value));
    }

    method ReadAnyChunk(chunk: Chunk) returns (error: Option<Error>)
      requires chunk.file == file && chunk.Valid() && chunk.sizeRead == 0
      modifies `version, `comm, `markers, `sound, `seekNeeded, chunk, file
      ensures match ReadChunk(aifc, chunk.name, Sound(chunk.offset, chunk.size), chunk.Text(), old(Known()))
        case Ok(r) => error == None && Known() == r.0 && chunk.Valid() && chunk.sizeRead == r.1
        case Fail(e) => error == Some(e)
      ensures chunk.name == SSND ==> error == None && sound == chunk && !seekNeeded
      ensures chunk.name == SSND ==> chunk.Valid() && chunk.sizeRead == After(chunk.Text(), 0, 8)
      ensures chunk.name != SSND ==> sound == old(sound) && seekNeeded == old(seekNeeded)
    {
      error := None;
      if chunk.name == COMM {
        error := ReadCommChunk(chunk);
      } else if chunk.name == SSND {
        sound := chunk;
        var _ := chunk.Read(8);
        seekNeeded := false;
      } else if chunk.name == FVER {
        var v := chunk.ReadNumber(4);
        if v == None {
          return Some(EndOfFile);
        }
        version := SignedLong(v.value);
      } else if chunk.name == MARK {
        error := ReadMark(chunk);
      } else if chunk.name !in SKIP {
        error := Some(BadFormat);
      }
    }

    /** The constructor of `Chunk`: a header at the cursor. */
    method OpenChunk() returns (error: Option<Error>, chunk: Chunk?)
      modifies file
      ensures match Number(file.data, old(file.pos) + 4, 4)
        case None => error == Some(EndOfFile) && chunk == null
        case Some(u) =>
          && (SignedLong(u) < 0 ==> error == Some(NotModelled) && chunk == null)
          && (SignedLong(u) >= 0 ==>
                && error == None && chunk != null && fresh(chunk) && chunk.file == file
                && chunk.name == file.data[old(file.pos)..old(file.pos) + 4] && chunk.size == SignedLong(u)
                && chunk.offset == old(file.pos) + 8 && chunk.sizeRead == 0 && chunk.Valid())
    {
      ChunkHeader(file.data, file.pos);
      var name := file.Read(4);
      var size := file.ReadNumber(4);
      if size == None {
        return Some(EndOfFile), null;
      }
      var chunksize := SignedLong(size.value);
      if chunksize < 0 {
        return Some(NotModelled), null;
      }
      chunk := new Chunk(file, name, chunksize);
      error := None;
    }

    /** One pass of the loop: what is left of the form after it. */
    method ReadNextChunk(formlength: int) returns (error: Option<Error>, left: int)
      requires formlength > 0
      modifies `version, `comm, `markers, `sound, `seekNeeded, file
      ensures ReadChunks(file.data, aifc, old(file.pos), formlength, old(Known()), old(seekNeeded))
        == if error == None then ReadChunks(file.data, aifc, file.pos, left, Known(), seekNeeded) else Fail(error.value)
      ensures error == None ==> left < formlength
      ensures sound == old(sound) || (fresh(sound) && sound != null && sound.file == file)
      ensures error == None && !seekNeeded ==> sound != null
      ensures error == None && !seekNeeded && left <= 0 ==>
        sound.Valid() && sound.sizeRead == After(sound.Text(), 0, 8)
    {
      hide ReadChunk, Slice, After, Number, Body, Skipped, SignedLong;
      seekNeeded := true;
      var chunk;
      error, chunk := OpenChunk();
      if error == Some(EndOfFile) && formlength == 8 {
        return None, 0;
      }
      if chunk == null {
        return error, 0;
      }
      error := ReadAnyChunk(chunk);
      left := formlength - 8 - chunk.size;
      if chunk.size % 2 == 1 {
        left := left - 1;
      }
      if error == None && left > 0 {
        chunk.Skip();
      }
    }

    method ReadAllChunks(formlength0: int) returns (error: Option<Error>)
      requires sound == null && seekNeeded
      modifies `version, `comm, `markers, `sound, `seekNeeded, file
      ensures match ReadChunks(file.data, aifc, old(file.pos), formlength0, old(Known()), true)
        case Ok(r) => error == None && Known() == r.0 && seekNeeded == r.1
        case Fail(e) => error == Some(e)
      ensures error == None && sound != null ==> fresh(sound) && sound.file == file
      ensures error == None && !seekNeeded ==>
        sound != null && sound.Valid() && sound.sizeRead == After(sound.Text(), 0, 8)
    {
      hide SignedLong, ReadChunk, Body, Skipped, Number;
      error := None;
      var formlength := formlength0;
      ghost var all := ReadChunks(file.data, aifc, file.pos, formlength, Known(), true);
      while formlength > 0
        invariant error == None && all == ReadChunks(file.data, aifc, file.pos, formlength, Known(), seekNeeded)
        invariant sound != null ==> fresh(sound) && sound.file == file
        invariant !seekNeeded ==> sound != null
        invariant !seekNeeded && formlength <= 0 ==> sound.Valid() && sound.sizeRead == After(sound.Text(), 0, 8)
      {
        error, formlength := ReadNextChunk(formlength);
        if error != None {
          return;
        }
      }
    }

    method InitFp() returns (error: Option<Error>)
      requires file.pos == 0 && sound == null && soundpos == 0 && Known() == Info(0, None, None, [])
      modifies this, file
      ensures match ReadForm(file.data)
        case Ok(r) => error == None && Opened() && Known() == r.0 && seekNeeded == r.1 && soundpos == 0
        case Fail(e) => error == Some(e)
      ensures error == None && !seekNeeded ==> sound.sizeRead == After(sound.Text(), 0, 8)
    {
      hide ReadChunks, SignedLong;
      seekNeeded := true;
      var form := file.Read(4);
      if form != FORM {
        return Some(BadFormat);
      }
      var formlength := file.ReadNumber(4);
      if formlength == None {
        return Some(EndOfFile);
      }
      var kind := file.Read(4);
      if SignedLong(formlength.value) <= 0 || (kind != AIFF && kind != AIFC) {
        return Some(BadFormat);
      }
      aifc := kind == AIFC;
      error := ReadAllChunks(SignedLong(formlength.value) - 4);
      if error == None && (comm == None || sound == null) {
        return Some(BadFormat);
      }
    }

    ghost predicate Opened()
      reads this, sound, if sound == null then {} else {sound.file}
    {
      comm != None && sound != null && sound.file == file && (!seekNeeded ==> sound.Valid())
    }

    method Rewind()
      requires Opened()
      modifies `seekNeeded, `soundpos
      ensures Opened() && seekNeeded && soundpos == 0
    {
      seekNeeded, soundpos := true, 0;
    }

    method SetPos(pos: int) returns (ok: bool)
      requires Opened()
      modifies `seekNeeded, `soundpos
      ensures Opened() && ok == (0 <= pos <= comm.value.nframes)
      ensures if ok then seekNeeded && soundpos == pos else seekNeeded == old(seekNeeded) && soundpos == old(soundpos)
    {
      if pos < 0 || pos > comm.value.nframes {
        return false;
      }
      soundpos, seekNeeded := pos, true;
      return true;
    }

    /** Where the next read of frames starts in the sound chunk. */
    ghost function SoundCursor(): int
      requires Opened()
      reads this, sound, if sound == null then {} else {sound.file}
    {
      if !seekNeeded then sound.sizeRead
      else if SizeOf(comm.value, soundpos) == 0 then After(sound.Text(), 0, 8)
      else SizeOf(comm.value, soundpos) + 8
    }

    /** The seek at the start of `readframes` fails. */
    ghost predicate OutOfSound()
      requires Opened()
      reads this, sound, if sound == null then {} else {sound.file}
    {
      var pos := SizeOf(comm.value, soundpos);
      seekNeeded && pos != 0 && !(0 <= pos + 8 <= sound.size)
    }

    method SeekSound() returns (ok: bool)
      requires Opened()
      modifies `seekNeeded, sound, file
      ensures ok == !old(OutOfSound()) && Opened() && seekNeeded == !ok
      ensures ok ==> sound.sizeRead == old(SoundCursor())
    {
      hide SizeOf;
      if !seekNeeded {
        return true;
      }
      sound.Rewind();
      var _ := sound.Read(8);
      var pos := SizeOf(comm.value, soundpos);
      if pos != 0 {
        ok := sound.SetPos(pos + 8);
        if !ok {
          return false;
        }
      }
      seekNeeded := false;
      return true;
    }

    method ReadSound(n: int) returns (data: seq<byte>)
      requires Opened() && !seekNeeded
      modifies sound, file
      ensures Opened() && data == Piece(file.data, Sound(sound.offset, sound.size), old(sound.sizeRead), n)
      ensures SoundCursor() == old(sound.sizeRead) + |data|
    {
      hide Slice, Body, Piece;
      data := sound.Read(n);
    }

    /** Any number of frames, of any size, may be asked for. */
    method ReadFrames(nframes: int) returns (error: Option<Error>, data: seq<byte>)
      requires Opened()
      modifies `seekNeeded, `soundpos, sound, file
      ensures error == if old(OutOfSound()) then Some(OutOfRange)
                       else if nframes != 0 && FrameSizeOf(comm.value) == 0 then Some(DivisionByZero) else None
      ensures Opened() && seekNeeded == old(OutOfSound())
      ensures error == None ==>
        && old(SoundCursor()) >= 0
        && data == (if nframes == 0 then [] else
             Piece(file.data, Sound(sound.offset, sound.size), old(SoundCursor()), SizeOf(comm.value, nframes)))
        && SoundCursor() == old(SoundCursor()) + |data|
        && soundpos == old(soundpos) + if nframes == 0 then 0 else FramesOf(comm.value, |data|)
      ensures error != None ==> soundpos == old(soundpos)
    {
      hide SizeOf, FrameSizeOf, FramesOf, Slice, Body, After, Piece;
      data := [];
      var ok := SeekSound();
      if !ok {
        return Some(OutOfRange), [];
      }
      if nframes == 0 {
        return None, [];
      }
      data := ReadSound(SizeOf(comm.value, nframes));
      if FrameSizeOf(comm.value) == 0 {
        return Some(DivisionByZero), data;
      }
      soundpos := soundpos + FramesOf(comm.value, |data|);
      return None, data;
    }
  }
}
