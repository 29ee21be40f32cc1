# Verified models of twelve standard-library cores

This project models the algorithmic cores of twelve modules under `Lib/` and proves what each of
them is for. `dafny verify dfyconfig.toml` checks everything. There is one Dafny module per source
module (`aifc` takes five: codecs, writer, reader, what the reader makes of closed files, and the
round trip; `formatter` takes three: words and lines, the formatter, and its writer; `Basics` and
`Decimals` hold what several models share). Code that changes objects in place is modelled by classes and
loops proved against specification functions; the laws are lemmas about those functions.

- **`copy.deepcopy`**: an explicit store of atoms, lists, tuples and dictionaries, cycles allowed.
  The copy is an isomorphic graph, sharing and cycles included, with no list or dictionary in
  common with the original; the pass terminates, also when a tuple is re-entered through a list.
- **`Queue`**: the three locks as a step system, one program counter per thread. Every interleaving
  of any number of calls is safe and linearizable: it answers as a first-in first-out queue does
  whose calls take effect at once; a state with calls in progress is stuck
  exactly when all of them starve on an empty queue or all jam on a full one.
- **`aifc`**: the writer that patches its header, the reader with its chunk objects, and the codecs.
  A whole run of the writer gives a well-formed file exactly when it does not start with a write of
  zero frames, and such a file is read back in full exactly when no field of it uses its sign bit
  and the rate fits the mantissa. Any sequence of seeks, rewinds and reads is answered from the data.
- **`Para`**: greedy line breaking with anchors is total and fills lines greedily exactly as
  promised; justification by running integer division ends every line at the margin exactly when no
  word overshoots, and favours no word; centred lines are centred.
- **`fpformat`**: `fix` and `sci` denote the number rounded half away from zero, and the exponent has
  the one text that it should.
- **`mhlib.IntSet`**: every operation keeps the one normal form and adds exactly what it should.
- **`dumbdbm`**: the store refines a string map, reopening it gives the same map, and blocks are reused
  where the new value fits.
- **`mimify`**: a body line survives encoding, reading back and decoding exactly when no
  continuation starts with the reply prefix, and nothing goes out that must be quoted.
- **`formatter`**: it does not matter where flowing data is cut; words are neither run together nor
  taken apart, breaks are sent, and the space policy holds on a run exactly if every step is allowed. Filling by `DumbWriter` does not depend on a cut exactly
  if the cut does not move a word, and its lines fit the margin and are broken only where they must.
- **`fnmatch`**: the translation denotes the pattern, within lines, for every set that it keeps, and
  comparing the length of one greedy match with the name decides whether the whole name matches. The
  patterns for which the answer is right for all names are characterised exactly.
- **`colorsys`**: HSV and HLS round trips over exact reals, in both directions.
- **`StringIO`**: the lazily flattened buffer refines a flat file as long as no write crosses the end
  and no read begins beyond it, and both of these can be observed later.

Where the code does less than one would like, the model follows the code, a lemma gives an input
that shows it, and the exact condition is proved:

- `aifc`: a write of zero frames before the first real one leaves a second header in the file
  (`WriteAll`). The reader passes over the pad byte of an odd chunk only if the chunk was not read to
  its end (`PadIsPassed`), and so gives up on files with such a chunk (`OddMarkDefeatsReader`). That
  never matters for the writer's files, as their chunks are all even. Lengths in the header are right
  exactly if they fit 32 bits (`LengthsAreRight`). The reader takes channels, form size, marker count,
  marker numbers and positions for signed, so that marker number 40000 comes back as -25536
  (`MarkNumberIsLost`, and `EncodeReads` and `ReadBackIsExact` for the condition). A read beyond the
  last frame returns the pad byte as well, if there is one (`ReadPastEnd`).
- `Para.layout` does not return a layout if the words end in a begin-anchor: it loops, or reads a
  variable before it is set (`Layout`). With negative stretches a line can overshoot
  (`NegativeStretchOvershoots`, and `SpreadIsExact` for the condition).
- `IntSet.tostring` cannot be read back if the set has a negative member (`TextRoundTrip`).
- `mimify` loses two characters where a soft break falls before `"> "` (`QuotePrefixIsLost`, and
  `BodyLineRoundTrip` for the condition).
- `formatter`: literal data and asserted line data can break the space policy
  (`LiteralDataBreaksPolicy`, `AssertLineDataBreaksPolicy`, and `StepClean` for the condition), and
  `DumbWriter` can depend on where data is cut (`FillingDependsOnTheCut`, and `CutIsHarmless` for the
  condition). After an assertion that there is no line data where there is, breaks and blanks can get
  lost (`StepSendsBreak` and `StepIsTidy` for the condition).
- `fnmatch`: carets that lead a set are moved to its end, which keeps the set unless a caret leaves
  or enters a range and the rest of the set does not make up for it: `[^a-z]` is kept, `[^-z]` is
  not (`CaretBeforeRangeIsKept`, `CaretRangeIsLost`, and `KeptIsExact` for the condition on a set,
  `TestIsRightWithinLines` for that on a pattern). `*` and `?` do not match a newline
  (`NewlineIsLost`, and `TestIsRight` for the condition on a pattern).
- `colorsys`: black, grey and, in HLS, white have no hue or saturation to give back
  (`HsvRoundTripBack`, `HlsRoundTripBack`; `GreyStaysGrey` and `GreyStaysGreyInHls` for what comes
  back).
- `StringIO`: a write across the end does not update the length (`SpanningWriteIsLost`), and a read
  from beyond the end moves the cursor back to it (`ReadBeyondMovesBack`, and `StepRefines` for both
  conditions).

Numbers are exact: integers are unbounded except in fields of a file, and floating point is
modelled by exact binary fractions or reals.

## Model

| member | source | states |
|---|---|---|
| DeepCopy.ImmutableReachesNothingMutable | Lib/copy.py:174-190 | an object is recursively immutable exactly when no list or dictionary is reachable from it |
| DeepCopy.TupleChanged | Lib/copy.py:184-189 | a tuple with an element that is not its own copy gets a new object, which is a complete copy and keeps the memo injective |
| DeepCopy.TupleUnchanged | Lib/copy.py:187-189 | a tuple whose elements are all their own copies stays in place, and is then immutable |
| DeepCopy.ListStep | Lib/copy.py:169-170 | appending the copied element extends the part of a list that is complete, whatever the nested call did to the memo |
| DeepCopy.DictStep | Lib/copy.py:196-197 | storing a copied entry extends the part of a dictionary that is complete, and copied keys never clash |
| DeepCopy.FinishedMemoIsIsomorphism | Lib/copy.py:128-199 | when no object is open, the memo restricted to what the root reaches is an isomorphism onto what the copy reaches |
| DeepCopy.FinishedMemoSeparates | Lib/copy.py:128-199 | the copy reaches no list or dictionary of the old store, and an object is its own copy exactly when it reaches nothing mutable |
| DeepCopy.Copier.Allocate | Lib/copy.py:167-167 | a new object changes nothing that was there |
| DeepCopy.Copier.DeepCopy | Lib/copy.py:128-151 | keeps the invariant of a partial copy, only adds to store and memo, memoises x and returns its copy, and terminates |
| DeepCopy.Copier.CopyAtomic | Lib/copy.py:155-156 | an atom is its own copy |
| DeepCopy.Copier.CopyList | Lib/copy.py:166-171 | keeps the invariant although the list enters the memo before its elements are copied |
| DeepCopy.Copier.CopyTuple | Lib/copy.py:174-190 | keeps the invariant, also when an inner call has memoised the tuple meanwhile: the memo's tuple is the result |
| DeepCopy.Copier.CopyDict | Lib/copy.py:193-198 | keeps the invariant for every order of the keys |
| DeepCopy.Copier.Copy | Lib/copy.py:128-199 | the original store is unchanged, the result is the root of an isomorphic graph, no list or dictionary is shared, and exactly the objects that reach nothing mutable stay themselves |
| QueueProtocol.OwnStepSound | Lib/Queue.py:39-88 | a step of a thread in order never releases a free lock or pops an empty list, and keeps the queue sound: free tokens mean an item or room, the bound holds, items leave in the order put |
| QueueProtocol.OwnStepLocal | Lib/Queue.py:39-88 | after its step a thread may rely on what its new program counter claims |
| QueueProtocol.OwnerStays | Lib/Queue.py:39-88 | a lock left held without the thread owning it was so before: tokens change hands only through the locks |
| QueueProtocol.OtherThread | Lib/Queue.py:39-88 | a step leaves intact what any other thread relies on |
| QueueProtocol.StepInv | Lib/Queue.py:39-88 | the global invariant survives every step of every thread |
| QueueProtocol.CallInv | Lib/Queue.py:39-70 | starting a call keeps the invariant |
| QueueProtocol.RunInv | Lib/Queue.py:39-88 | no schedule faults, and every one keeps the invariant |
| QueueProtocol.Safety | Lib/Queue.py:39-88 | for any maxsize, threads and interleaving: no fault, the queue stays sound and bounded, the mutex excludes |
| QueueProtocol.WhoBlocks | Lib/Queue.py:40-68 | a thread can move unless it waits on exactly the lock its blocking acquire names |
| QueueProtocol.StuckInv | Lib/Queue.py:39-88 | nobody can move iff all calls are getters on an empty queue or all are putters on a full one |
| QueueProtocol.Progress | Lib/Queue.py:39-88 | the same for every reachable state |
| QueueProtocol.StepsDescend | Lib/Queue.py:39-88 | every step brings its call closer to its end |
| QueueProtocol.Termination | Lib/Queue.py:39-88 | a run of any number of threads takes at most nine steps for each call |
| QueueProtocol.NowaitGivesUp | Lib/Queue.py:66-80 | get_nowait gives up only on an empty queue or while another thread owns esema, and never keeps the token |
| QueueProtocol.PopDelivers | Lib/Queue.py:118-121 | a getter finds an item, and it is the oldest one not yet delivered |
| QueueProtocol.Linearizable | Lib/Queue.py:39-121 | every interleaving answers as a queue does whose calls each take effect at once, at one step between start and return: same items in the same order, put queues the item it was called with, get returns the one at the front |
| AifcCodecs.BytesRoundTrip | Lib/aifc.py:149-178 | big-endian bytes of any length read back as the number |
| AifcCodecs.EncodeLong | Lib/aifc.py:215-224 | the division loop produces the four bytes of x, or of its two's complement |
| AifcCodecs.LongRoundTrip | Lib/aifc.py:149-158 | a signed long written is read back |
| AifcCodecs.UnsignedLongRoundTrip | Lib/aifc.py:160-167 | an unsigned long written is read back |
| AifcCodecs.ShortRoundTrip | Lib/aifc.py:169-178 | a short written is read back, before its sign is applied |
| AifcCodecs.MantissaIsFloor | Lib/aifc.py:251-260 | the two 32-bit halves, taken by two floors, are one floor of the fraction scaled by 2 to the 64 |
| AifcCodecs.FitsIsExact | Lib/aifc.py:251-260 | the stored mantissa equals the number exactly iff its fraction has no bit beyond the 64th |
| AifcCodecs.FieldDecodes | Lib/aifc.py:194-207 | sign and exponent are recovered from the 16-bit field, denormal numbers included |
| AifcCodecs.FloatRoundTrip | Lib/aifc.py:192-263 | reading the three fields of a finite number gives the same number iff it fits the mantissa |
| AifcCodecs.ShortMantissaFits | Lib/aifc.py:232-263 | every number of at most 64 significant bits in the normal range fits |
| AifcCodecs.BytesModulo | Lib/aifc.py:149-167 | a number that is too large for its bytes is read back modulo the range |
| AifcCodecs.IntegerRoundTrip | Lib/aifc.py:192-263 | a positive integer below 2 to the 64, such as a frame rate, is read back as that integer |
| AifcWriter.PutThenFind | Lib/aifc.py:770-787 | setting a marker changes what is found under its number and nothing else |
| AifcWriter.FormIsWhole | Lib/aifc.py:953-964 | the computed form length is the length of the file less 8, for both file kinds |
| AifcWriter.ExampleFile | Lib/aifc.py:910-1005 | a whole AIFF-C file with sound, padding and a marker, byte by byte |
| AifcWriter.PatchForm | Lib/aifc.py:976-977 | the first patch replaces the form length and nothing else |
| AifcWriter.PatchCount | Lib/aifc.py:978-979 | the second patch replaces the frame count and nothing else |
| AifcWriter.PatchSound | Lib/aifc.py:980-981 | the third patch replaces the sound size and nothing else |
| AifcWriter.PaddedInPlace | Lib/aifc.py:968-972 | the pad byte of an unfinished file is written behind the data without moving the data |
| AifcWriter.AifcWrite.constructor | Lib/aifc.py:655-671 | a fresh writer has written nothing |
| AifcWriter.AifcWrite.Write | Lib/aifc.py:802-802 | a write at the cursor keeps what is before it and overwrites or extends what is after |
| AifcWriter.AifcWrite.WriteFormLength | Lib/aifc.py:953-964 | writes the form length and returns the even COMM length |
| AifcWriter.AifcWrite.WriteHeader | Lib/aifc.py:910-951 | appends exactly the header for the estimate and notes the three places to patch |
| AifcWriter.AifcWrite.EnsureHeaderWritten | Lib/aifc.py:851-869 | keeps the invariant; while no frame has been written it writes a header anew, and then everything before it is stale |
| AifcWriter.AifcWrite.WriteFramesRaw | Lib/aifc.py:797-804 | keeps the invariant and adds exactly these frames |
| AifcWriter.AifcWrite.UpdateHeader | Lib/aifc.py:808-810 | header and padding are made to fit what has been written, and the cursor stays behind the data |
| AifcWriter.AifcWrite.WriteFrames | Lib/aifc.py:806-810 | after each call the file is complete for the frames so far |
| AifcWriter.AifcWrite.PatchHeader | Lib/aifc.py:966-986 | the header becomes that of what was written and the rest of the file is as before, padded; the cursor is put back |
| AifcWriter.AifcWrite.SetMark | Lib/aifc.py:770-781 | replaces the marker with that number in place or appends it; bad numbers and positions are refused |
| AifcWriter.AifcWrite.MarkersLength | Lib/aifc.py:992-996 | the length loop gives the size of the entries |
| AifcWriter.AifcWrite.WriteMarkers | Lib/aifc.py:988-1005 | appends exactly the marker chunk and notes its whole length |
| AifcWriter.AifcWrite.Close | Lib/aifc.py:812-827 | the closed file is the complete encoding of frames and markers behind whatever was stale |
| AifcWriter.WriteAll | Lib/aifc.py:797-827 | for any estimate and any mix of the two write methods and markers, the closed file is the complete encoding iff no write of zero frames came first |
| AifcReader.File.ReadNumber | Lib/aifc.py:149-178 | the byte loop reads a big-endian number, or reports the end of the file |
| AifcReader.Chunk.Read | Lib/aifc.py:285-292 | a read of zero or more bytes never passes the end of the chunk, and one of fewer returns the rest of the file |
| AifcReader.Chunk.ReadNumber | Lib/aifc.py:149-178 | the same loop within a chunk |
| AifcReader.Chunk.ReadString | Lib/aifc.py:180-188 | a counted string and its pad byte |
| AifcReader.Chunk.ReadReal | Lib/aifc.py:192-208 | the float is decoded from three fields read in order |
| AifcReader.Chunk.ReadEntry | Lib/aifc.py:592-595 | one marker, or how its reading ends |
| AifcReader.Chunk.Skip | Lib/aifc.py:294-303 | the file is left where the specification says, pad byte included or not |
| AifcReader.AifcRead.ReadCommChunk | Lib/aifc.py:526-531 | the parameters of the COMM chunk as specified, with every error |
| AifcReader.AifcRead.ReadMark | Lib/aifc.py:587-606 | the marker loop as specified: truncation ends it quietly, empty markers are dropped |
| AifcReader.AifcRead.ReadAnyChunk | Lib/aifc.py:377-391 | dispatch on the chunk name |
| AifcReader.AifcRead.ReadAllChunks | Lib/aifc.py:365-396 | the loop over all chunks of any file, well formed or not, and where it leaves the sound chunk |
| AifcReader.AifcRead.InitFp | Lib/aifc.py:346-398 | opening any file gives exactly what the specification reads from it, or the same error |
| AifcReader.AifcRead.SetPos | Lib/aifc.py:480-484 | only positions within the frames are accepted |
| AifcReader.AifcRead.Rewind | Lib/aifc.py:430-432 | the next read starts at frame 0; nothing else changes |
| AifcReader.AifcRead.ReadFrames | Lib/aifc.py:486-500 | for any count and any frame size: returns the bytes from the current frame on, up to the end of the file if their number is negative, and moves on by the frames read, or fails for a position outside the chunk or a frame size of zero |
| AifcCodecs.IntegerIsRead | Lib/aifc.py:192-263 | a positive integer of at most 16384 bits is read back as that integer iff it fits the mantissa |
| AifcFiles.FloatBytesRoundTrip | Lib/aifc.py:192-263 | the ten bytes of a number: zero is read as zero, a number beyond the exponent range as a huge one, any other as itself iff it fits the mantissa |
| AifcFiles.CommReads | Lib/aifc.py:526-552 | reading a COMM chunk as written fails iff the rate is beyond the exponent range, and else gives frames, width, name, and channels and rate as they can be seen |
| AifcFiles.SeenCommIsRight | Lib/aifc.py:526-552 | channels and rate are seen as written iff there are fewer than 32768 channels and the rate fits the mantissa |
| AifcFiles.MarksRead | Lib/aifc.py:587-600 | reading any entries as written gives them with number and position taken for signed, less those then at position 0 without a name |
| AifcFiles.SeenMarksAreRight | Lib/aifc.py:587-600 | the markers are seen as written iff none that is kept uses the sign bit of its number or position, and neither does the count if any is kept |
| AifcFiles.MarkNumberIsLost | Lib/aifc.py:587-600 | marker number 40000 is read back as number -25536 |
| AifcFiles.KeptOfIs | Lib/aifc.py:596-600 | the markers kept are those with a position or a name |
| AifcFiles.WidthRoundsUp | Lib/aifc.py:529-529 | the sample width is the whole number of bytes that the bits need |
| AifcFiles.OtherChunks | Lib/aifc.py:146-147 | chunks with the nine other names are read over |
| AifcFiles.FormTooLong | Lib/aifc.py:372-378 | where the file ends before the form does, the reader makes do exactly if 8 bytes are missing |
| AifcFiles.ChunkReads | Lib/aifc.py:365-396 | one pass of the reading loop over a chunk of even size stops exactly behind it |
| AifcFiles.EncodeIsChunks | Lib/aifc.py:910-951 | the header as written piece by piece is a form header and a list of chunks |
| AifcFiles.SmallFormReads | Lib/aifc.py:346-401 | what the reader makes of any closed file with a form size below 2 to the 31: the sound chunk, and parameters, count and markers as they can be seen, or an error for a rate beyond the exponent range |
| AifcFiles.LargeFormLosesSound | Lib/aifc.py:346-401 | a closed file with a larger form size is refused, or its sound chunk is found too short |
| AifcFiles.EncodeReads | Lib/aifc.py:346-401 | the reader recovers parameters, frame count, sound chunk and markers of a closed file iff no field uses its sign bit, but for markers that are dropped anyway, and the rate fits the mantissa |
| AifcFiles.LengthsAreRight | Lib/aifc.py:966-986 | in a closed file the form size plus 8 is the file length, the COMM count is the frames written and the SSND size is 8 plus the padded data, each exactly if the number fits 32 bits |
| AifcFiles.PadIsPassed | Lib/aifc.py:302-303 | skipping ends behind the pad byte iff the chunk is even or has not been read to its end |
| AifcFiles.OddChunkFails | Lib/aifc.py:302-303 | after any odd chunk read to its end, a reader that should go on fails |
| AifcFiles.OddMarkDefeatsReader | Lib/aifc.py:365-396 | for all parameters and sound data, a padded file with a certain nine-byte MARK chunk cannot be opened |
| AifcRoundTrip.FramesPlayed | Lib/aifc.py:486-500 | from frame k of the data a read returns exactly the frames asked for, as long as there are that many, and moves on by them |
| AifcRoundTrip.SeekThenRead | Lib/aifc.py:480-500 | after a seek to frame k, wherever the reader was, a read of n frames returns frames k to k + n of the data, and the position is k + n |
| AifcRoundTrip.ReadPastEnd | Lib/aifc.py:486-500 | a read beyond the last frame returns the rest of the data iff the data needs no pad byte, which else is returned too |
| AifcRoundTrip.ReadsAreConsecutive | Lib/aifc.py:486-500 | any sequence of reads returns the consecutive frames |
| AifcRoundTrip.ReadPieces | Lib/aifc.py:430-500 | any sequence of seeks, rewinds, reads and position queries on a closed file is answered as from the padded data, whatever the markers and the rate, if channels and form size do not use their sign bits |
| AifcRoundTrip.ReadFile | Lib/aifc.py:346-500 | opening any file and reading all of its frames ends as specified, errors included |
| AifcRoundTrip.ReadBackIsExact | Lib/aifc.py:346-500 | of a closed file parameters, frame count, kept markers and all frames are read back exactly iff it is recoverable in the sense of `EncodeReads` |
| AifcRoundTrip.ReadBack | Lib/aifc.py:346-500 | opening a closed file and reading all frames returns the exact data, parameters and markers under that condition, and not otherwise |
| AifcRoundTrip.WriteThenRead | Lib/aifc.py:797-827 | a run of the writer that does not start with zero frames is read back in full iff its parameters, data and markers meet that condition |
| Paragraphs.LineProgress | Lib/Para.py:97-121 | a line makes progress unless only begin-anchors are left, and holds a word unless it is the last |
| Paragraphs.GreedyLine | Lib/Para.py:97-119 | with positive widths every line fits or is a single word, and the next word would not have fitted |
| Paragraphs.LineIsTallEnough | Lib/Para.py:119-120 | a line is exactly as tall as its tallest word |
| Paragraphs.Para.BreakLine | Lib/Para.py:90-130 | the two inner loops find the greedy line and its measures |
| Paragraphs.Para.Layout | Lib/Para.py:81-134 | with room on every line, it returns iff the words do not end in a begin-anchor, and then the lines are greedy, not empty and partition the words in order |
| Paragraphs.SpreadIsExact | Lib/Para.py:159-164 | the increments of the running division add up to the slack iff no word overshoots |
| Paragraphs.SpreadIsFair | Lib/Para.py:159-164 | what the first k words get together is their proportional share of the slack, less than one unit a word below it and never above |
| Paragraphs.ShareExceeds | Lib/Para.py:159-161 | a word's share exceeds the slack left iff the slack times what it stretches beyond the stretch left reaches that stretch |
| Paragraphs.NoOvershoot | Lib/Para.py:159-164 | without negative stretches no word overshoots |
| Paragraphs.NegativeStretchOvershoots | Lib/Para.py:159-164 | an input with a negative stretch on which 15 units are handed out for 10 |
| Paragraphs.PlacesEnd | Lib/Para.py:151-171 | a line ends at its start plus its natural width plus the increments |
| Paragraphs.PlacesSpaced | Lib/Para.py:152-170 | words stand one behind the other, each as wide as it is with its space and its increment |
| Paragraphs.JustifiedLineIsFlush | Lib/Para.py:144-171 | a justified line with slack ends at the right margin iff no word overshoots, hanging first line included |
| Paragraphs.RightLineIsFlush | Lib/Para.py:144-147 | a right-aligned line ends at the right margin whatever its width |
| Paragraphs.CentredLineIsCentred | Lib/Para.py:148-149 | a centred line has as much room before it as after it, but for one unit |
| Paragraphs.Para.StartLine | Lib/Para.py:144-150 | start and slack of a line for each justification |
| Paragraphs.Para.Visit | Lib/Para.py:136-173 | tops of the lines, and places of the words: left and justified lines start at the margin with its hanging indent, right ones end at it, justified ones too where there is slack and no negative stretch, centred ones lie midway; only justified words get increments |
| Fpformat.RoundUp | Lib/fpformat.py:68-77 | the carry loop adds one unit in the last kept place, growing by a leading one if it must |
| Fpformat.RoundFrac | Lib/fpformat.py:58-81 | the digits denote the nearest multiple, halves upwards, for negative digit counts too |
| Fpformat.KeptSplit | Lib/fpformat.py:66-67 | looking at the first dropped digit decides the rounding |
| Fpformat.KeptIsRounded | Lib/fpformat.py:58-81 | the integer kept is the number rounded half away from zero |
| Fpformat.RoundedError | Lib/fpformat.py:58-81 | the error is at most half a unit of the last place kept, and less where it rounds down |
| Fpformat.RoundedShift | Lib/fpformat.py:102-129 | rounding commutes with moving the point |
| Fpformat.UnexpoDenotes | Lib/fpformat.py:44-55 | removing the exponent keeps the number |
| Fpformat.Fix | Lib/fpformat.py:86-97 | the text denotes the number rounded to digs places, without superfluous zeros and with digs digits after the point |
| Fpformat.Normalize | Lib/fpformat.py:105-117 | one leading digit, zero only for zero, and the same number |
| Fpformat.CarryStep | Lib/fpformat.py:120-123 | a carry out of the leading digit is undone by raising the exponent |
| Fpformat.SciDenotes | Lib/fpformat.py:118-123 | with or without a carry, what is written denotes the rounded number |
| Fpformat.ExponentIsUnique | Lib/fpformat.py:125-128 | sign, value and padding to three digits determine the text of an exponent |
| Fpformat.Sci | Lib/fpformat.py:102-129 | exactly one digit before the point, not zero unless the number is, the number rounded digs places after its leading digit, and the exponent in its one text |
| IntSets.NormalIsUnique | Lib/mhlib.py:689-690 | sorted, disjoint, non-adjacent pair lists with the same members are equal |
| IntSets.CompareDecidesEquality | Lib/mhlib.py:689-690 | comparing pair lists gives 0 iff the sets are equal |
| IntSets.CompareDecides | Lib/mhlib.py:689-690 | else the first pair that differs decides the order, or which list goes on |
| IntSets.SortKeeps | Lib/mhlib.py:701-701 | sorting changes no member |
| IntSets.MergeStep | Lib/mhlib.py:702-709 | merging a pair that touches the previous one changes no member |
| IntSets.InsertBefore | Lib/mhlib.py:747-770 | a new member before pair i is added, and the list is normal unless it touches pair i - 1 |
| IntSets.JoinStep | Lib/mhlib.py:747-770 | joining two adjacent pairs restores the normal form |
| IntSets.IntSet.Normalize | Lib/mhlib.py:699-709 | any list of intervals becomes the normal form of the same set |
| IntSets.IntSet.Append | Lib/mhlib.py:747-770 | the set stays normal and gains exactly x |
| IntSets.IntSet.AddPair | Lib/mhlib.py:772-775 | the set stays normal and gains exactly the interval |
| IntSets.IntSet.FromString | Lib/mhlib.py:777-792 | the set gains exactly what the text denotes, or is unchanged and the call fails |
| IntSets.IntSet.ToString | Lib/mhlib.py:711-718 | the loop produces the text that `TextRoundTrip` parses |
| IntSets.TextRoundTrip | Lib/mhlib.py:711-792 | the text of a set parses to its pairs iff no member is negative, and otherwise is refused |
| IntSets.TextOfPair | Lib/mhlib.py:713-715 | the text of one member is its number, that of more has a hyphen; neither has blanks |
| IntSets.PartsDenote | Lib/mhlib.py:780-791 | a number stands for itself and two with a hyphen for the interval, refused in the wrong order; blanks do not count |
| IntSets.IntSet.Rebuild | Lib/mhlib.py:680-684 | a set built from tostring() has the same pairs, iff no member is negative |
| IntSets.Build | Lib/mhlib.py:747-792 | any run of the three adding operations denotes exactly the union of what they add, in normal form |
| DumbDbm.ReplayAppend | Lib/dumbdbm.py:47-59 | an appended entry wins over earlier ones for its key |
| DumbDbm.OutsideBlocks | Lib/dumbdbm.py:94-99 | a write within the blocks of a key leaves the bytes of every other key |
| DumbDbm.OverwriteIsLocal | Lib/dumbdbm.py:112-119 | an overwrite that needs no more blocks changes the map at its key only, and blocks stay disjoint |
| DumbDbm.AppendIsFresh | Lib/dumbdbm.py:79-92 | a value appended at the next block boundary takes blocks that no key owns |
| DumbDbm.DeleteKeeps | Lib/dumbdbm.py:125-127 | removing an index entry removes the key from the map and nothing else |
| DumbDbm.Database.constructor | Lib/dumbdbm.py:35-45 | opening any files replays the directory; sound files give the map that they hold |
| DumbDbm.Database.Update | Lib/dumbdbm.py:47-59 | the loop over the directory file is a replay |
| DumbDbm.Database.Commit | Lib/dumbdbm.py:61-69 | in any order of the entries, the new directory file replays to the index, and the old one is the backup |
| DumbDbm.Database.GetItem | Lib/dumbdbm.py:71-77 | lookup in the map |
| DumbDbm.Database.AddVal | Lib/dumbdbm.py:79-92 | padding to the block boundary and the value are appended |
| DumbDbm.Database.SetItem | Lib/dumbdbm.py:107-123 | the map is updated at the key; a value that needs no more blocks of 512 bytes is overwritten in place, another is appended at the next block, and the directory gains one entry |
| DumbDbm.Database.DelItem | Lib/dumbdbm.py:125-127 | the key leaves the map, or the call fails without effect |
| DumbDbm.Database.Reopen | Lib/dumbdbm.py:35-59 | reopening gives the same index and the same map |
| DumbDbm.Run | Lib/dumbdbm.py:47-127 | any run of sets, deletes and reopenings, from any sound files, is a run of the string map |
| Mimify.QuotedLineDecodes | Lib/mimify.py:94-104 | decoding undoes quoting, header characters and an initial "From " included |
| Mimify.AnyCaseDecodes | Lib/mimify.py:41-41 | triples are decoded in upper and in lower case |
| Mimify.LoneEqualsStays | Lib/mimify.py:94-104 | an '=' before anything else stays |
| Mimify.QuotedLineIsSafe | Lib/mimify.py:210-232 | exactly the characters that must be quoted are, in upper-case triples, and the first one of an initial "From " |
| Mimify.EncodeIsSafe | Lib/mimify.py:210-242 | no 8-bit character goes out, nor a '?' in a header, nor "From " at the start of a line; a short line that needs no quoting goes out as it is |
| Mimify.EqualsApart | Lib/mimify.py:210-242 | two '=' of a quoted line are at least three apart |
| Mimify.BreakPointOk | Lib/mimify.py:236-239 | the backward search stops between 72 and 74 and cuts no triple |
| Mimify.NoFourthStep | Lib/mimify.py:236-238 | the search never steps back three times |
| Mimify.PiecesOk | Lib/mimify.py:234-241 | the pieces make up the line, cut no triple, and with the soft break have at most 76 characters |
| Mimify.JoinedPieces | Lib/mimify.py:181-189 | joining consumes exactly the continuation lines and puts the pieces together, less any quote prefixes |
| Mimify.StrippedDecodes | Lib/mimify.py:185-187 | stripping a prefix always shortens the decoded line, so nothing is lost iff there is no prefix |
| Mimify.BodyLineRoundTrip | Lib/mimify.py:181-242 | encoding, reading back, joining and decoding returns the line iff no continuation starts with the prefix, and leaves the rest of the file |
| Mimify.QuotePrefixIsLost | Lib/mimify.py:185-187 | a line that is not returned |
| Mimify.NoEncodedWord | Lib/mimify.py:159-159 | the substitution of encoded words finds nothing in an encoded physical line |
| Mimify.MimeEncode | Lib/mimify.py:213-242 | both loops together produce the specified encoding |
| Mimify.SoftBreaks | Lib/mimify.py:234-242 | the line-breaking loop produces the specified pieces |
| Mimify.MimeDecode | Lib/mimify.py:94-104 | the search loop decodes |
| Mimify.UnmimifyLine | Lib/mimify.py:181-190 | one logical line is read, joined and decoded |
| Formatters.FlowConcat | Lib/formatter.py:145-168 | feeding a then b is feeding a + b, from any state |
| Formatters.FlowChunks | Lib/formatter.py:145-168 | any way of cutting the data gives the same |
| Words.SqueezeClean | Lib/formatter.py:149-149 | words joined by single blanks have no other white space |
| Words.SqueezeKeepsWords | Lib/formatter.py:149-149 | squeezing keeps the words and all characters but white space |
| Formatters.FlowClean | Lib/formatter.py:145-168 | flowing data keeps the space policy from any state that keeps it |
| Formatters.StepClean | Lib/formatter.py:58-264 | every operation keeps the space policy iff it is allowed: literal data must be clean between its newlines and end after a letter, beginning with a blank at most after a letter, and line data may be asserted only after a letter |
| Formatters.InvIsPolicy | Lib/formatter.py:58-264 | the invariant on flags and lines holds iff all lines are clean and stay so whatever ordinary operations follow |
| Formatters.LinesAreClean | Lib/formatter.py:58-264 | the policy holds after every step of a run iff every step is allowed, as all steps but literal data and asserted line data are |
| Formatters.LiteralDataBreaksPolicy | Lib/formatter.py:170-177 | a run with literal data whose next line starts with a blank |
| Formatters.AssertLineDataBreaksPolicy | Lib/formatter.py:262-264 | a run with asserted line data whose line starts with a blank |
| Formatters.RunKeepsText | Lib/formatter.py:58-264 | on every run the writer receives exactly the characters of the data, in order, but for white space |
| Formatters.StepKeepsWords | Lib/formatter.py:58-264 | no operation runs two words together or takes one apart; a break starts a new line |
| Formatters.StepIsTidy | Lib/formatter.py:58-264 | the flags stay such that this goes on iff the operation does not deny that there is line data or a pending blank |
| Formatters.WordsAreKept | Lib/formatter.py:58-264 | on runs without that, the words received are those of all the data, with a newline for each break |
| Formatters.StepSendsBreak | Lib/formatter.py:58-264 | a break that has been noted has been sent, after every operation but the same one |
| Formatters.LineIsBroken | Lib/formatter.py:58-93 | a break, paragraph, rule or label comes after the end of the line, which is broken once if it holds anything |
| Formatters.BreaksLeaveNoLine | Lib/formatter.py:58-93 | the same on all runs without that operation |
| Formatters.Formatter.AddFlowingData | Lib/formatter.py:145-168 | all flags and the flowing text end as the step function says, on which `FlowConcat` and `LinesAreClean` are proved |
| Formatters.Formatter.AddLiteralData | Lib/formatter.py:170-177 | all flags and lines end as the step function says, whose effect on the policy `StepClean` decides |
| Formatters.Formatter.EndParagraph | Lib/formatter.py:58-67 | refines the step function: the line is broken at most once and no blank is pending |
| Formatters.Formatter.AddLineBreak | Lib/formatter.py:69-74 | refines the step function: no second break after a break or paragraph |
| Formatters.Formatter.AddHorRule | Lib/formatter.py:76-81 | refines the step function: a rule stands on its own line |
| Formatters.Formatter.AddLabelData | Lib/formatter.py:83-93 | refines the step function: a label after a label starts a new line |
| Formatters.Formatter.FlushSoftspace | Lib/formatter.py:179-184 | refines the step function: a pending blank is sent once |
| Formatters.Formatter.PushStyle | Lib/formatter.py:249-253 | refines the step function: a pending blank is sent before the style changes |
| Formatters.Formatter.AssertLineData | Lib/formatter.py:262-264 | the flags end as the step function says, whose effect on the policy `StepClean` decides |
| Formatters.LettersRoundTrip | Lib/formatter.py:113-119 | a letter numeral determines its counter |
| Formatters.LettersOnto | Lib/formatter.py:113-119 | every word of letters is a numeral |
| Formatters.FormatLetter | Lib/formatter.py:113-119 | the division loop produces the numeral |
| DumbWriters.DumbWriter.SendFlowingData | Lib/formatter.py:362-380 | fills as specified and keeps the column equal to the length of the last line |
| DumbWriters.FillFits | Lib/formatter.py:362-380 | text that does not continue a word keeps earlier lines, and every line that it completes or leaves open fits the margin or is one long word, but for the line that was open before |
| DumbWriters.FillIsGreedy | Lib/formatter.py:367-376 | a line is broken only where the next word would not have fitted |
| DumbWriters.FillKeepsWords | Lib/formatter.py:362-380 | filling runs no two words together and takes none apart |
| Words.SplitCut | Lib/formatter.py:368-368 | how the words of two pieces of text make up those of the whole |
| DumbWriters.CutIsHarmless | Lib/formatter.py:362-380 | filling a then b is filling a + b iff the cut is not inside a word that goes on a new line as a whole but not by its first part |
| DumbWriters.FillingDependsOnTheCut | Lib/formatter.py:362-380 | two cuts of the same data that fill differently |
| Fnmatch.GreedySound | Lib/fnmatch.py:49-49 | what the greedy matcher finds is a match |
| Fnmatch.LaterStartReachesAsFar | Lib/fnmatch.py:49-49 | from a later start the same items match at least as far |
| Fnmatch.GreedyIsLongest | Lib/fnmatch.py:49-49 | the greedy match is a longest one |
| Fnmatch.LengthTestDecides | Lib/fnmatch.py:49-49 | the greedy match has the length of the name iff the whole name matches |
| Fnmatch.ParseEmit | Lib/fnmatch.py:60-91 | the text for one token parses to its item, whatever follows |
| Fnmatch.ParseEmitAll | Lib/fnmatch.py:51-92 | every translation parses, one item for each token |
| Fnmatch.RotateIs | Lib/fnmatch.py:84-86 | the loop moves all leading carets to the end |
| Fnmatch.RotationAt | Lib/fnmatch.py:84-86 | what a set contains before and after the carets are moved, character by character |
| Fnmatch.UndisplacedIsSame | Lib/fnmatch.py:84-86 | the set is the same unless a caret leaves a range at the front or enters one at the end |
| Fnmatch.OpeningIsExact | Lib/fnmatch.py:84-86 | for a caret that leaves a range the set is the same iff what follows covers every character on which the range and the three members differ |
| Fnmatch.ClosingIsExact | Lib/fnmatch.py:84-86 | for a caret that enters a range the set is the same iff what precedes covers that difference |
| Fnmatch.KeptIsExact | Lib/fnmatch.py:79-89 | a finite test on the characters of a set and their successors decides for every set whether its translation is the same set, and any set without a displaced caret passes |
| Fnmatch.SameCharacters | Lib/fnmatch.py:79-89 | a token whose set is kept and its item accept the same characters, but for the newline that '?' does not match |
| Fnmatch.SameLanguage | Lib/fnmatch.py:51-92 | the translation denotes the language of the pattern within lines |
| Fnmatch.LineGlobIsGlob | Lib/fnmatch.py:51-92 | matching within lines is matching, and the same for names of one line |
| Fnmatch.TestIsExact | Lib/fnmatch.py:36-49 | if all sets of the pattern are kept, the length test accepts a name iff the pattern matches it within lines; so it never accepts wrongly, and decides all names of one line |
| Fnmatch.UnkeptSetIsLost | Lib/fnmatch.py:36-49 | with one set for a pattern, the test is right about all names of one character iff the set is kept |
| Fnmatch.TestIsRightWithinLines | Lib/fnmatch.py:36-49 | for any pattern, the test is right about all names, within lines, iff all sets of the pattern are kept or some token of the pattern and some token of the translation match no character |
| Fnmatch.TestIsRight | Lib/fnmatch.py:36-49 | for any pattern, the test is right about all names, newlines included, iff all sets are kept and there is no '*' or '?', or nothing matches in that sense |
| Fnmatch.NewlinesMatter | Lib/fnmatch.py:62-65 | a pattern that matches anything matches some name with newlines that is not matched within lines iff it has a '*' or a '?' |
| Fnmatch.CaretBeforeRangeIsKept | Lib/fnmatch.py:84-86 | "[^a-z]" is kept |
| Fnmatch.CaretRangeIsLost | Lib/fnmatch.py:84-86 | "[^-z]" is not: a character that only the pattern accepts |
| Fnmatch.NewlineIsLost | Lib/fnmatch.py:62-63 | a newline that "*" does not match |
| Fnmatch.WildPatterns | Lib/fnmatch.py:62-91 | '*' accepts every line, '?' one character of a line, an ordinary character itself |
| Fnmatch.PlainSetToken | Lib/fnmatch.py:66-91 | a set ends at the first bracket that is not its first character |
| Fnmatch.NegatedSetToken | Lib/fnmatch.py:66-91 | a leading '!' negates it |
| Fnmatch.RangePattern | Lib/fnmatch.py:36-49 | "[a-b]" accepts the characters from a to b, "[!a-b]" all others |
| Fnmatch.Translate | Lib/fnmatch.py:51-92 | the index loop produces the text for the tokens |
| Fnmatch.TranslateNext | Lib/fnmatch.py:60-91 | one round produces the text for one token and stops behind it |
| Fnmatch.ScanSet | Lib/fnmatch.py:67-73 | the search finds the bracket that ends the set |
| Fnmatch.TranslateSet | Lib/fnmatch.py:79-89 | negation and rotation of carets as specified |
| Fnmatch.Matcher.FnmatchCase | Lib/fnmatch.py:36-49 | with any valid cache the answer is that of the pattern within lines, for every name, if the sets of the pattern are kept |
| Colorsys.Locate | Lib/colorsys.py:91-104 | every colour that is not grey lies on one side of the hexagon at the place of its hue |
| Colorsys.SectorOfSide | Lib/colorsys.py:106-119 | the sector formulas give the colour of a side back |
| Colorsys.HsvRoundTrip | Lib/colorsys.py:91-119 | RGB to HSV and back is the identity, with components in range and hue below 1 |
| Colorsys.HsvRoundTripBack | Lib/colorsys.py:91-119 | HSV to RGB and back is the identity iff the colour is neither black nor a grey with a hue |
| Colorsys.Extremes | Lib/colorsys.py:54-76 | lightness and saturation determine the largest component |
| Colorsys.RampIsWave | Lib/colorsys.py:78-83 | the ramp function wraps around the turn |
| Colorsys.HlsRoundTrip | Lib/colorsys.py:54-83 | RGB to HLS and back is the identity, with components in range and hue below 1 |
| Colorsys.ExtremesBack | Lib/colorsys.py:54-76 | the extremes computed from a lightness and a saturation determine both |
| Colorsys.HlsRoundTripBack | Lib/colorsys.py:54-83 | HLS to RGB and back is the identity iff the colour is neither black nor white nor a grey with a hue |
| Colorsys.ValueIsLargest | Lib/colorsys.py:91-97 | the value is the largest component, the saturation its relative distance from the smallest |
| Colorsys.LightnessIsMidway | Lib/colorsys.py:54-72 | the lightness lies midway between largest and smallest, and both models have the same hue |
| Colorsys.Corners | Lib/colorsys.py:54-104 | red, yellow, green, cyan, blue and magenta are a sixth of a turn apart |
| Colorsys.GreyStaysGrey | Lib/colorsys.py:91-108 | a grey with a hue, and black, come back without hue and saturation |
| Colorsys.GreyStaysGreyInHls | Lib/colorsys.py:54-76 | the same in HLS, for white as well |
| StringIOs.StepRefines | Lib/StringIO.py:45-110 | an operation acts as on a flat file iff it is not a read from beyond the end, and the length stays right iff it is not a write across the end |
| StringIOs.RunRefines | Lib/StringIO.py:45-110 | every run without such operations is a run of the flat file: results, content, cursor and length |
| StringIOs.SpanningWriteIsLost | Lib/StringIO.py:91-98 | after any write across the end, reading back differs from the flat file |
| StringIOs.ReadBeyondMovesBack | Lib/StringIO.py:56-78 | after any read from beyond the end, a write leads to another content than on the flat file |
| StringIOs.AppendAtEnd | Lib/StringIO.py:45-110 | after a seek to the end a write appends |
| StringIOs.GapIsFilled | Lib/StringIO.py:88-90 | a write from beyond the end leaves characters of code 0 in the gap |
| StringIOs.WriteThenRead | Lib/StringIO.py:45-110 | what was written anywhere is read back after a relative seek |
| StringIOs.SeekBefore | Lib/StringIO.py:45-66 | no seek goes before the start, and a read to the end from there returns all |
| StringIOs.LineThenRest | Lib/StringIO.py:67-78 | a line ends with its newline or with the file, and the rest follows |
| StringIOs.StringIO.Join | Lib/StringIO.py:46-48 | flattening changes nothing that can be seen |
| StringIOs.StringIO.Seek | Lib/StringIO.py:45-53 | cursor moved in the three modes, never below 0 |
| StringIOs.StringIO.Read | Lib/StringIO.py:56-66 | result and state are those of the step function that `StepRefines` relates to the flat file |
| StringIOs.StringIO.ReadLine | Lib/StringIO.py:67-78 | the same for a line, which ends with its newline or with the file |
| StringIOs.StringIO.Write | Lib/StringIO.py:86-101 | on the pending pieces, the effect of the step function: gaps are filled, old bytes overwritten, new ones appended |
| StringIOs.StringIO.GetValue | Lib/StringIO.py:106-110 | the whole content, pending pieces included, and nothing changes |

## Left out

- `copy`: class instances and their hooks, and shallow copies, which run user code or are easy. Dictionary keys are immutable and a key is found by identity.
- `Queue`: the three locks and the program counters are a step system on values, not an object; `qsize`, `empty` and `full` only read.
- Fairness of the locks: `Progress` says that some thread can move, not which one does.
- `aifc`: compression, `__del__`, infinities and NaNs. For a rate beyond the exponent range the model's reader ends with an error of its own, where the source's `int()` raises one.
- `aifc`: the setters, whose checks are preconditions of the constructor, and closing a file twice. Written data consists of whole frames.
- AifcReader.AifcRead.ReadCommChunk: ends with an error at a COMM size of 18 and at compressed data, which the source repairs or decompresses with modules that it may not find.
- AifcReader.AifcRead.ReadAnyChunk: ends with the same errors for a COMM chunk.
- AifcReader.AifcRead.ReadAllChunks: ends with an error at a negative chunk size, where the source seeks backwards and may never come to an end.
- AifcReader.AifcRead.InitFp: ends with an error in the same three cases.
- `AifcCodecs`: conversion of a Python integer to a host float, which rounds above 2 to the 53, and overflow of `int()` on a host word.
- `Para`: drawing, hit testing and fonts; measurements are given integers, and the baselines, the flags for the first and last word of a line and early returns of the word and anchor functions are not modelled.
- `fpformat`: `extract`, which rests on `regex` and `eval`; the model starts from sign, digits and exponent. The sign is copied in front of the digits.
- `mhlib` outside `IntSet`, and its `tolist`, `fromlist`, `clone`, `min`, `max` and `contains`, which would add easy members. The separators are the default ones.
- DumbDbm.Run: starts from files that a run of the module could have left; other programs may write anything. Directory lines are records, because the text form goes through `eval`.
- `mimify`: headers, multipart messages and reply prefixes of whole lines.
- `formatter`: font, margin and alignment stacks, roman numerals, and the rules, labels and paragraph skips sent to the writer.
- `fnmatch`: case normalisation, and the regular expression engine beyond greedy backtracking on the subset that `translate` emits.
- Fnmatch.OpeningIsExact: leaves out sets in which what follows the range is read differently once the caret is gone; `KeptIsExact` decides these too.
- `colorsys`: rounding of floating point, and YIQ, whose coefficients are not exact inverses.
- `StringIO`: `close`, `readlines` and `writelines`.
