# mkvtoolnix: QuickTime/MP4 demuxer core, FLAC frame-header sampler and BCP 47 language tags, in Dafny

This project models three parts of mkvtoolnix and proves properties of the model.

**The QuickTime/MP4 reader** (`src/r_mp4.cpp`) is modelled on a file given as a byte sequence:
- Atom headers: the 32-bit size, the 64-bit "large size" form and size 0 meaning "to the end of the file" (`Mp4Atoms`).
- A read position over the file (`Mp4Stream`).
- The recursive walk of the `moov` header atoms. Every leaf atom the reader knows fills a per-track record: `mvhd`, `tkhd`, `mdhd`, `hdlr`, `stsd` (sound and video descriptions), `stts`, `stss`, `stsc`, `stsz`, `stco` and `dcom`/`cmvd`. This is in `Mp4Reader`.
- The top-level walk of the file. It is proved to visit a chain of atoms that ends at `mdat`.
- Track admission and the table expansion that follows the walk (`Mp4Track`, `Mp4Tables`, `Mp4Expand`):
  - a track is refused when its codec is unsupported or its data is missing;
  - the chunk map (`stsc`) is expanded backwards over the chunk table;
  - chunks are numbered by their first sample;
  - samples are synthesised for constant-size tracks;
  - timestamps come from the duration runs (`stts`);
  - sample offsets are laid out inside their chunks.
  These are imperative methods over arrays, each proved equal to a function on sequences. Properties are then proved about those functions.
- One read request (`Mp4Read`, `Mp4Reader.Reader.Read`): the packet bytes, the timecode and duration in milliseconds, the key-frame flag from the sync-sample table, the running average duration, and the end of the data.

The reader runs the corrected behaviour of findings A to G (see "## Findings"), and uses 0 for table fields the source leaves uninitialised. "## Left out" names each member this affects.

**The FLAC frame-header sampler** (`src/common/flac.cpp`) is in `Flac`:
- A bit reader over the header bytes.
- The skip over the UTF-8-style coded frame or sample number.
- The block size announced by a frame header, as `get_num_samples` computes it. It is stated as a function on whole bytes, proved equal to the bit-level method, and proved to read back what an encoder of frame headers writes.
- The decoder's read callback that hands the header buffer out piece by piece.

**BCP 47 language tags** (`src/common/bcp47.cpp`, RFC 5646):
- `Bcp47Tag`: the tag as a value; its canonical formatting with the case conventions of section 2.1.1 of RFC 5646; the prefix matching for extlang and variant records of section 3.1.8; the region-number normalisation.
- `Bcp47Parse`: the parser's control flow over the capture groups of the tag regular expression, with the lookups and the per-subtag prefix validation.
- `Bcp47Language`: the `language_c` class, whose setters invalidate a cached formatted string.
- The regular expression, the ISO 639/15924/3166 tables and the IANA subtag registry are opaque oracles, passed in as a `Registry` value. Every property holds whatever they answer.

Shared modules:
- `Wrappers` holds `Option`, `Result` and `Outcome`.
- `Bytes` holds big-endian values with their encoding round trip.
- `Bcp47Text` holds ASCII case mapping and the join and split on "-" with their round trips.

## Model

| member | source | states |
|---|---|---|
| Mp4Atoms.Field | src/r_mp4.cpp:110-122 | a big-endian field is read iff its bytes are in the file, and then its value is below 256^n; otherwise the read is short |
| Mp4Atoms.AtomAt | src/r_mp4.cpp:110-122 | a decoded atom starts at the requested position, its header is in the file, the header is 16 bytes exactly when the 32-bit size is 1 and 8 otherwise, and the size is never below the header |
| Mp4Atoms.AtomToEndOfFile | src/r_mp4.cpp:110-119 | a size field of 0 makes the atom reach to the end of the file, and such an atom is accepted whenever at least its header fits |
| Mp4Atoms.AtomTooShortIsFatal | src/r_mp4.cpp:120-121 | a size of 2 to 7, smaller than any header, is the fatal "invalid chunk size" error carrying that size and position |
| Mp4Atoms.AtomAtEncoded | src/r_mp4.cpp:110-122 | every atom header written in the small or the large form, wherever it sits, decodes back to its type, size, position and header length |
| Mp4Atoms.AtomAtAsWritten | src/r_mp4.cpp:113-122 | the reader's own decoding keeps the position and never gives a size below the header (finding A) |
| Mp4Atoms.AsWrittenAgreesOnSmallAtoms | src/r_mp4.cpp:110-122 | without the large-size marker, the reader's decoding and the standard one agree |
| Mp4Atoms.LargeAtomMisread | src/r_mp4.cpp:113-122 | a 16-byte large-size `mdat` header is decoded by the reader as type 16 with a size of 'mdat' times 2^32 (finding A) |
| Mp4Stream.WordsAtEncoded | src/r_mp4.cpp:409-420 | a table of 32-bit words written big-endian reads back unchanged, whatever surrounds it |
| Mp4Tables.DurMapRoundTrip | src/r_mp4.cpp:409-420 | the `stts` words (count, duration) pairs read back as the duration runs they encode |
| Mp4Tables.ChunkMapRoundTrip | src/r_mp4.cpp:542-556 | the `stsc` words read back as the chunk-map entries they encode, with the 1-based first chunk made 0-based in 32-bit arithmetic |
| Mp4Tables.ChunksOf | src/r_mp4.cpp:583-593 | one chunk per `stco` offset, at that offset; the size, description and first sample, which the source leaves unset, are 0 |
| Mp4Tables.SamplesOf | src/r_mp4.cpp:561-581 | one sample per `stsz` size, of that size; the position and timestamp, which the source leaves unset, are 0 |
| Mp4Tables.LastEntryAtOrBefore | src/r_mp4.cpp:216-228 | the index found is the last chunk-map entry whose first chunk is at or before the given chunk, or -1 when there is none |
| Mp4Tables.ExpandDownSorted | src/r_mp4.cpp:216-228 | the backward expansion gives every chunk the samples-per-chunk and description of the last entry starting at or before it |
| Mp4Tables.ChunkMapFollowsRuns | src/r_mp4.cpp:216-228 | in a sorted chunk map starting at chunk 0, each chunk lies in exactly one run and takes that run's entry |
| Mp4Tables.NumberChunks | src/r_mp4.cpp:230-235 | every chunk's first-sample number is the sum of the sample counts of the chunks before it, modulo 2^32 |
| Mp4Tables.ChunkRunsTile | src/r_mp4.cpp:230-235 | without wrap-around, chunks number samples from 0 without gaps or overlaps, and the last chunk ends at the total sample count |
| Mp4Tables.ChunkRunEnds | src/r_mp4.cpp:230-235 | the first chunk starts at sample 0 and the last ends at the sample count |
| Mp4Tables.ChunkRunStep | src/r_mp4.cpp:230-235 | each chunk starts where the previous one ends |
| Mp4Tables.NumberedSamplesGrow | src/r_mp4.cpp:230-235 | without wrap-around, first-sample numbers never decrease from chunk to chunk and never pass the total sample count |
| Mp4Tables.NumberingKeepsSizes | src/r_mp4.cpp:230-235 | numbering the chunks leaves their sample counts unchanged |
| Mp4Tables.DurationOfRun | src/r_mp4.cpp:258-267 | the i-th sample of the j-th duration run has that run's duration in the flattened list |
| Mp4Tables.Timestamps | src/r_mp4.cpp:258-267 | each sample covered by the runs gets, as its 32-bit timestamp, the sum of all earlier durations; the other samples are untouched |
| Mp4Tables.TimestampsAdvance | src/r_mp4.cpp:258-267 | without wrap-around, timestamps start at 0 and each one is the previous plus that sample's duration |
| Mp4Tables.Positions | src/r_mp4.cpp:269-279 | each sample covered by the chunks gets the position the chunk layout gives it; samples beyond are untouched |
| Mp4Tables.OffsetsLength | src/r_mp4.cpp:269-279 | the layout places as many samples as the chunks hold, never more than there are samples |
| Mp4Tables.OffsetsStep | src/r_mp4.cpp:269-279 | one more chunk extends the layout, keeps what was placed, and puts its samples one after another from the chunk's offset |
| Mp4Tables.SampleInChunk | src/r_mp4.cpp:269-279 | sample i of chunk j sits at the chunk's offset plus the sizes of the chunk's earlier samples |
| Mp4Track.Synthesized | src/r_mp4.cpp:238-244 | a constant-size track gets one sample per counted sample, each of the constant size |
| Mp4Track.FinishAccepts | src/r_mp4.cpp:182-214 | a track survives the checks exactly when its codec is supported, its description fields are set (video width, height and FourCC; audio channels and sample rate) and its type is known |
| Mp4Track.FinishRefuses | src/r_mp4.cpp:246-256 | the fatal "constant sample size and variable duration" error happens exactly for a supported, complete track without samples whose duration map is not a single duration |
| Mp4Track.FinishedSample | src/r_mp4.cpp:216-279 | after finishing, every sample has its stated size, sits at its chunk's offset plus the earlier sizes in that chunk, and has the summed durations as its timestamp |
| Mp4Track.ChunkMapWritesPastTable | src/r_mp4.cpp:220-228 | a chunk map whose second run starts beyond a two-chunk table makes the source write chunk 2 (finding B) |
| Mp4Track.ChunkMapStaysInTable | src/r_mp4.cpp:220-228 | the bounded expansion keeps the table's length and assigns every chunk the entry of its run |
| Mp4Track.TimestampsWritePastTable | src/r_mp4.cpp:259-267 | a run of 2 durations over a 1-sample table makes the source write sample 1 (finding C) |
| Mp4Track.PositionsWritePastTable | src/r_mp4.cpp:270-279 | a chunk of 2 samples over a 1-sample table makes the source write sample 1 (finding D) |
| Mp4Track.SampleTablesStayInTable | src/r_mp4.cpp:258-279 | the bounded timestamp and offset passes keep the sample table's length and its sizes; every sample a duration run reaches is stamped with the uint32 sum of the durations before it, and the others keep their stamp |
| Mp4Track.SamplePlacedInTable | src/r_mp4.cpp:258-279 | after both bounded passes, sample i of chunk j, when the table has it, keeps its size, lies at the chunk offset plus the sizes of the chunk's earlier samples, and is stamped with the sum of the earlier durations when a run reaches it |
| Mp4Expand.ExpandChunkMapInPlace | src/r_mp4.cpp:216-228 | the backward expansion over the chunk array leaves it equal to `ExpandChunkMap` of its old contents |
| Mp4Expand.NumberChunksInPlace | src/r_mp4.cpp:230-235 | the numbering loop leaves the chunk array equal to `NumberChunks` of its old contents and returns the sample count |
| Mp4Expand.SynthesizeSamples | src/r_mp4.cpp:238-244 | a fresh sample array equal to `Synthesized` |
| Mp4Expand.AssignTimestamps | src/r_mp4.cpp:258-267 | the timestamp loop leaves the sample array equal to `Timestamps` of its old contents |
| Mp4Expand.AssignPositions | src/r_mp4.cpp:269-279 | the offset loop leaves the sample array equal to `Positions` of its old contents |
| Mp4Expand.Finish | src/r_mp4.cpp:179-280 | the in-place checks and passes over one track compute exactly `FinishTrack` |
| Mp4Read.Signed64 | src/r_mp4.cpp:754-757 | a 64-bit unsigned difference taken as signed lies in the int64 range and is congruent to it modulo 2^64 |
| Mp4Read.TruncDiv | src/r_mp4.cpp:760-761 | division rounds toward zero, for both signs, as C divides signed integers |
| Mp4Read.ReadSample | src/r_mp4.cpp:772-815 | reading a sample fails only for time scale 0; it always updates the running average with the sample's duration; it advances by one exactly when it produces a packet; otherwise the data ends and the reader is done; the packet's contents are stated by `ReadSamplePacket` |
| Mp4Read.ChunkTime | src/r_mp4.cpp:709-710 | a chunk's timecode is computed in unsigned 64-bit arithmetic |
| Mp4Read.ChunkStep | src/r_mp4.cpp:704-770 | reading a chunk fails only on a zero divisor; it advances by one exactly when it produces a packet; a chunk the data does not hold leaves the track as it was and ends the reading; the packet's contents are stated by `ReadChunkPacket` |
| Mp4Read.ReadMarksSyncFrames | src/r_mp4.cpp:787-796 | a packet is a key frame exactly when there is no sync-sample table or the table lists its 1-based frame number |
| Mp4Read.ReadAdvances | src/r_mp4.cpp:766-814 | a read advances the position by one exactly when it hands on a packet, and reports the end exactly when the position reaches the table's length |
| Mp4Read.ReadSamplePacket | src/r_mp4.cpp:772-815 | a sample's packet exists exactly when the data holds its bytes, and holds those bytes, the timecode `pts * 1000 / timescale` and the time to the next sample's timecode (the running average for the last sample); the average takes that duration even when the bytes are missing |
| Mp4Read.ReadChunkPacket | src/r_mp4.cpp:704-770 | a chunk's packet exists exactly when the data holds its bytes, and holds those bytes, the chunk's uint64 timecode taken as int64 and the chunk's duration, which the average then takes; a chunk the data does not hold leaves the track unchanged |
| Mp4Read.SampleDurationsNonNegative | src/r_mp4.cpp:777-783 | without timestamp wrap-around, sample durations are never negative, and the next timecode is the timestamp plus that duration, scaled |
| Mp4Read.ChunkDurationsNonNegative | src/r_mp4.cpp:754-759 | in a finished constant-size track, without 64-bit overflow, chunk durations are never negative and equal the difference of the scaled first-sample numbers |
| Mp4Read.ChunkDurationOfCounts | src/r_mp4.cpp:754-759 | for growing first-sample numbers, without overflow, the chunk duration is the difference of the scaled counts |
| Mp4Read.ChunkKeyframeUndetermined | src/r_mp4.cpp:735-744 | for sync table [1], the chunk branch's key-frame flag depends on the uninitialised `frame`: frame 0 gives a key frame, frame 1 does not (finding E) |
| Mp4Read.FrameBytesMisread | src/r_mp4.cpp:727-728 | for a stereo 16-bit chunk of one sample, using the stored big-endian sample size unswapped gives 1024 bytes instead of 4 (finding F) |
| Mp4Read.PcmChunkBytes | src/r_mp4.cpp:727-728 | with the description's bits per sample, a PCM chunk holds samples times channels times bytes per sample |
| Mp4Reader.TableAt | src/r_mp4.cpp:409-420 | a table read succeeds only when its header is there, and then holds count times the entry width in words |
| Mp4Reader.SizeTableAt | src/r_mp4.cpp:561-581 | the `stsz` read gives the constant sample size, and a size list only when that size is 0, with as many entries as the count says |
| Mp4Reader.SoundFields | src/r_mp4.cpp:437-478 | reading a sound description keeps the track's type and id, and the first description's codec stays |
| Mp4Reader.SoundPriv | src/r_mp4.cpp:480-492 | the codec-private bytes after a version-1 description change only the track's private data |
| Mp4Reader.SoundEntry | src/r_mp4.cpp:437-493 | a sound description is read only when the data holds it; it keeps type and id, and the codec of the first description |
| Mp4Reader.VideoEntry | src/r_mp4.cpp:495-522 | a video description is read only when the data holds it; it keeps type and id, and the codec of the first description |
| Mp4Reader.StsdEntry | src/r_mp4.cpp:425-526 | after one description the walk continues at its start plus its stated size |
| Mp4Reader.DescriptionsKeepKind | src/r_mp4.cpp:425-526 | reading all descriptions never changes the track's type or id |
| Mp4Reader.FirstFourccStays | src/r_mp4.cpp:444-449 | once a codec is set, later descriptions never replace it |
| Mp4Reader.FirstFourccWins | src/r_mp4.cpp:502-507 | with no codec set yet, the first description's non-empty FourCC becomes the track's codec |
| Mp4Reader.ChainSnoc | src/r_mp4.cpp:290-292 | the children walked inside a parent form a chain of consecutive atoms, and one more atom read where the chain ends extends it |
| Mp4Reader.TopPrefixSnoc | src/r_mp4.cpp:141-177 | the top-level walk, skipping every atom by its size, visits a chain from offset 0 that ends with the first `mdat` |
| Mp4Reader.UnknownAtomEntered | src/r_mp4.cpp:141-177 | a `uuid` atom whose payload looks like an atom header is entered rather than skipped, so the source finds an `mdat` inside it (finding G) |
| Mp4Reader.FindKeyframe | src/r_mp4.cpp:787-796 | the search through the sync-sample table answers exactly whether the 1-based frame is listed, or the table is empty |
| Mp4Reader.Reader.constructor | src/r_mp4.cpp:60-70 | a reader starts at offset 0 of the file, with no tracks, no compression algorithm and not done |
| Mp4Reader.Reader.ReadAtom | src/r_mp4.cpp:110-122 | reading an atom succeeds exactly when `AtomAt` does, fails with its error otherwise, and leaves the position after the header |
| Mp4Reader.Reader.ReadStruct | src/r_mp4.cpp:305-314 | a fixed-size structure is read when the atom and the file hold it, leaving the position after it |
| Mp4Reader.Reader.HandleMvhd | src/r_mp4.cpp:305-314 | the movie header is read, or the short-atom error is raised |
| Mp4Reader.Reader.HandleTkhd | src/r_mp4.cpp:336-346 | the track header sets only the new track's id |
| Mp4Reader.Reader.HandleMdhd | src/r_mp4.cpp:354-366 | the media header sets only the new track's time scale and duration |
| Mp4Reader.Reader.HandleHdlr | src/r_mp4.cpp:368-401 | under `mdia` the handler's component subtype sets only the new track's type; under `minf` the handler is read and nothing changes |
| Mp4Reader.Reader.ReadTable | src/r_mp4.cpp:409-420 | the table words read are exactly `TableAt` |
| Mp4Reader.Reader.HandleStts | src/r_mp4.cpp:409-420 | `stts` sets only the track's duration runs, or fails short without changing it |
| Mp4Reader.Reader.HandleStss | src/r_mp4.cpp:528-537 | `stss` sets only the track's sync-sample table |
| Mp4Reader.Reader.HandleStsc | src/r_mp4.cpp:542-556 | `stsc` sets only the track's chunk map |
| Mp4Reader.Reader.HandleStsz | src/r_mp4.cpp:561-581 | `stsz` sets the constant sample size, or the sample table when that size is 0 |
| Mp4Reader.Reader.HandleStco | src/r_mp4.cpp:583-593 | `stco` sets only the track's chunk table |
| Mp4Reader.Reader.SoundExtensionAt | src/r_mp4.cpp:459-464 | only a version-1 description has the extension, which is read when the data holds it: samples per packet and bytes per frame; otherwise both are 0 |
| Mp4Reader.Reader.SoundEntryAt | src/r_mp4.cpp:437-493 | reading a sound description through the stream gives exactly `SoundEntry` |
| Mp4Reader.Reader.SoundPrivAt | src/r_mp4.cpp:480-492 | reading the codec-private bytes through the stream gives exactly `SoundPriv` |
| Mp4Reader.Reader.VideoEntryAt | src/r_mp4.cpp:495-522 | reading a video description through the stream gives exactly `VideoEntry` |
| Mp4Reader.Reader.HandleStsdEntry | src/r_mp4.cpp:425-526 | one description read through the stream gives exactly `StsdEntry` |
| Mp4Reader.Reader.HandleStsd | src/r_mp4.cpp:425-526 | `stsd` reads as many descriptions as its count says, ending where the last one ends, or fails with the error of the first that fails |
| Mp4Reader.Reader.HandleDcom | src/r_mp4.cpp:601-607 | `dcom` records the compression algorithm |
| Mp4Reader.Reader.HandleCmvd | src/r_mp4.cpp:609-631 | `cmvd` fails unless the algorithm is zlib, then requires the compressed payload, whose size is 32-bit, to be in the file |
| Mp4Reader.Reader.HandleHeaderAtoms | src/r_mp4.cpp:285-292 | the children of a parent are walked as a chain of atoms covering it; on success the position is the parent's end; tracks are only ever appended, and only under `moov` |
| Mp4Reader.Reader.HandleChild | src/r_mp4.cpp:298-600 | dispatching a child keeps every admitted track and appends tracks only under `moov` |
| Mp4Reader.Reader.HandleMoovChild | src/r_mp4.cpp:298-333 | a finished `trak` appends the new track exactly when it is admitted; other children of `moov` append nothing |
| Mp4Reader.Reader.TopLevelStep | src/r_mp4.cpp:141-177 | one top-level atom is read where the position stands, and the position then lies past it, at its end unless it is `mdat`; admitted tracks stay admitted |
| Mp4Reader.Reader.WalkTopLevel | src/r_mp4.cpp:141-177 | the top-level walk visits a chain of atoms from offset 0 ending with `mdat` |
| Mp4Reader.Reader.HandleSampleTable | src/r_mp4.cpp:409-593 | each of `stts`, `stsd`, `stss`, `stsc`, `stsz` and `stco` has its handler's effect on the track being built; any other child changes neither the track nor the read position |
| Mp4Reader.Reader.FinishTracks | src/r_mp4.cpp:179-280 | each track kept is an admitted walked track passed through `FinishTrack` |
| Mp4Reader.Reader.ParseHeaders | src/r_mp4.cpp:129-283 | on success the file is a chain of top-level atoms up to `mdat`, and every track is an admitted walked track finished by `FinishTrack` |
| Mp4Reader.Reader.Read | src/r_mp4.cpp:687-826 | a read after the end, or for no usable track, hands on nothing; otherwise it performs exactly `ReadTrack` on that track, replaces only that track, and reports more data exactly when a packet came and the reader is not done |
| Mp4Reader.Reader.ReadSampleOf | src/r_mp4.cpp:772-815 | reading one sample through the stream gives exactly `ReadSample` |
| Mp4Reader.Reader.ReadChunkOf | src/r_mp4.cpp:704-770 | reading one chunk through the stream gives exactly `ReadChunk` |
| Flac.SyncBits | src/common/flac.cpp:186-188 | the 14-bit sync test on the bit stream is the byte test 0xFF followed by 0b111110 in the top six bits |
| Flac.BitsSplit | src/common/flac.cpp:180-240 | reading a+b bits gives the first a bits shifted left by b, plus the next b bits |
| Flac.BitReader.PeekBits | src/common/flac.cpp:186-188 | peeking gives the next n bits without moving, and fails past the end |
| Flac.BitReader.GetBits | src/common/flac.cpp:196 | getting n bits gives them and moves past them, and fails past the end |
| Flac.BitReader.SkipBits | src/common/flac.cpp:190-193 | skipping moves n bits, and fails past the end |
| Flac.Utf8ExtraBytes | src/common/flac.cpp:154-172 | the coded number never has more than six continuation bytes |
| Flac.Utf8ExtraBytesAgreesWithStandard | src/common/flac.cpp:157-170 | the decoder's lead-byte classification equals section 9.1.5 of RFC 9639 on every lead byte, except that continuation bytes 0x80-0xBF, which the standard rejects, are accepted as if bit 6 were set |
| Flac.Utf8LeadFEandFF | src/common/flac.cpp:169-172 | 0xFF is always rejected, and 0xFE only in the 64-bit form |
| Flac.SkipUtf8 | src/common/flac.cpp:150-177 | the skip succeeds exactly when the lead byte and its continuation bytes are in the buffer; it accepts exactly the lead bytes the classification accepts, and moves past the whole coded number |
| Flac.BlockSizeMatchesRfc | src/common/flac.cpp:196-209 | block-size codes 0, 1, 2-5 and 8-15 give the minimum block size, 192, 144·2^code and 2^code |
| Flac.ReadBlockSizeCode | src/common/flac.cpp:190-196 | after the sync code the block-size code is the high nibble of byte 2 |
| Flac.SkipCodedNumber | src/common/flac.cpp:220-225 | the coded number at byte 4 is skipped in the 64-bit form exactly when the minimum and maximum block sizes differ; the skip fails exactly when byte 4 or the continuation bytes it announces are missing, accepts exactly the lead bytes `Utf8ExtraBytes` accepts, and ends after the whole number |
| Flac.ReadTail | src/common/flac.cpp:227-238 | reading the tail gives exactly `TailSamples`: codes 6 and 7 take an explicit block size of one or two bytes, plus one; a CRC byte must follow; running out of data counts as -1 |
| Flac.ReadNumberAndTail | src/common/flac.cpp:220-239 | from bit 32 on, skipping the coded number and reading the tail gives exactly `NumberAndTail`, with running out of data counting as -1 |
| Flac.GetNumSamplesInternal | src/common/flac.cpp:180-240 | the bit-level parse gives exactly the byte-level `FrameSamples`, with running out of data counting as -1 |
| Flac.GetNumSamples | src/common/flac.cpp:242-251 | the sample count is `FrameSamples`, -1 on any failure |
| Flac.DecodeEncodedHeader | src/common/flac.cpp:180-251 | every well-formed frame header, whatever follows it, yields the block size it announces |
| Flac.TruncatedHeader | src/common/flac.cpp:180-251 | any strict prefix of a well-formed frame header yields -1 |
| Flac.HeaderExtractor.constructor | src/common/flac.cpp:253-262 | the extractor starts at offset 0 with nothing handed out |
| Flac.HeaderExtractor.ReadCallback | src/common/flac.cpp:264-280 | the callback aborts once everything was handed out, otherwise hands out the next min(requested, remaining) bytes; the bytes handed out so far are always the buffer's prefix |
| Bcp47Text.ToLower | src/common/bcp47.cpp:92 | lower-casing keeps the length and maps every character |
| Bcp47Text.TitleCase | src/common/bcp47.cpp:97-98 | the first character upper-case, the rest lower-case |
| Bcp47Text.JoinSplit | src/common/bcp47.cpp:342-345 | splitting on "-" and joining again gives the original string |
| Bcp47Text.SplitJoin | src/common/bcp47.cpp:342-345 | joining dash-free subtags and splitting again gives the subtags |
| Bcp47Text.LowerJoin | src/common/bcp47.cpp:262-270 | lower-casing a joined string is joining the lower-cased parts |
| Bcp47Text.SubtagBoundary | src/common/bcp47.cpp:262-270 | one subtag followed by "-" is a prefix of another subtag's text only if the two subtags are equal |
| Bcp47Text.JoinedPrefix | src/common/bcp47.cpp:262-270 | one joined list followed by "-" is a prefix of another exactly when the first list is a proper leading run of the second |
| Bcp47Text.JoinedPrefixIgnoringCase | src/common/bcp47.cpp:262-270 | the same, ignoring case |
| Bcp47Tag.FormatTag | src/common/bcp47.cpp:88-121 | an invalid tag formats as the empty string unless forced |
| Bcp47Tag.FormatShape | src/common/bcp47.cpp:88-121 | the output is the lower-case language and dashed subtags, then "x" and the private-use subtags, with "-" before "x" only when something precedes it |
| Bcp47Tag.FormatIsJoin | src/common/bcp47.cpp:88-121 | for a tag with a language, or only private use, the output is the "-"-join of its cased subtags |
| Bcp47Tag.SplitFormat | src/common/bcp47.cpp:88-121 | splitting the output on "-" gives back exactly the cased subtags |
| Bcp47Tag.FormatIgnoresCase | src/common/bcp47.cpp:88-121 | two tags that differ only in the case of their subtags format identically |
| Bcp47Tag.RestrictionsOfMeans | src/common/bcp47.cpp:287-300 | a component is restricted exactly when some prefix of the record has it |
| Bcp47Tag.MatchesPrefix | src/common/bcp47.cpp:228-271 | an index beyond the prefix, or a component the prefixes restrict, refuses the match, as does a relevant text shorter than the prefix plus "-" |
| Bcp47Tag.MatchesPrefixBySubtags | src/common/bcp47.cpp:245-270 | past the guards, a tag matches a valid prefix exactly when the prefix's subtags, ignoring case, are a proper leading run of the tag's relevant components |
| Bcp47Tag.MatchesPrefixIgnoresCase | src/common/bcp47.cpp:245-270 | the match does not depend on the case of the tag's stored subtags |
| Bcp47Tag.ParseDecimal | src/common/bcp47.cpp:182-187 | a number is read exactly from a non-empty string of digits |
| Bcp47Tag.StripLeadingZeros | src/common/bcp47.cpp:182-187 | the result is the input's suffix after its leading zeros, and does not start with 0 |
| Bcp47Tag.NormalizeRegionNumber | src/common/bcp47.cpp:182-187 | a normalised region number is never empty |
| Bcp47Tag.DecimalValueOfString | src/common/bcp47.cpp:182-187 | the decimal string of a number reads back as that number |
| Bcp47Tag.Pad3RoundTrip | src/common/bcp47.cpp:182-196 | a number below 1000, zero-padded to three digits, normalised and parsed, is that number |
| Bcp47Parse.SubtagsFrom | src/common/bcp47.cpp:203-226 | only the extlangs (or the variants) and the error change, the old ones stay as a prefix, and a pass appends one subtag per code; a failure carries the matching unknown-subtag error |
| Bcp47Parse.KnownCodesMeans | src/common/bcp47.cpp:208-222 | the known codes are the registry records' own codes for the leading codes the registry has, and the code after them is unknown to it |
| Bcp47Parse.SubtagsFromAppends | src/common/bcp47.cpp:203-226 | the lookups append exactly the registry records' codes of the leading known codes, in order; they pass exactly when every code is known, and otherwise fail naming the first unknown code, keeping what was appended |
| Bcp47Parse.ParseAllAt | src/common/bcp47.cpp:295-297 | the i-th parsed prefix is the parse of the record's i-th prefix string |
| Bcp47Parse.CheckPrefixes | src/common/bcp47.cpp:287-313 | checking a subtag against its record's prefixes changes at most the error, and nothing on success |
| Bcp47Parse.CheckPrefixesByFuel | src/common/bcp47.cpp:287-313 | with fuel left, the prefix check is decided by the parsed prefixes; without it, it fails with `PrefixDepthExhausted` |
| Bcp47Parse.SomePrefixMatchesMeans | src/common/bcp47.cpp:306-308 | trying the parsed prefixes in order finds a match exactly when some prefix matches |
| Bcp47Parse.CheckParsedMeans | src/common/bcp47.cpp:306-313 | the check passes exactly when some parsed prefix matches under the restrictions of all the prefixes together; otherwise the error names the subtag and the record's prefixes and nothing else changes |
| Bcp47Parse.ValidOneByRecord | src/common/bcp47.cpp:278-313 | a subtag missing from the registry fails, one whose record has no prefixes passes, and otherwise the record's prefixes decide |
| Bcp47Parse.ValidOneSpec | src/common/bcp47.cpp:273-315 | validating one subtag changes at most the error, and nothing on success |
| Bcp47Parse.ValidAllSpec | src/common/bcp47.cpp:317-326 | validating all extlangs or variants changes at most the error, and nothing on success |
| Bcp47Parse.LanguageSteps | src/common/bcp47.cpp:348-362 | the language is the ISO 639 table's preferred code for the captured language; reserved four-letter and long languages fail; success means no error |
| Bcp47Parse.SubtagSteps | src/common/bcp47.cpp:364-379 | script, region and variants never change validity or language; extensions always fail; a failure records an error |
| Bcp47Parse.ValidationSteps | src/common/bcp47.cpp:381-387 | the tag becomes valid exactly when both the extlang and the variant validations pass, and only validity and error change |
| Bcp47Parse.ParseGlobalPrivateUse | src/common/bcp47.cpp:341-346 | a global private-use match parses to a valid tag holding only its private-use subtags |
| Bcp47Parse.ParseRefusesUnsupported | src/common/bcp47.cpp:354-376 | reserved four-letter and long language subtags and extensions give an invalid tag with an error |
| Bcp47Parse.ParseValidMeansValidated | src/common/bcp47.cpp:329-388 | a valid parse has no error and either is global private use or passed both validations |
| Bcp47Parse.MoreFuelSameParse | src/common/bcp47.cpp:287-304 | once no nested prefix parse runs out of fuel, one more unit of fuel gives the same tag and still suffices |
| Bcp47Parse.AnyMoreFuelSameParse | src/common/bcp47.cpp:287-304 | once the fuel suffices, any larger fuel gives the same tag, so the bounded parse is the source's unbounded one |
| Bcp47Parse.ParsedIso639Code | src/common/bcp47.cpp:44-48 | a parsed tag has a valid ISO 639 code exactly when the parse is valid and its language is known to the table with a non-empty code, which is then the code stored |
| Bcp47Language.Language.constructor | src/common/bcp47.cpp:33-36 | a new language object is the empty, invalid tag with no formatted string cached |
| Bcp47Language.Language.Format | src/common/bcp47.cpp:73-85 | the result is always `FormatTag` of the current components; an unforced call caches it and reuses a valid cache |
| Bcp47Language.Language.SetValid | src/common/bcp47.cpp:416-422 | sets only the validity and invalidates the cache |
| Bcp47Language.Language.SetLanguage | src/common/bcp47.cpp:424-430 | sets only the lower-cased language and invalidates the cache |
| Bcp47Language.Language.SetExtendedLanguageSubtags | src/common/bcp47.cpp:432-438 | sets only the lower-cased extlangs and invalidates the cache |
| Bcp47Language.Language.SetScript | src/common/bcp47.cpp:440-446 | sets only the script and invalidates the cache |
| Bcp47Language.Language.SetRegion | src/common/bcp47.cpp:448-454 | sets only the region and invalidates the cache |
| Bcp47Language.Language.SetVariants | src/common/bcp47.cpp:456-462 | sets only the lower-cased variants and invalidates the cache |
| Bcp47Language.Language.SetExtensions | src/common/bcp47.cpp:464-470 | sets only the lower-cased extensions and invalidates the cache |
| Bcp47Language.Language.SetPrivateUse | src/common/bcp47.cpp:472-478 | sets only the lower-cased private-use subtags and invalidates the cache |
| Bcp47Language.Language.Equals | src/common/bcp47.cpp:522-526 | two tags are equal exactly when their unforced canonical strings are |
| Bcp47Language.Language.NotEquals | src/common/bcp47.cpp:528-532 | the negation of equality |
| Bcp47Language.Language.ParseLanguage | src/common/bcp47.cpp:142-153 | the object after the language lookup is `LanguageStep` of the one before |
| Bcp47Language.Language.ParseScript | src/common/bcp47.cpp:155-166 | the object after the script lookup is `ScriptStep` of the one before |
| Bcp47Language.Language.ParseRegion | src/common/bcp47.cpp:168-201 | the object after the region lookup is `RegionStep` of the one before |
| Bcp47Language.Language.ParseExtlangsOrVariants | src/common/bcp47.cpp:203-226 | the loop over the captured subtags leaves the object as `SubtagsStep` says |
| Bcp47Language.Language.MatchesPrefix | src/common/bcp47.cpp:228-271 | the method answers `Bcp47Tag.MatchesPrefix` on the two objects' components and changes neither |
| Bcp47Language.Language.ValidateOne | src/common/bcp47.cpp:273-315 | validating one subtag leaves the object as `ValidOneSpec` says |
| Bcp47Language.Language.ParsePrefixes | src/common/bcp47.cpp:287-304 | the record's prefixes parse to `ParseAll`, and the restrictions gathered are `RestrictionsOf` the parsed tags |
| Bcp47Language.Language.AnyPrefixMatches | src/common/bcp47.cpp:306-308 | the loop answers whether some parsed prefix matches |
| Bcp47Language.Language.MatchParsed | src/common/bcp47.cpp:306-313 | trying the parsed prefixes on the object leaves it as `CheckParsed` says |
| Bcp47Language.Language.CheckPrefixesOf | src/common/bcp47.cpp:287-313 | the prefix check on the object parses the record's prefixes to `ParseAll` and leaves the object as `CheckParsed` says; without fuel it fails with `PrefixDepthExhausted` |
| Bcp47Language.Language.ValidateExtlangsOrVariants | src/common/bcp47.cpp:317-326 | the loop leaves the object as `ValidAllSpec` says |
| Bcp47Language.Language.ParseLanguageSteps | src/common/bcp47.cpp:348-362 | the language part of the parse on the object is `LanguageSteps` |
| Bcp47Language.Language.ParseSubtagSteps | src/common/bcp47.cpp:364-379 | the rest of the subtag parse on the object is `SubtagSteps` |
| Bcp47Language.Language.Parse | src/common/bcp47.cpp:328-387 | parsing builds a fresh object whose components are `ParseSpec` of the text, with no formatted string cached |

## Left out

- zlib inflation of a `cmvd` atom, and the walk over the inflated header: the model checks the algorithm and the payload and then goes on. A decompressor is foreign code.
- Mp4Reader.Reader.HandleCmvd: the read of `moov_size` and of the `cmov_size` compressed bytes after it is modelled, with its short-read failure; those bytes run four bytes past the atom's end, as the source reads them. Only their inflation into the `moov_size + 16` buffer and the walk over the inflated `moov` are left out, because zlib is foreign code.
- The logging (`mxverb`, `mxinfo`), warnings and `identify`: these are output only.
- `create_packetizers`, `set_headers`, `display_priority`, `display_progress`, `probe_file`, the packetizers and the codec-private setup: they are outside the reader's parsing core.
- Mp4Reader.Reader.Read: takes the index of the track instead of the packetizer object it is attached to, because the packetizer objects are not modelled.
- Tracks are values in a sequence, not heap objects with arrays. Only the expansion passes (`Mp4Expand`) work in place on arrays.
- I/O: the file is a byte sequence. A read past its end is an error (`ShortRead`), where the source throws.
- Division by zero (a zero time scale, or zero samples per packet) ends the source with a fault. Here it is the error `DivisionByZero`.
- Atom sizes and positions are unbounded integers. A 64-bit size at or above 2^63, negative as the source's `int64_t parent_size`, and 64-bit position wrap-around are not modelled.
- The sound sample rate is kept as the raw 16.16 fixed-point word. No floating point is modelled.
- Sound fields that exist only in version-1 descriptions are 0 for version-0 descriptions.
- Struct layouts of the sound (32 and 48 bytes), video (82), `mvhd` (100), `tkhd` (84), `mdhd` (24) and `hdlr` (24) headers follow the QuickTime file format, because the header declaring them is not part of this model.
- Mp4Atoms.AtomAt: a 64-bit "large size" header is decoded as ISO/IEC 14496-12 lays it out (type at offset 4, size at offset 8), not as the source reads it (size at 4, type at 12). The source's order is `Mp4Atoms.AtomAtAsWritten` (finding A).
- Mp4Reader.Reader.ReadAtom: reads a header as `AtomAt` decodes it, so it follows the same correction (finding A).
- Mp4Reader.Reader.TopLevelStep: skips every top-level atom by its size. The source enters atoms of types it does not list; `Mp4Reader.UnknownAtomEntered` shows that (finding G).
- Mp4Reader.Reader.WalkTopLevel: is built from `TopLevelStep`, so it walks the corrected chain (finding G).
- Mp4Track.FinishTrack: the chunk-map expansion, the timestamps and the sample offsets are written only inside the chunk and sample tables. The source writes past them (findings B, C and D).
- Mp4Reader.Reader.FinishTracks: finishes tracks with `FinishTrack`, so it follows the same bounded writes (findings B, C and D).
- Mp4Reader.Reader.ParseHeaders: runs the corrected top-level walk and the bounded table passes (findings B, C, D and G).
- Mp4Read.ReadChunk: tests the chunk's own index for the key frame, and takes the byte-swapped bits per sample for the chunk size. The source tests the unset `frame` and multiplies by the raw field (findings E and F). `Mp4Read.ChunkStep` takes both as parameters, so the source's versions are stated too.
- Mp4Reader.Reader.ReadChunkOf: reads a chunk as `ReadChunk` does, with the same corrections (findings E and F).
- Mp4Tables.ChunksOf: `safemalloc` leaves a chunk's size, description and first sample unset. Here they are 0, and stay 0 for a chunk the chunk map does not reach. That 0 then feeds the numbering, the offsets and `read`, where the source would use indeterminate memory.
- Mp4Tables.SamplesOf: `safemalloc` leaves a sample's timestamp and position unset. Here they are 0, and stay 0 for a sample the `stts` runs or the chunks do not reach, where the source would use indeterminate memory.
- Mp4Track.Synthesized: `safemalloc` leaves the timestamp and position of each sample synthesised for fixed-size video unset. Here they are 0, and stay 0 for a sample the `stts` runs or the chunks do not reach, where the source would use indeterminate memory.
- Mp4Read.ChunkDurationsNonNegative: states nothing when `1000 * samples * duration` overflows int64, where the source's value wraps.
- Mp4Read.SampleDurationsNonNegative: states nothing when the 32-bit timestamps wrap. The model does compute the wrapped timestamps (`Timestamps` reduces modulo 2^32).
- The int64 running average `avg_duration * pos` is not reduced to 64 bits.
- The `uint32_t` read position is not wrapped at 2^32.
- The AC-3 parser: only its declaration exists in `src/common/ac3.h`, so there is no behaviour to model.
- The libFLAC decoder and `decode_headers`, with its callbacks other than the read callback: they are foreign code.
- The bit reader's exception on reading past the end is an `EndOfData` outcome. `get_num_samples` turns it into -1, as the source's `catch` does.
- The BCP 47 tag regular expression, the ISO 639, ISO 15924 and ISO 3166 tables and the IANA subtag registry are oracles (`Registry`). They are data, not logic.
- `clear`, `is_valid`, the getters, `get_error`, `dump`, `format_long`, `has_valid_iso639_2_code`, `get_iso639_alpha_3_code` and `get_iso639_2_alpha_3_code_or` are not modelled. They are accessors, or lookups in the ISO 639 oracle.
- `disable` and `is_disabled` are not modelled: they flip a process-wide flag.
- Translated parser error messages are not modelled. Errors are the `ParserError` datatype, which keeps the offending code.
- Bcp47Parse.ValidOneSpec: prefix strings are parsed with a fuel bound. When the fuel runs out, validation fails with `PrefixDepthExhausted`, where the source recurses without a bound; registry prefixes do not themselves need validation that deep. Once the fuel suffices, more fuel changes nothing (`MoreFuelSameParse`).

## Findings

The rows are findings A to G, in order.

| source | as written | input that shows it | evidently intended | confidence | as-written member | corrected member |
|---|---|---|---|---|---|---|
| src/r_mp4.cpp:113-122 | with the 32-bit size 1, the 64-bit size is read right after it and the type after that | the large-size `mdat` header `00 00 00 01 'mdat' 00 00 00 00 00 00 00 10` decodes as type 16 with size 'mdat'·2^32 | type at offset 4, 64-bit size at offset 8 (ISO/IEC 14496-12, section 4.2) | not executed | Mp4Atoms.LargeAtomMisread | Mp4Atoms.AtomAtEncoded |
| src/r_mp4.cpp:220-228 | the backward `stsc` expansion writes every chunk from an entry's first chunk up to the next entry's, without checking that they exist | two chunks, `stsc` first chunks 1 and 5: chunk index 2 is written | expansion limited to the chunk table | not executed | Mp4Track.ChunkMapWritesPastTable | Mp4Track.ChunkMapStaysInTable |
| src/r_mp4.cpp:259-267 | timestamps are written for every sample the `stts` runs count | one run of 2 samples over a 1-entry `stsz` table: sample 1 is written | writes limited to the sample table | not executed | Mp4Track.TimestampsWritePastTable | Mp4Track.SampleTablesStayInTable |
| src/r_mp4.cpp:270-279 | offsets are written for every sample the chunks count | one chunk of 2 samples over a 1-entry `stsz` table: sample 1 is written | writes limited to the sample table | not executed | Mp4Track.PositionsWritePastTable | Mp4Track.SamplePlacedInTable |
| src/r_mp4.cpp:735-744 | in the constant-size branch the key-frame test compares with `frame + 1`, and `frame` is never set there | sync table [1]: the flag differs between an indeterminate `frame` of 0 and of 1 | test the chunk's own index `dmx->pos` | not executed | Mp4Read.ChunkKeyframeUndetermined | Mp4Read.ReadMarksSyncFrames |
| src/r_mp4.cpp:727-728 | version-0 sound frame size multiplies by the stored big-endian `sample_size` without byte swapping | stereo 16-bit PCM, a chunk of one sample, on a little-endian host: 1024 bytes instead of 4 | use the swapped bits per sample (`a_bitdepth`) | not executed | Mp4Read.FrameBytesMisread | Mp4Read.PcmChunkBytes |
| src/r_mp4.cpp:141-177 | the top-level walk skips only the atom types it lists; any other atom is entered, and its payload is read as the next atom | a 24-byte `uuid` atom whose payload is a 16-byte `mdat` header: the walk stops at offset 8 inside it | skip every top-level atom by its size | not executed | Mp4Reader.UnknownAtomEntered | Mp4Reader.Reader.TopLevelStep |
