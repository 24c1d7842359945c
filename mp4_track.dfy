/**
 * A track of the QuickTime/MP4 reader (a "demuxer" record) and what the
 * reader does to every track once the headers are read: refuse codecs it
 * cannot pass through, skip tracks whose headers are incomplete, expand
 * the chunk map, number the chunks, give fixed-size video a sample table,
 * and stamp and place every sample.
 */
module Mp4Track {

  import opened Wrappers
  import opened Bytes
  import opened Mp4Atoms
  import opened Mp4Tables

  /**
   * `kind` is '?' until a handler atom names the track sound ('a') or video
   * ('v'). `aSampleRate` is the 16.16 fixed-point word of the sound
   * description; `aVersion`, `aSamplesPerPacket` and `aBytesPerFrame` come
   * from its version 1 extension. `pos` is the next sample (or chunk) to
   * read.
   */
  datatype Track = Track(
    kind: char, id: nat, fourcc: seq<byte>,
    timescale: nat, globalDuration: nat,
    durmap: seq<DurEntry>, chunkmap: seq<ChunkMapEntry>, chunks: seq<Chunk>,
    samples: seq<Sample>, keyframes: seq<nat>, sampleSize: nat,
    aChannels: nat, aBitdepth: nat, aSampleRate: nat,
    aVersion: nat, aSamplesPerPacket: nat, aBytesPerFrame: nat, aPriv: seq<byte>,
    vWidth: nat, vHeight: nat, vBitdepth: nat, vDesc: seq<byte>,
    ok: bool, duration: nat, pos: nat, avgDuration: int)

  /** A track as a 'trak' atom starts it: all zero, of unknown kind. */
  const NewTrack: Track := Track(
    '?', 0, [0, 0, 0, 0], 0, 0, [], [], [], [], [], 0,
    0, 0, 0, 0, 0, 0, [], 0, 0, 0, [], false, 0, 0, 0)

  predicate FourccUnset(f: seq<byte>)
  {
    f == [0, 0, 0, 0]
  }

  /** What a 'trak' atom must have produced for the track to be kept. */
  predicate Admitted(t: Track)
  {
    t.kind != '?' && !FourccUnset(t.fourcc)
  }

  function LowerByte(b: byte): byte
  {
    if 0x41 <= b <= 0x5a then b + 0x20 else b
  }

  /** The first |s| bytes of f equal s, ignoring ASCII case. */
  predicate StartsIgnoringCase(f: seq<byte>, s: seq<byte>)
  {
    |s| <= |f| && forall i :: 0 <= i < |s| ==> LowerByte(f[i]) == LowerByte(s[i])
  }

  const SVQ: seq<byte> := [0x73, 0x76, 0x71]
  const CVID: seq<byte> := [0x63, 0x76, 0x69, 0x64]
  const QDM: seq<byte> := [0x51, 0x44, 0x4d]

  /** Video other than Sorenson ("svq…") or Cinepak ("cvid"), and audio other than QDesign ("QDM…"). */
  predicate Unsupported(t: Track)
  {
    || (t.kind == 'v' && !StartsIgnoringCase(t.fourcc, SVQ) && !StartsIgnoringCase(t.fourcc, CVID))
    || (t.kind == 'a' && !StartsIgnoringCase(t.fourcc, QDM))
  }

  predicate MissingData(t: Track)
  {
    || (t.kind == 'v' && (t.vWidth == 0 || t.vHeight == 0 || FourccUnset(t.fourcc)))
    || (t.kind == 'a' && (t.aChannels == 0 || t.aSampleRate == 0))
    || t.kind == '?'
  }

  /** The sample table of fixed-size video, which has no sample size table: n samples of one size. */
  function Synthesized(n: nat, size: nat): (s: seq<Sample>)
    ensures |s| == n && forall k :: 0 <= k < n ==> s[k] == Sample(0, size, 0)
  {
    seq(n, _ => Sample(0, size, 0))
  }

  /** One time-to-sample run, or two whose second covers one sample: a constant sample duration. */
  predicate SingleDuration(d: seq<DurEntry>)
  {
    |d| == 1 || (|d| == 2 && d[1].number == 1)
  }

  /** The chunk table with the chunk map expanded over it and the chunks numbered. */
  function ExpandedChunks(t: Track): seq<Chunk>
  {
    NumberChunks(ExpandChunkMap(t.chunkmap, t.chunks))
  }

  /** The track before timestamps and positions: accepted, chunks done, sample table synthesized if need be. */
  function Prepared(t: Track): Track
  {
    var chunks := ExpandedChunks(t);
    var t1 := t.(ok := true, chunks := chunks);
    if |t.samples| == 0 && t.kind != 'a' then t1.(samples := Synthesized(SampleCount(chunks), t.sampleSize), sampleSize := 0)
    else t1
  }

  /**
   * What the reader makes of a track after the headers: unsupported and
   * incomplete tracks stay as they are (not ok); a track without sample
   * table takes a constant duration or is refused; every other track gets
   * its timestamps and sample positions.
   */
  function FinishTrack(t: Track): Result<Track, Mp4Error>
  {
    if Unsupported(t) || MissingData(t) then Ok(t)
    else
      var p := Prepared(t);
      if |p.samples| == 0 then
        if SingleDuration(t.durmap) then Ok(p.(duration := t.durmap[0].duration))
        else Err(ConstantSizeVariableDuration)
      else
        Ok(p.(samples := Positions(Timestamps(p.samples, t.durmap), p.chunks)))
  }

  /** A track that is not yet accepted is accepted exactly when its codec is supported and its headers complete. */
  lemma FinishAccepts(t: Track)
    requires !t.ok && FinishTrack(t).Ok?
    ensures FinishTrack(t).value.ok <==> !Unsupported(t) && !MissingData(t)
  {
  }

  /** The reader stops only for a track of constant sample size whose durations vary. */
  lemma FinishRefuses(t: Track)
    ensures FinishTrack(t).Err? <==>
      && !Unsupported(t) && !MissingData(t)
      && |t.samples| == 0 && (t.kind == 'a' || SampleCount(ExpandedChunks(t)) == 0)
      && !SingleDuration(t.durmap)
  {
  }

  /** A track accepted now has its chunk map expanded and its chunks numbered. */
  lemma FinishedChunks(t: Track)
    requires FinishTrack(t).Ok? && FinishTrack(t).value.ok && !t.ok
    ensures !Unsupported(t) && !MissingData(t)
    ensures FinishTrack(t).value.chunks == ExpandedChunks(t)
  {
  }

  /** A track accepted now with a sample table has its samples stamped and placed. */
  lemma FinishedSamples(t: Track)
    requires FinishTrack(t).Ok? && FinishTrack(t).value.ok && !t.ok && |FinishTrack(t).value.samples| > 0
    ensures var p := Prepared(t);
      FinishTrack(t).value == p.(samples := Positions(Timestamps(p.samples, t.durmap), p.chunks))
  {
    var p := Prepared(t);
    assert !Unsupported(t) && !MissingData(t);
    assert |p.samples| > 0;
  }

  /**
   * In an accepted track with a sample table, sample i of chunk j — the
   * sample after the ones the chunks before j hold — lies at the chunk's
   * position plus the sizes of the samples of the chunk before it, and is
   * stamped with the durations of all samples before it.
   */
  lemma FinishedSample(t: Track, j: nat, i: nat)
    requires FinishTrack(t).Ok? && FinishTrack(t).value.ok && !t.ok
    requires var r := FinishTrack(t).value; |r.samples| > 0 && j < |r.chunks| && i < r.chunks[j].size
    requires var r := FinishTrack(t).value; Sum(ChunkSizes(r.chunks)[..j]) + i < |r.samples|
    ensures var r := FinishTrack(t).value;
      var k := Sum(ChunkSizes(r.chunks)[..j]) + i;
      var sizes := SampleSizes(Prepared(t).samples);
      && r.samples[k].pos == r.chunks[j].pos + Sum(sizes[k - i..k])
      && r.samples[k].size == sizes[k]
      && (k < |Durations(t.durmap)| ==> r.samples[k].pts == Sum(Durations(t.durmap)[..k]) % U32_LIMIT)
  {
    var p := Prepared(t);
    var timed := Timestamps(p.samples, t.durmap);
    var r := FinishTrack(t).value;
    FinishedSamples(t);
    var sizes := SampleSizes(p.samples);
    assert SampleSizes(timed) == sizes;
    var k := Sum(ChunkSizes(p.chunks)[..j]) + i;
    SampleInChunk(p.chunks, sizes, j, i);
    assert r.samples[k] == timed[k].(pos := OffsetsUpTo(p.chunks, sizes, |p.chunks|)[k]);
  }

  // ---------------------------------------------------------------------
  // Out-of-bounds writes of the table expansion in src/r_mp4.cpp: the
  // loops are bounded by the chunk map and the time-to-sample runs, not by
  // the tables they write into.

  /** The indices from lo up to, not including, hi. */
  function Between(lo: nat, hi: nat): (s: set<nat>)
    ensures forall j :: j in s <==> lo <= j < hi
    decreases hi
  {
    if hi <= lo then {} else Between(lo, hi - 1) + {hi - 1}
  }

  /** The chunk indices the chunk-map loop writes, whatever the length of the chunk table. */
  function ChunkMapWritesAsWritten(cm: seq<ChunkMapEntry>, i: nat, last: nat): set<nat>
    requires i <= |cm|
    decreases i
  {
    if i == 0 then {}
    else Between(cm[i - 1].firstChunk, last) + ChunkMapWritesAsWritten(cm, i - 1, cm[i - 1].firstChunk)
  }

  /**
   * Two chunks and a chunk map whose runs start at chunks 1 and 5: the run
   * of chunk 1 reaches up to chunk 5, so the loop writes the third and
   * fourth entries of a two-entry chunk table.
   */
  lemma ChunkMapWritesPastTable()
    ensures var cm := ChunkMapOf([1, 1, 1, 5, 1, 1]);
      && cm == [ChunkMapEntry(0, 1, 1), ChunkMapEntry(4, 1, 1)]
      && 2 in ChunkMapWritesAsWritten(cm, |cm|, 2)
  {
    var ws := [1, 1, 1, 5, 1, 1];
    assert ws[3..][3..] == [];
    var cm := ChunkMapOf(ws);
    assert cm == [ChunkMapEntry(0, 1, 1), ChunkMapEntry(4, 1, 1)];
    assert 2 in Between(cm[0].firstChunk, cm[1].firstChunk);
  }

  /** The expansion as modelled writes only the chunk table, and gives each chunk the run it belongs to. */
  lemma ChunkMapStaysInTable(cm: seq<ChunkMapEntry>, chunks: seq<Chunk>)
    requires SortedChunkMap(cm) && cm != [] && cm[0].firstChunk == 0
    ensures |ExpandChunkMap(cm, chunks)| == |chunks|
    ensures forall j :: 0 <= j < |chunks| ==>
      var k := LastEntryAtOrBefore(cm, |cm|, j);
      0 <= k && ExpandChunkMap(cm, chunks)[j] == Assign(chunks[j], cm[k])
  {
    forall j | 0 <= j < |chunks|
      ensures var k := LastEntryAtOrBefore(cm, |cm|, j);
        0 <= k && ExpandChunkMap(cm, chunks)[j] == Assign(chunks[j], cm[k])
    {
      ChunkMapFollowsRuns(cm, chunks, j);
    }
  }

  /** The sample indices the timestamp loop writes: one per sample the runs describe, counted in 32 bits. */
  function TimestampWritesAsWritten(d: seq<DurEntry>): set<nat>
  {
    set k | k in Between(0, |Durations(d)|) :: k % U32_LIMIT
  }

  /** A run of two samples over a one-sample table: the loop writes the second, missing entry. */
  lemma TimestampsWritePastTable()
    ensures var d := DurMapOf([2, 10]);
      && d == [DurEntry(2, 10)]
      && 1 in TimestampWritesAsWritten(d)
  {
    var d := DurMapOf([2, 10]);
    assert [2, 10][2..] == [];
    assert d == [DurEntry(2, 10)];
    assert d[..0] == [];
    assert Durations(d) == [10, 10];
    assert 1 in Between(0, |Durations(d)|) && 1 % U32_LIMIT == 1;
  }

  /** The sample indices the position loop writes: one per sample the chunks hold, counted in 32 bits. */
  function PositionWritesAsWritten(chunks: seq<Chunk>): set<nat>
  {
    set k | k in Between(0, Sum(ChunkSizes(chunks))) :: k % U32_LIMIT
  }

  /** One chunk of two samples over a one-sample table: the loop writes the second, missing entry. */
  lemma PositionsWritePastTable()
    ensures var chunks := ExpandChunkMap([ChunkMapEntry(0, 2, 1)], ChunksOf([0]));
      && chunks == [Chunk(0, 2, 1, 0)]
      && 1 in PositionWritesAsWritten(chunks)
  {
    var chunks := ExpandChunkMap([ChunkMapEntry(0, 2, 1)], ChunksOf([0]));
    assert chunks[0] == Chunk(0, 2, 1, 0);
    assert chunks == [Chunk(0, 2, 1, 0)];
    assert ChunkSizes(chunks) == [2];
    assert ChunkSizes(chunks)[..0] == [];
    assert Sum(ChunkSizes(chunks)) == 2;
    assert 1 in Between(0, 2) && 1 % U32_LIMIT == 1;
  }

  /**
   * Timestamps and positions as modelled touch only the samples the table
   * has: each sample a duration run reaches is stamped with the sum of the
   * durations before it, and the others keep their values.
   */
  lemma SampleTablesStayInTable(samples: seq<Sample>, d: seq<DurEntry>, chunks: seq<Chunk>)
    ensures |Timestamps(samples, d)| == |samples|
    ensures |Positions(samples, chunks)| == |samples|
    ensures forall k :: 0 <= k < |samples| ==>
      && Timestamps(samples, d)[k].size == samples[k].size
      && Timestamps(samples, d)[k].pos == samples[k].pos
      && Timestamps(samples, d)[k].pts == if k < |Durations(d)| then Sum(Durations(d)[..k]) % U32_LIMIT else samples[k].pts
  {
  }

  /**
   * After both bounded passes, sample i of chunk j, when the table has it,
   * keeps its size, lies at the chunk's position plus the sizes of the
   * samples before it in the chunk, and is stamped with the sum of the
   * durations before it when a run reaches it (its old stamp otherwise).
   */
  lemma SamplePlacedInTable(samples: seq<Sample>, d: seq<DurEntry>, chunks: seq<Chunk>, j: nat, i: nat)
    requires j < |chunks| && i < chunks[j].size
    requires Sum(ChunkSizes(chunks)[..j]) + i < |samples|
    ensures var first := Sum(ChunkSizes(chunks)[..j]);
      var k := first + i;
      var r := Positions(Timestamps(samples, d), chunks);
      && r[k].size == samples[k].size
      && r[k].pos == chunks[j].pos + Sum(SampleSizes(samples)[first..k])
      && r[k].pts == if k < |Durations(d)| then Sum(Durations(d)[..k]) % U32_LIMIT else samples[k].pts
  {
    var timed := Timestamps(samples, d);
    var sizes := SampleSizes(samples);
    assert SampleSizes(timed) == sizes;
    SampleInChunk(chunks, sizes, j, i);
  }
}
