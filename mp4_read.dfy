/**
 * What one read request does to a track of the QuickTime/MP4 reader: the
 * packet it hands on (the bytes, a timecode and a duration in
 * milliseconds, and whether it is a key frame), the track's new read
 * position and running average duration, and whether the reader is then
 * done. Tracks with a sample table are read sample by sample; tracks of
 * constant sample size chunk by chunk.
 */
module Mp4Read {

  import opened Wrappers
  import opened Bytes
  import opened Mp4Atoms
  import opened Mp4Tables
  import opened Mp4Track

  const I64_LIMIT: nat := 0x8000_0000_0000_0000

  /** An unsigned 64-bit value taken as a signed one (two's complement). */
  function Signed64(v: nat): (r: int)
    requires v < U64_LIMIT
    ensures -(I64_LIMIT as int) <= r < I64_LIMIT
    ensures r % U64_LIMIT == v
    ensures v < I64_LIMIT ==> r == v
  {
    if v < I64_LIMIT then v else v - U64_LIMIT
  }

  /** Integer division rounding toward zero, as C divides signed integers. */
  function TruncDiv(a: int, b: nat): (q: int)
    requires b > 0
    ensures 0 <= a ==> 0 <= q && q * b <= a < q * b + b
    ensures a < 0 ==> q <= 0 && q * b - b < a <= q * b
  {
    if a >= 0 then a / b else -((-a) / b)
  }

  /** A packet as the reader hands it on: the bytes, timecode and duration in milliseconds, key frame or not. */
  datatype Packet = Packet(bytes: seq<byte>, timecode: int, duration: int, keyframe: bool)

  /** The track after one read, the packet it produced if any, and whether the reader is done afterwards. */
  datatype Step = Step(track: Track, packet: Option<Packet>, done: bool)

  /** Frame `frame` (counted from 0) is a key frame when the track has no sync-sample table or the table lists it (counted from 1). */
  predicate IsKeyframe(keys: seq<nat>, frame: nat)
  {
    keys == [] || frame + 1 in keys
  }

  /** The n bytes at `at`; none when n is 0, wherever `at` is. */
  function Slice(data: seq<byte>, at: nat, n: nat): (s: seq<byte>)
    requires n == 0 || at + n <= |data|
    ensures |s| == n
  {
    if n == 0 then [] else data[at..at + n]
  }

  /** The average duration after the packet with index n: the mean of the n earlier ones and this one, rounded toward zero. */
  function RunningAverage(avg: int, n: nat, duration: int): int
  {
    TruncDiv(avg * n + duration, n + 1)
  }

  // ---------------------------------------------------------------------
  // Tracks with a sample table.

  /** The timecode of sample f in milliseconds: its timestamp in track units scaled by the time scale. */
  function SampleTime(t: Track, f: nat): nat
    requires t.timescale > 0 && f < |t.samples|
  {
    t.samples[f].pts * 1000 / t.timescale
  }

  /** The time to the next sample's timecode, or the running average for the last sample. */
  function SampleDuration(t: Track, f: nat): int
    requires t.timescale > 0 && f < |t.samples|
  {
    if f + 1 < |t.samples| then SampleTime(t, f + 1) - SampleTime(t, f) else t.avgDuration
  }

  /**
   * Reading the sample at the track's read position. The running average
   * takes the sample's duration before the bytes are read; a sample the
   * data does not hold ends the reading.
   */
  function ReadSample(data: seq<byte>, t: Track): (r: Result<Step, Mp4Error>)
    requires t.pos < |t.samples|
    ensures r.Err? <==> t.timescale == 0
    ensures r.Ok? ==> r.value.track.avgDuration == RunningAverage(t.avgDuration, t.pos, SampleDuration(t, t.pos))
    ensures r.Ok? ==> (r.value.packet.Some? <==> r.value.track.pos == t.pos + 1)
    ensures r.Ok? && r.value.packet.None? ==> r.value.done && r.value.track.pos == t.pos
  {
    if t.timescale == 0 then Err(DivisionByZero)
    else
      var f := t.pos;
      var s := t.samples[f];
      var duration := SampleDuration(t, f);
      var t1 := t.(avgDuration := RunningAverage(t.avgDuration, f, duration));
      if s.size > 0 && s.pos + s.size > |data| then Ok(Step(t1, None, true))
      else
        var packet := Packet(Slice(data, s.pos, s.size), SampleTime(t, f), duration, IsKeyframe(t.keyframes, f));
        Ok(Step(t1.(pos := f + 1), Some(packet), f + 1 >= |t.samples|))
  }

  // ---------------------------------------------------------------------
  // Tracks of constant sample size: one packet per chunk.

  /** The timecode of chunk c in milliseconds, computed in unsigned 64-bit arithmetic. */
  function ChunkTime(t: Track, c: nat): (ms: nat)
    requires t.timescale > 0 && c < |t.chunks|
    ensures ms < U64_LIMIT
  {
    ((1000 * ((t.chunks[c].samples * t.duration) % U64_LIMIT)) % U64_LIMIT) / t.timescale
  }

  /** The time to the next chunk's timecode (wrapped to 64 bits and taken as signed), or the running average for the last chunk. */
  function ChunkDuration(t: Track, c: nat): int
    requires t.timescale > 0 && c < |t.chunks|
  {
    if c + 1 < |t.chunks| then Signed64((ChunkTime(t, c + 1) - ChunkTime(t, c)) % U64_LIMIT) else t.avgDuration
  }

  /**
   * The bytes chunk c holds, in unsigned 32-bit arithmetic: its sample
   * count times the constant sample size (unless that is 1); for sound,
   * scaled by bytes per frame over samples per packet (version 1
   * descriptions) or by channels times bits per sample over 8, with
   * `sampleBits` the bits-per-sample value the computation uses.
   */
  function ChunkBytes(t: Track, c: nat, sampleBits: nat): nat
    requires c < |t.chunks|
    requires t.kind == 'a' && t.aVersion == 1 ==> t.aSamplesPerPacket > 0
  {
    var n := if t.sampleSize != 1 then (t.chunks[c].size * t.sampleSize) % U32_LIMIT else t.chunks[c].size;
    if t.kind != 'a' then n
    else if t.aVersion == 1 then ((n * t.aBytesPerFrame) % U32_LIMIT) / t.aSamplesPerPacket
    else ((n * t.aChannels * sampleBits) % U32_LIMIT) / 8
  }

  /**
   * Reading chunk t.pos, with the key-frame test made for frame `frame`
   * and the chunk's byte count computed with `sampleBits` bits per sample.
   * The running average takes the chunk's duration only once its bytes
   * are read.
   */
  function ChunkStep(data: seq<byte>, t: Track, frame: nat, sampleBits: nat): (r: Result<Step, Mp4Error>)
    requires t.pos < |t.chunks|
    ensures r.Err? <==> t.timescale == 0 || (t.kind == 'a' && t.aVersion == 1 && t.aSamplesPerPacket == 0)
    ensures r.Ok? ==> (r.value.packet.Some? <==> r.value.track.pos == t.pos + 1)
    ensures r.Ok? && r.value.packet.None? ==> r.value == Step(t, None, true)
  {
    if t.timescale == 0 || (t.kind == 'a' && t.aVersion == 1 && t.aSamplesPerPacket == 0) then Err(DivisionByZero)
    else
      var c := t.pos;
      var n := ChunkBytes(t, c, sampleBits);
      var at := t.chunks[c].pos;
      if n > 0 && at + n > |data| then Ok(Step(t, None, true))
      else
        var duration := ChunkDuration(t, c);
        var t1 := t.(pos := c + 1, avgDuration := RunningAverage(t.avgDuration, c, duration));
        var packet := Packet(Slice(data, at, n), Signed64(ChunkTime(t, c)), duration, IsKeyframe(t.keyframes, frame));
        Ok(Step(t1, Some(packet), c + 1 >= |t.chunks|))
  }

  /** Reading chunk t.pos: the key-frame test for the chunk read, and the sound description's bits per sample. */
  function ReadChunk(data: seq<byte>, t: Track): Result<Step, Mp4Error>
    requires t.pos < |t.chunks|
  {
    ChunkStep(data, t, t.pos, t.aBitdepth)
  }

  /**
   * One read request on a track: chunk-wise when the track has a constant
   * sample size, sample-wise otherwise; a track read to its end produces
   * nothing and leaves the reader as it is.
   */
  function ReadTrack(data: seq<byte>, t: Track): Result<Step, Mp4Error>
  {
    if t.sampleSize != 0 then
      if t.pos >= |t.chunks| then Ok(Step(t, None, false)) else ReadChunk(data, t)
    else
      if t.pos >= |t.samples| then Ok(Step(t, None, false)) else ReadSample(data, t)
  }

  /** Every packet is marked a key frame exactly by the sync-sample table, for the frame at the read position. */
  lemma ReadMarksSyncFrames(data: seq<byte>, t: Track)
    requires ReadTrack(data, t).Ok? && ReadTrack(data, t).value.packet.Some?
    ensures ReadTrack(data, t).value.packet.value.keyframe <==> t.keyframes == [] || t.pos + 1 in t.keyframes
  {
  }

  /**
   * A read moves the track on by exactly one when it produces a packet,
   * and the reader is done after it exactly when nothing is left to read
   * or the data ran out.
   */
  lemma {:induction false} ReadAdvances(data: seq<byte>, t: Track)
    requires ReadTrack(data, t).Ok?
    ensures var s := ReadTrack(data, t).value;
      && (s.packet.Some? <==> s.track.pos == t.pos + 1)
      && (s.packet.None? ==> s.track.pos == t.pos)
      && (s.packet.Some? ==> (s.done <==> s.track.pos == if t.sampleSize != 0 then |t.chunks| else |t.samples|))
  {
    if t.sampleSize != 0 && t.pos < |t.chunks| {
      assert ReadTrack(data, t) == ChunkStep(data, t, t.pos, t.aBitdepth);
    } else if t.sampleSize == 0 && t.pos < |t.samples| {
      assert ReadTrack(data, t) == ReadSample(data, t);
    }
  }

  /**
   * The packet read from a track with a sample table: it exists exactly
   * when the data holds the sample's bytes, and then it holds those bytes,
   * the sample's timestamp in milliseconds, and the time to the next
   * sample's timecode or, for the last sample, the running average. The
   * average takes the duration whether or not the bytes are there.
   */
  lemma ReadSamplePacket(data: seq<byte>, t: Track)
    requires t.sampleSize == 0 && t.pos < |t.samples|
    requires ReadTrack(data, t).Ok?
    ensures t.timescale > 0
    ensures var s := t.samples[t.pos];
      var r := ReadTrack(data, t).value;
      var time := s.pts * 1000 / t.timescale;
      var duration := if t.pos + 1 < |t.samples| then t.samples[t.pos + 1].pts * 1000 / t.timescale - time
                      else t.avgDuration;
      && (r.packet.Some? <==> s.size == 0 || s.pos + s.size <= |data|)
      && r.track.avgDuration == TruncDiv(t.avgDuration * t.pos + duration, t.pos + 1)
      && (r.packet.Some? ==>
            && r.packet.value.bytes == Slice(data, s.pos, s.size)
            && r.packet.value.timecode == time
            && r.packet.value.duration == duration)
  {
    assert ReadTrack(data, t) == ReadSample(data, t);
  }

  /**
   * The packet read from a track of constant sample size: it exists
   * exactly when the data holds the chunk's bytes, and then it holds those
   * bytes, the chunk's timecode taken as signed, and the chunk's duration
   * (the signed time to the next chunk's timecode, or the running average
   * for the last chunk), which the running average then takes. A chunk the data does not hold leaves
   * the track as it was.
   */
  lemma ReadChunkPacket(data: seq<byte>, t: Track)
    requires t.sampleSize != 0 && t.pos < |t.chunks|
    requires ReadTrack(data, t).Ok?
    ensures t.timescale > 0 && (t.kind == 'a' && t.aVersion == 1 ==> t.aSamplesPerPacket > 0)
    ensures var c := t.chunks[t.pos];
      var n := ChunkBytes(t, t.pos, t.aBitdepth);
      var r := ReadTrack(data, t).value;
      var time := Signed64(ChunkTime(t, t.pos));
      var duration := ChunkDuration(t, t.pos);
      && (r.packet.Some? <==> n == 0 || c.pos + n <= |data|)
      && (r.packet.None? ==> r.track == t)
      && (r.packet.Some? ==>
            && r.packet.value.bytes == Slice(data, c.pos, n)
            && r.packet.value.timecode == time
            && r.packet.value.duration == duration
            && r.track.avgDuration == TruncDiv(t.avgDuration * t.pos + duration, t.pos + 1))
  {
    assert ReadTrack(data, t) == ChunkStep(data, t, t.pos, t.aBitdepth);
  }

  lemma MulDivCancel(a: nat, m: nat)
    requires m > 0
    ensures (a * m) / m == a
  {
    var q, r := (a * m) / m, (a * m) % m;
    assert a * m == q * m + r;
    if q < a {
      MulMonotone(q + 1, a, m);
    } else if q > a {
      MulMonotone(a + 1, q, m);
    }
  }

  lemma DivMonotone(a: nat, b: nat, d: nat)
    requires a <= b && d > 0
    ensures a / d <= b / d
  {
    var q1, q2 := a / d, b / d;
    assert a == q1 * d + a % d && b == q2 * d + b % d;
    if q1 > q2 {
      MulMonotone(q2 + 1, q1, d);
    }
  }

  lemma MulMonotone(a: nat, b: nat, k: nat)
    requires a <= b
    ensures a * k <= b * k
  {
  }

  /**
   * When the durations add up to less than 2^32, a finished track's
   * samples get non-decreasing timecodes: every sample but the last that
   * a time-to-sample run covers lasts the (non-negative) time to the next
   * one, which is its own duration scaled to milliseconds.
   */
  lemma SampleDurationsNonNegative(t0: Track, f: nat)
    requires FinishTrack(t0).Ok? && FinishTrack(t0).value.ok && !t0.ok && t0.timescale > 0
    requires Sum(Durations(t0.durmap)) < U32_LIMIT
    requires f + 1 < |FinishTrack(t0).value.samples| && f + 1 < |Durations(t0.durmap)|
    ensures var t := FinishTrack(t0).value;
      && SampleDuration(t, f) >= 0
      && SampleTime(t, f + 1) == (t.samples[f].pts + Durations(t0.durmap)[f]) * 1000 / t.timescale
  {
    var t := FinishTrack(t0).value;
    var p := Prepared(t0);
    var timed := Timestamps(p.samples, t0.durmap);
    FinishedSamples(t0);
    assert t.samples[f].pts == timed[f].pts && t.samples[f + 1].pts == timed[f + 1].pts;
    TimestampsAdvance(p.samples, t0.durmap, f);
    var next := t.samples[f].pts + Durations(t0.durmap)[f];
    assert t.samples[f + 1].pts == next;
    assert SampleTime(t, f + 1) == next * 1000 / t.timescale;
    MulMonotone(t.samples[f].pts, t.samples[f + 1].pts, 1000);
    DivMonotone(t.samples[f].pts * 1000, t.samples[f + 1].pts * 1000, t.timescale);
  }

  /**
   * When the samples of all chunks add up to less than 2^32 and 1000 times
   * that count times the constant duration stays below 2^63, a finished
   * constant-size track's chunk durations are the non-negative time from
   * one chunk's first sample to the next chunk's.
   */
  lemma ChunkDurationsNonNegative(t0: Track, c: nat)
    requires FinishTrack(t0).Ok? && FinishTrack(t0).value.ok && !t0.ok && t0.timescale > 0
    requires |FinishTrack(t0).value.samples| == 0
    requires var ns := ChunkSizes(ExpandChunkMap(t0.chunkmap, t0.chunks));
      Sum(ns) < U32_LIMIT && 1000 * (Sum(ns) * FinishTrack(t0).value.duration) < I64_LIMIT
    requires c + 1 < |FinishTrack(t0).value.chunks|
    ensures var t := FinishTrack(t0).value;
      && ChunkDuration(t, c) >= 0
      && ChunkDuration(t, c) == 1000 * (t.chunks[c + 1].samples * t.duration) / t.timescale
                               - 1000 * (t.chunks[c].samples * t.duration) / t.timescale
  {
    var t := FinishTrack(t0).value;
    var total := Sum(ChunkSizes(ExpandChunkMap(t0.chunkmap, t0.chunks)));
    ChunkSamplesGrow(t0, c);
    ScaledBelow(t.chunks[c + 1].samples, total, t.duration);
    ChunkDurationOfCounts(t, c);
  }

  lemma ScaledBelow(s: nat, total: nat, d: nat)
    requires s <= total && 1000 * (total * d) < I64_LIMIT
    ensures 1000 * (s * d) < I64_LIMIT
  {
    MulMonotone(s, total, d);
    MulMonotone(s * d, total * d, 1000);
  }

  /** In a finished constant-size track without 32-bit overflow, the chunks' first samples grow, up to the sample count. */
  lemma ChunkSamplesGrow(t0: Track, c: nat)
    requires FinishTrack(t0).Ok? && FinishTrack(t0).value.ok && !t0.ok
    requires |FinishTrack(t0).value.samples| == 0
    requires Sum(ChunkSizes(ExpandChunkMap(t0.chunkmap, t0.chunks))) < U32_LIMIT
    requires c + 1 < |FinishTrack(t0).value.chunks|
    ensures var t := FinishTrack(t0).value;
      t.chunks[c].samples <= t.chunks[c + 1].samples <= Sum(ChunkSizes(ExpandChunkMap(t0.chunkmap, t0.chunks)))
  {
    FinishedChunks(t0);
    NumberedSamplesGrow(ExpandChunkMap(t0.chunkmap, t0.chunks), c);
  }

  /** Without 64-bit overflow, the duration of a chunk is the difference of the two chunks' timecodes. */
  lemma ChunkDurationOfCounts(t: Track, c: nat)
    requires t.timescale > 0 && c + 1 < |t.chunks|
    requires t.chunks[c].samples <= t.chunks[c + 1].samples
    requires 1000 * (t.chunks[c + 1].samples * t.duration) < I64_LIMIT
    ensures ChunkDuration(t, c) >= 0
    ensures ChunkDuration(t, c) == 1000 * (t.chunks[c + 1].samples * t.duration) / t.timescale
                                 - 1000 * (t.chunks[c].samples * t.duration) / t.timescale
  {
    var s0, s1, d := t.chunks[c].samples, t.chunks[c + 1].samples, t.duration;
    ScaledMonotone(s0, s1, d);
    ChunkTimeExact(t, c);
    ChunkTimeExact(t, c + 1);
    var a0, a1 := 1000 * (s0 * d), 1000 * (s1 * d);
    var m0, m1 := ChunkTime(t, c), ChunkTime(t, c + 1);
    DivMonotone(a0, a1, t.timescale);
    MulDivBound(a1, t.timescale);
    SignedDifference(m0, m1);
  }

  /** A non-negative difference below 2^63 survives the wrap to 64 bits and the signed reading unchanged. */
  lemma SignedDifference(m0: nat, m1: nat)
    requires m0 <= m1 < I64_LIMIT
    ensures Signed64((m1 - m0) % U64_LIMIT) == m1 - m0
  {
    assert (m1 - m0) % U64_LIMIT == m1 - m0;
  }

  lemma ScaledMonotone(s0: nat, s1: nat, d: nat)
    requires s0 <= s1
    ensures 1000 * (s0 * d) <= 1000 * (s1 * d)
  {
    MulMonotone(s0, s1, d);
  }

  /** Below 2^63, the millisecond timecode of a chunk is computed without wrapping. */
  lemma ChunkTimeExact(t: Track, c: nat)
    requires t.timescale > 0 && c < |t.chunks|
    requires 1000 * (t.chunks[c].samples * t.duration) < I64_LIMIT
    ensures ChunkTime(t, c) == 1000 * (t.chunks[c].samples * t.duration) / t.timescale
  {
    var x := t.chunks[c].samples * t.duration;
    var a := 1000 * x;
    assert x <= a < U64_LIMIT;
    assert x % U64_LIMIT == x && a % U64_LIMIT == a;
  }

  lemma MulDivBound(a: nat, d: nat)
    requires d > 0
    ensures a / d <= a
  {
    var q, r := a / d, a % d;
    assert a == q * d + r;
    MulMonotone(1, d, q);
    assert d * q == q * d;
  }

  // ---------------------------------------------------------------------
  // The constant-size branch as src/r_mp4.cpp writes it.

  /** A 16-bit value with its two bytes exchanged: a big-endian field read on a little-endian host. */
  function Swap16(v: nat): nat
  {
    (v % 256) * 256 + (v / 256) % 256
  }

  /**
   * As written, the key-frame test of the constant-size branch looks up a
   * frame index that branch never sets. For a sync-sample table listing
   * frame 1 only, the packet's key-frame flag depends on that stale value.
   */
  lemma ChunkKeyframeUndetermined(data: seq<byte>, t: Track, sampleBits: nat)
    requires t.pos < |t.chunks| && t.keyframes == [1]
    requires ChunkStep(data, t, 0, sampleBits).Ok? && ChunkStep(data, t, 0, sampleBits).value.packet.Some?
    ensures ChunkStep(data, t, 1, sampleBits).Ok? && ChunkStep(data, t, 1, sampleBits).value.packet.Some?
    ensures ChunkStep(data, t, 0, sampleBits).value.packet.value.keyframe
    ensures !ChunkStep(data, t, 1, sampleBits).value.packet.value.keyframe
  {
    assert 0 + 1 in t.keyframes;
    assert 1 + 1 !in t.keyframes;
  }

  /**
   * As written, a version 0 sound track reads the bits per sample straight
   * from the stored description, without converting it from big-endian. A
   * stereo 16-bit chunk of one sample then counts 1024 bytes instead of 4.
   */
  lemma FrameBytesMisread(t: Track)
    requires t.kind == 'a' && t.aVersion == 0 && t.sampleSize == 1 && t.aChannels == 2 && t.aBitdepth == 16
    requires |t.chunks| > 0 && t.chunks[0].size == 1
    ensures ChunkBytes(t, 0, t.aBitdepth) == 4
    ensures ChunkBytes(t, 0, Swap16(t.aBitdepth)) == 1024
  {
    assert Swap16(16) == 4096;
  }

  /**
   * The bytes of a chunk of a version 0 sound track with whole-byte samples
   * are its sample count times the channels times the bytes per sample,
   * as long as that stays below 2^32.
   */
  lemma {:induction false} PcmChunkBytes(t: Track, c: nat)
    requires t.kind == 'a' && t.aVersion != 1 && t.sampleSize == 1 && c < |t.chunks|
    requires t.aBitdepth % 8 == 0
    requires t.chunks[c].size * t.aChannels * t.aBitdepth < U32_LIMIT
    ensures ChunkBytes(t, c, t.aBitdepth) == t.chunks[c].size * t.aChannels * (t.aBitdepth / 8)
  {
    var k := t.chunks[c].size * t.aChannels;
    var b := t.aBitdepth / 8;
    assert t.aBitdepth == 8 * b;
    assert k * t.aBitdepth == (k * b) * 8;
    MulDivCancel(k * b, 8);
  }
}
