/**
 * The table expansion of the QuickTime/MP4 reader, in place on the
 * tables as the reader allocates them, each loop proved against the
 * function of the sample tables that specifies it.
 */
module Mp4Expand {

  import opened Wrappers
  import opened Bytes
  import opened Mp4Atoms
  import opened Mp4Tables
  import opened Mp4Track

  /** The chunk map from its last entry to its first, each entry's run ending where the next one starts. */
  method ExpandChunkMapInPlace(chunks: array<Chunk>, cm: seq<ChunkMapEntry>)
    modifies chunks
    ensures chunks[..] == ExpandChunkMap(cm, old(chunks[..]))
  {
    var last: nat := chunks.Length;
    var i := |cm|;
    while i > 0
      invariant 0 <= i <= |cm|
      invariant ExpandDown(cm, chunks[..], i, last) == ExpandChunkMap(cm, old(chunks[..]))
    {
      i := i - 1;
      var e := cm[i];
      ghost var before := chunks[..];
      var j := e.firstChunk;
      while j < last && j < chunks.Length
        invariant e.firstChunk <= j && (j == e.firstChunk || (j <= last && j <= chunks.Length))
        invariant forall k :: 0 <= k < chunks.Length ==>
          chunks[k] == if e.firstChunk <= k < j then Assign(before[k], e) else before[k]
      {
        chunks[j] := Assign(chunks[j], e);
        j := j + 1;
      }
      assert chunks[..] == ApplyEntry(before, e, last);
      last := e.firstChunk;
    }
  }

  /** Each chunk gets the number of its first sample; the sample count is returned. */
  method NumberChunksInPlace(chunks: array<Chunk>) returns (total: nat)
    modifies chunks
    ensures chunks[..] == NumberChunks(old(chunks[..]))
    ensures total == SampleCount(old(chunks[..]))
  {
    ghost var orig := chunks[..];
    ghost var ns := ChunkSizes(orig);
    var s := 0;
    var j := 0;
    while j < chunks.Length
      invariant 0 <= j <= chunks.Length
      invariant s == Sum(ns[..j]) % U32_LIMIT
      invariant forall k :: 0 <= k < chunks.Length ==>
        chunks[k] == if k < j then orig[k].(samples := Sum(ns[..k]) % U32_LIMIT) else orig[k]
    {
      chunks[j] := chunks[j].(samples := s);
      SumSnoc(ns, j);
      ModAdd(Sum(ns[..j]), ns[j]);
      s := (s + chunks[j].size) % U32_LIMIT;
      j := j + 1;
    }
    assert ns[..j] == ns;
    total := s;
  }

  /** n samples of the given size, for video stored without a sample size table. */
  method SynthesizeSamples(n: nat, size: nat) returns (samples: array<Sample>)
    ensures fresh(samples) && samples[..] == Synthesized(n, size)
  {
    samples := new Sample[n];
    var i := 0;
    while i < n
      invariant 0 <= i <= n
      invariant forall k :: 0 <= k < i ==> samples[k] == Sample(0, size, 0)
    {
      samples[i] := Sample(0, size, 0);
      i := i + 1;
    }
  }

  /** The runs of the time-to-sample map one sample at a time, no further than the sample table. */
  method AssignTimestamps(samples: array<Sample>, d: seq<DurEntry>)
    modifies samples
    ensures samples[..] == Timestamps(old(samples[..]), d)
  {
    ghost var orig := samples[..];
    ghost var ds := Durations(d);
    var n := samples.Length;
    var s: nat := 0;
    var pts: nat := 0;
    var j := 0;
    assert d[..0] == [];
    while j < |d|
      invariant 0 <= j <= |d|
      invariant s <= n && s <= |Durations(d[..j])| && (s < n ==> s == |Durations(d[..j])|)
      invariant Stamped(samples[..], orig, ds, s, pts)
    {
      DurationsSnoc(d, j);
      var i := 0;
      while i < d[j].number && s < n
        invariant 0 <= i <= d[j].number
        invariant s <= n && s <= |Durations(d[..j])| + i && (s < n ==> s == |Durations(d[..j])| + i)
        invariant Stamped(samples[..], orig, ds, s, pts)
      {
        DurationOfRun(d, j, i);
        ghost var before := samples[..];
        samples[s] := samples[s].(pts := pts);
        StampOne(before, orig, ds, s, pts);
        assert samples[..] == before[s := before[s].(pts := pts)];
        pts := (pts + d[j].duration) % U32_LIMIT;
        s := s + 1;
        i := i + 1;
      }
      j := j + 1;
    }
    assert d[..j] == d;
  }

  /** The first s samples stamped, the others as they were; pts is the stamp of sample s. */
  ghost predicate Stamped(cur: seq<Sample>, orig: seq<Sample>, ds: seq<nat>, s: nat, pts: nat)
  {
    && |cur| == |orig| && s <= |orig| && s <= |ds|
    && pts == Sum(ds[..s]) % U32_LIMIT
    && forall k :: 0 <= k < |orig| ==> cur[k] == if k < s then orig[k].(pts := Sum(ds[..k]) % U32_LIMIT) else orig[k]
  }

  lemma StampOne(cur: seq<Sample>, orig: seq<Sample>, ds: seq<nat>, s: nat, pts: nat)
    requires Stamped(cur, orig, ds, s, pts) && s < |orig| && s < |ds|
    ensures Stamped(cur[s := cur[s].(pts := pts)], orig, ds, s + 1, (pts + ds[s]) % U32_LIMIT)
  {
    SumSnoc(ds, s);
    ModAdd(Sum(ds[..s]), ds[s]);
  }

  /** The samples of each chunk placed back to back from the chunk's position, no further than the sample table. */
  method AssignPositions(samples: array<Sample>, chunks: seq<Chunk>)
    modifies samples
    ensures samples[..] == Positions(old(samples[..]), chunks)
  {
    ghost var orig := samples[..];
    ghost var sizes := SampleSizes(orig);
    var s := 0;
    var j := 0;
    while j < |chunks|
      invariant 0 <= j <= |chunks|
      invariant s == |OffsetsUpTo(chunks, sizes, j)|
      invariant Placed(samples[..], orig, OffsetsUpTo(chunks, sizes, j))
    {
      s := PlaceNextChunk(samples, chunks, j, s, orig);
      j := j + 1;
    }
  }

  /** Chunk j placed after the chunks before it. */
  method PlaceNextChunk(samples: array<Sample>, chunks: seq<Chunk>, j: nat, start: nat, ghost orig: seq<Sample>)
    returns (s: nat)
    requires j < |chunks|
    requires start == |OffsetsUpTo(chunks, SampleSizes(orig), j)|
    requires Placed(samples[..], orig, OffsetsUpTo(chunks, SampleSizes(orig), j))
    modifies samples
    ensures s == |OffsetsUpTo(chunks, SampleSizes(orig), j + 1)|
    ensures Placed(samples[..], orig, OffsetsUpTo(chunks, SampleSizes(orig), j + 1))
  {
    ghost var sizes := SampleSizes(orig);
    ghost var before := samples[..];
    ghost var prev := OffsetsUpTo(chunks, sizes, j);
    ghost var next := OffsetsUpTo(chunks, sizes, j + 1);
    OffsetsStep(chunks, sizes, j);
    s := PlaceChunk(samples, chunks[j], start);
    PlacedRun(orig, before, samples[..], chunks[j], prev, next);
  }

  /** The samples before the number of offsets have their position, the others are as they were. */
  ghost predicate Placed(cur: seq<Sample>, orig: seq<Sample>, offs: seq<nat>)
  {
    && |cur| == |orig| && |offs| <= |orig|
    && forall k :: 0 <= k < |orig| ==> cur[k] == if k < |offs| then orig[k].(pos := offs[k]) else orig[k]
  }

  /** The samples from start up to s lie back to back from the chunk's position; the others are as they were. */
  ghost predicate ChunkPlaced(before: seq<Sample>, after: seq<Sample>, chunk: Chunk, start: nat, s: nat)
  {
    && |after| == |before| && start <= s <= |before|
    && forall k :: 0 <= k < |before| ==>
      after[k] == if start <= k < s then before[k].(pos := chunk.pos + Sum(SampleSizes(before)[start..k])) else before[k]
  }

  lemma PlacedRun(orig: seq<Sample>, before: seq<Sample>, after: seq<Sample>, chunk: Chunk, prev: seq<nat>, next: seq<nat>)
    requires Placed(before, orig, prev)
    requires ChunkPlaced(before, after, chunk, |prev|, |next|)
    requires |prev| <= |next| && next[..|prev|] == prev
    requires forall k :: |prev| <= k < |next| ==> next[k] == chunk.pos + Sum(SampleSizes(orig)[|prev|..k])
    ensures Placed(after, orig, next)
  {
    var first := |prev|;
    assert SampleSizes(before) == SampleSizes(orig);
    forall k | 0 <= k < |orig|
      ensures after[k] == if k < |next| then orig[k].(pos := next[k]) else orig[k]
    {
      if k < first {
        assert next[k] == next[..first][k];
      }
    }
  }

  /** The samples of one chunk, from sample `start` on, as far as the table goes; returns where the next chunk starts. */
  method PlaceChunk(samples: array<Sample>, chunk: Chunk, start: nat) returns (s: nat)
    requires start <= samples.Length
    modifies samples
    ensures s == Min(start + chunk.size, samples.Length)
    ensures ChunkPlaced(old(samples[..]), samples[..], chunk, start, s)
  {
    ghost var orig := samples[..];
    ghost var sizes := SampleSizes(orig);
    s := start;
    var pos := chunk.pos;
    var i := 0;
    while i < chunk.size && s < samples.Length
      invariant 0 <= i <= chunk.size
      invariant s == start + i && s <= samples.Length
      invariant pos == chunk.pos + Sum(sizes[start..s])
      invariant ChunkPlaced(orig, samples[..], chunk, start, s)
    {
      ghost var before := samples[..];
      samples[s] := samples[s].(pos := pos);
      PlaceOne(orig, before, chunk, start, s, pos);
      assert samples[..] == before[s := before[s].(pos := pos)];
      SumSlice(sizes, start, s);
      pos := pos + samples[s].size;
      s := s + 1;
      i := i + 1;
    }
  }

  lemma PlaceOne(orig: seq<Sample>, cur: seq<Sample>, chunk: Chunk, start: nat, s: nat, pos: nat)
    requires ChunkPlaced(orig, cur, chunk, start, s) && s < |orig|
    requires pos == chunk.pos + Sum(SampleSizes(orig)[start..s])
    ensures ChunkPlaced(orig, cur[s := cur[s].(pos := pos)], chunk, start, s + 1)
    ensures cur[s].size == SampleSizes(orig)[s]
  {
  }

  /** The reader's work on one track after the headers, on its own copies of the tables. */
  method Finish(t: Track) returns (r: Result<Track, Mp4Error>)
    ensures r == FinishTrack(t)
  {
    if Unsupported(t) || MissingData(t) {
      return Ok(t);
    }
    var chunks := new Chunk[|t.chunks|](k requires 0 <= k < |t.chunks| => t.chunks[k]);
    assert chunks[..] == t.chunks;
    ExpandChunkMapInPlace(chunks, t.chunkmap);
    ghost var expanded := chunks[..];
    var total := NumberChunksInPlace(chunks);
    NumberingKeepsSizes(expanded);
    var p := t.(ok := true, chunks := chunks[..]);
    if |t.samples| == 0 && t.kind != 'a' {
      var synth := SynthesizeSamples(total, t.sampleSize);
      p := p.(samples := synth[..], sampleSize := 0);
    }
    assert p == Prepared(t);
    if |p.samples| == 0 {
      if SingleDuration(t.durmap) {
        return Ok(p.(duration := t.durmap[0].duration));
      }
      return Err(ConstantSizeVariableDuration);
    }
    var samples := new Sample[|p.samples|](k requires 0 <= k < |p.samples| => p.samples[k]);
    assert samples[..] == p.samples;
    AssignTimestamps(samples, t.durmap);
    AssignPositions(samples, p.chunks);
    r := Ok(p.(samples := samples[..]));
  }
}
