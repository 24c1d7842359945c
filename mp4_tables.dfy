/**
 * The sample tables of a QuickTime/MP4 track and what the reader derives
 * from them. The tables are the time-to-sample map 'stts' (section 8.6.1.2
 * of ISO/IEC 14496-12), the sample-to-chunk map 'stsc' (8.7.4), the sample
 * sizes 'stsz' (8.7.3), the chunk offsets 'stco' (8.7.5) and the sync
 * samples 'stss' (8.6.2). From them the reader gives every chunk its
 * sample count and first sample number, and every sample its timestamp and
 * file position.
 */
module Mp4Tables {

  import opened Bytes

  /** One 'stts' entry: `number` consecutive samples lasting `duration` each. */
  datatype DurEntry = DurEntry(number: nat, duration: nat)

  /** One 'stsc' entry; the first chunk is kept 0-based. */
  datatype ChunkMapEntry = ChunkMapEntry(firstChunk: nat, samplesPerChunk: nat, descriptionId: nat)

  /** A chunk: file position, number of samples, sample description, number of its first sample. */
  datatype Chunk = Chunk(pos: nat, size: nat, desc: nat, samples: nat)

  /** A sample: file position, size in bytes, timestamp in track time units. */
  datatype Sample = Sample(pos: nat, size: nat, pts: nat)

  // ---------------------------------------------------------------------
  // The tables from the 32-bit words of their atoms

  function DurMapOf(ws: seq<nat>): (d: seq<DurEntry>)
    requires |ws| % 2 == 0
    ensures |d| == |ws| / 2
  {
    if ws == [] then [] else [DurEntry(ws[0], ws[1])] + DurMapOf(ws[2..])
  }

  function DurMapWords(d: seq<DurEntry>): (ws: seq<nat>)
    ensures |ws| == 2 * |d|
  {
    if d == [] then [] else [d[0].number, d[0].duration] + DurMapWords(d[1..])
  }

  lemma {:induction false} DurMapRoundTrip(d: seq<DurEntry>)
    ensures DurMapOf(DurMapWords(d)) == d
  {
    if d != [] {
      DurMapRoundTrip(d[1..]);
      assert DurMapWords(d)[2..] == DurMapWords(d[1..]);
    }
  }

  /** The 1-based chunk number of the file, made 0-based in 32-bit arithmetic (0 becomes 2^32 - 1). */
  function ZeroBased(w: nat): nat
  {
    (w + U32_LIMIT - 1) % U32_LIMIT
  }

  function ChunkMapOf(ws: seq<nat>): (cm: seq<ChunkMapEntry>)
    requires |ws| % 3 == 0
    ensures |cm| == |ws| / 3
  {
    if ws == [] then [] else [ChunkMapEntry(ZeroBased(ws[0]), ws[1], ws[2])] + ChunkMapOf(ws[3..])
  }

  function ChunkMapWords(cm: seq<ChunkMapEntry>): (ws: seq<nat>)
    ensures |ws| == 3 * |cm|
  {
    if cm == [] then []
    else [(cm[0].firstChunk + 1) % U32_LIMIT, cm[0].samplesPerChunk, cm[0].descriptionId] + ChunkMapWords(cm[1..])
  }

  /** Entries whose 0-based first chunk fits 32 bits are written and read back unchanged. */
  lemma {:induction false} ChunkMapRoundTrip(cm: seq<ChunkMapEntry>)
    requires forall i :: 0 <= i < |cm| ==> cm[i].firstChunk < U32_LIMIT
    ensures ChunkMapOf(ChunkMapWords(cm)) == cm
  {
    if cm != [] {
      ChunkMapRoundTrip(cm[1..]);
      assert ChunkMapWords(cm)[3..] == ChunkMapWords(cm[1..]);
    }
  }

  /** A chunk table entry knows only its position until the chunk map is expanded. */
  function ChunksOf(ws: seq<nat>): (c: seq<Chunk>)
    ensures |c| == |ws| && forall i :: 0 <= i < |ws| ==> c[i] == Chunk(ws[i], 0, 0, 0)
  {
    seq(|ws|, i requires 0 <= i < |ws| => Chunk(ws[i], 0, 0, 0))
  }

  /** A sample table entry knows only its size until timestamps and positions are assigned. */
  function SamplesOf(ws: seq<nat>): (s: seq<Sample>)
    ensures |s| == |ws| && forall i :: 0 <= i < |ws| ==> s[i] == Sample(0, ws[i], 0)
  {
    seq(|ws|, i requires 0 <= i < |ws| => Sample(0, ws[i], 0))
  }

  // ---------------------------------------------------------------------
  // Expanding the chunk map: the entries are taken from the last to the
  // first; each sets size and description of the chunks from its first
  // chunk up to the first chunk of the entry after it (the end of the
  // chunk table for the last entry).

  function Assign(c: Chunk, e: ChunkMapEntry): Chunk
  {
    c.(desc := e.descriptionId, size := e.samplesPerChunk)
  }

  /** One entry applied to the chunks from its first chunk up to (not including) hi. */
  function ApplyEntry(chunks: seq<Chunk>, e: ChunkMapEntry, hi: nat): (r: seq<Chunk>)
    ensures |r| == |chunks|
    ensures forall j :: 0 <= j < |chunks| ==> r[j] == if e.firstChunk <= j < hi then Assign(chunks[j], e) else chunks[j]
  {
    seq(|chunks|, j requires 0 <= j < |chunks| => if e.firstChunk <= j < hi then Assign(chunks[j], e) else chunks[j])
  }

  /** Entries i-1 down to 0 applied, the next one up having started at `last`. */
  function ExpandDown(cm: seq<ChunkMapEntry>, chunks: seq<Chunk>, i: nat, last: nat): (r: seq<Chunk>)
    requires i <= |cm|
    ensures |r| == |chunks|
    decreases i
  {
    if i == 0 then chunks
    else ExpandDown(cm, ApplyEntry(chunks, cm[i - 1], last), i - 1, cm[i - 1].firstChunk)
  }

  function ExpandChunkMap(cm: seq<ChunkMapEntry>, chunks: seq<Chunk>): (r: seq<Chunk>)
    ensures |r| == |chunks|
  {
    ExpandDown(cm, chunks, |cm|, |chunks|)
  }

  predicate SortedChunkMap(cm: seq<ChunkMapEntry>)
  {
    forall i, j :: 0 <= i < j < |cm| ==> cm[i].firstChunk < cm[j].firstChunk
  }

  /** The last of the entries before i whose first chunk is at most j; -1 when there is none. */
  function LastEntryAtOrBefore(cm: seq<ChunkMapEntry>, i: nat, j: nat): (k: int)
    requires i <= |cm|
    ensures -1 <= k < i
    ensures k >= 0 ==> cm[k].firstChunk <= j
    ensures forall m :: k < m < i ==> cm[m].firstChunk > j
  {
    if i == 0 then -1
    else if cm[i - 1].firstChunk <= j then i - 1
    else LastEntryAtOrBefore(cm, i - 1, j)
  }

  lemma {:induction false} ExpandDownUntouched(cm: seq<ChunkMapEntry>, chunks: seq<Chunk>, i: nat, last: nat, j: nat)
    requires SortedChunkMap(cm) && i < |cm| && last == cm[i].firstChunk
    requires last <= j < |chunks|
    ensures ExpandDown(cm, chunks, i, last)[j] == chunks[j]
    decreases i
  {
    if i > 0 {
      ExpandDownUntouched(cm, ApplyEntry(chunks, cm[i - 1], last), i - 1, cm[i - 1].firstChunk, j);
    }
  }

  lemma {:induction false} ExpandDownSorted(cm: seq<ChunkMapEntry>, chunks: seq<Chunk>, i: nat, last: nat, j: nat)
    requires SortedChunkMap(cm) && i <= |cm| && j < |chunks|
    requires last == |chunks| || (i < |cm| && last == cm[i].firstChunk)
    requires j < last
    ensures var k := LastEntryAtOrBefore(cm, i, j);
      ExpandDown(cm, chunks, i, last)[j] == if k >= 0 then Assign(chunks[j], cm[k]) else chunks[j]
    decreases i
  {
    if i > 0 {
      var c' := ApplyEntry(chunks, cm[i - 1], last);
      var f := cm[i - 1].firstChunk;
      if f <= j {
        ExpandDownUntouched(cm, c', i - 1, f, j);
      } else {
        ExpandDownSorted(cm, c', i - 1, f, j);
      }
    }
  }

  /**
   * For a chunk map that starts at the first chunk and lists its first
   * chunks in increasing order, the expansion gives every chunk the entry
   * of section 8.7.4 of ISO/IEC 14496-12: the last one starting at or
   * before it.
   */
  lemma ChunkMapFollowsRuns(cm: seq<ChunkMapEntry>, chunks: seq<Chunk>, j: nat)
    requires SortedChunkMap(cm) && cm != [] && cm[0].firstChunk == 0 && j < |chunks|
    ensures var k := LastEntryAtOrBefore(cm, |cm|, j);
      && 0 <= k < |cm| && cm[k].firstChunk <= j && (k + 1 < |cm| ==> j < cm[k + 1].firstChunk)
      && ExpandChunkMap(cm, chunks)[j] == Assign(chunks[j], cm[k])
  {
    ExpandDownSorted(cm, chunks, |cm|, |chunks|, j);
  }

  // ---------------------------------------------------------------------
  // Sums

  function Min(a: nat, b: nat): nat
  {
    if a <= b then a else b
  }

  function Sum(xs: seq<nat>): nat
  {
    if xs == [] then 0 else Sum(xs[..|xs| - 1]) + xs[|xs| - 1]
  }

  lemma SumSnoc(xs: seq<nat>, i: nat)
    requires i < |xs|
    ensures Sum(xs[..i + 1]) == Sum(xs[..i]) + xs[i]
  {
    assert xs[..i + 1][..|xs[..i + 1]| - 1] == xs[..i];
  }

  lemma {:induction false} SumPrefixBounded(xs: seq<nat>, i: nat)
    requires i <= |xs|
    ensures Sum(xs[..i]) <= Sum(xs)
    decreases |xs| - i
  {
    if i < |xs| {
      SumSnoc(xs, i);
      SumPrefixBounded(xs, i + 1);
    } else {
      assert xs[..i] == xs;
    }
  }

  /** Adding to a 32-bit sum, one term at a time. */
  lemma ModAdd(a: nat, b: nat)
    ensures (a % U32_LIMIT + b) % U32_LIMIT == (a + b) % U32_LIMIT
  {
    var q := a / U32_LIMIT;
    assert a == q * U32_LIMIT + a % U32_LIMIT;
    assert a + b == q * U32_LIMIT + (a % U32_LIMIT + b);
  }

  lemma SumSlice(xs: seq<nat>, a: nat, s: nat)
    requires a <= s < |xs|
    ensures Sum(xs[a..s + 1]) == Sum(xs[a..s]) + xs[s]
  {
    SumSnoc(xs[a..], s - a);
    assert xs[a..][..s - a + 1] == xs[a..s + 1];
    assert xs[a..][..s - a] == xs[a..s];
  }

  lemma SumPrefixMonotone(xs: seq<nat>, i: nat, k: nat)
    requires i <= k <= |xs|
    ensures Sum(xs[..i]) <= Sum(xs[..k])
  {
    assert xs[..k][..i] == xs[..i];
    SumPrefixBounded(xs[..k], i);
  }

  // ---------------------------------------------------------------------
  // First sample of each chunk: the samples of all chunks before it,
  // counted in 32-bit arithmetic.

  function ChunkSizes(chunks: seq<Chunk>): (ns: seq<nat>)
    ensures |ns| == |chunks| && forall j :: 0 <= j < |chunks| ==> ns[j] == chunks[j].size
  {
    seq(|chunks|, j requires 0 <= j < |chunks| => chunks[j].size)
  }

  function NumberChunks(chunks: seq<Chunk>): (r: seq<Chunk>)
    ensures |r| == |chunks|
    ensures forall j :: 0 <= j < |chunks| ==> r[j] == chunks[j].(samples := Sum(ChunkSizes(chunks)[..j]) % U32_LIMIT)
  {
    seq(|chunks|, j requires 0 <= j < |chunks| => chunks[j].(samples := Sum(ChunkSizes(chunks)[..j]) % U32_LIMIT))
  }

  /** The number of samples the chunks hold together, in 32-bit arithmetic. */
  function SampleCount(chunks: seq<Chunk>): nat
  {
    Sum(ChunkSizes(chunks)) % U32_LIMIT
  }

  /**
   * Without 32-bit overflow the chunks divide the samples into consecutive
   * runs: the first chunk starts at sample 0, each chunk where the one
   * before it ends, and the last one ends at the sample count.
   */
  lemma ChunkRunsTile(chunks: seq<Chunk>)
    requires Sum(ChunkSizes(chunks)) < U32_LIMIT
    ensures chunks != [] ==> NumberChunks(chunks)[0].samples == 0
    ensures chunks != [] ==>
      var last := NumberChunks(chunks)[|chunks| - 1];
      last.samples + last.size == SampleCount(chunks)
    ensures forall j :: 0 <= j < |chunks| - 1 ==>
      NumberChunks(chunks)[j + 1].samples == NumberChunks(chunks)[j].samples + chunks[j].size
  {
    forall j | 0 <= j < |chunks| - 1
      ensures NumberChunks(chunks)[j + 1].samples == NumberChunks(chunks)[j].samples + chunks[j].size
    {
      ChunkRunStep(chunks, j);
    }
    if chunks != [] {
      ChunkRunEnds(chunks);
    }
  }

  lemma ChunkRunEnds(chunks: seq<Chunk>)
    requires Sum(ChunkSizes(chunks)) < U32_LIMIT && chunks != []
    ensures NumberChunks(chunks)[0].samples == 0
    ensures var last := NumberChunks(chunks)[|chunks| - 1];
      last.samples + last.size == SampleCount(chunks)
  {
    var ns := ChunkSizes(chunks);
    assert ns[..0] == [];
    var m := |chunks| - 1;
    SumSnoc(ns, m);
    assert ns[..m + 1] == ns;
  }

  /** Numbering the chunks leaves their sample counts as they were. */
  lemma NumberingKeepsSizes(chunks: seq<Chunk>)
    ensures ChunkSizes(NumberChunks(chunks)) == ChunkSizes(chunks)
  {
  }

  lemma ChunkRunStep(chunks: seq<Chunk>, j: nat)
    requires Sum(ChunkSizes(chunks)) < U32_LIMIT && j + 1 < |chunks|
    ensures NumberChunks(chunks)[j + 1].samples == NumberChunks(chunks)[j].samples + chunks[j].size
  {
    var ns := ChunkSizes(chunks);
    var before, upTo := Sum(ns[..j]), Sum(ns[..j + 1]);
    SumSnoc(ns, j);
    SumPrefixBounded(ns, j + 1);
    assert before <= upTo < U32_LIMIT;
    assert NumberChunks(chunks)[j].samples == before;
    assert NumberChunks(chunks)[j + 1].samples == upTo;
  }

  /** Without 32-bit overflow the numbered chunks' first samples grow, up to the sample count. */
  lemma NumberedSamplesGrow(chunks: seq<Chunk>, j: nat)
    requires Sum(ChunkSizes(chunks)) < U32_LIMIT && j + 1 < |chunks|
    ensures NumberChunks(chunks)[j].samples <= NumberChunks(chunks)[j + 1].samples <= Sum(ChunkSizes(chunks))
  {
    ChunkRunStep(chunks, j);
    SumPrefixBounded(ChunkSizes(chunks), j + 1);
  }

  // ---------------------------------------------------------------------
  // Timestamps: the durations of the time-to-sample runs one after the
  // other, each sample stamped with the sum of the durations before it
  // (in 32-bit arithmetic).

  function Repeat(v: nat, n: nat): (r: seq<nat>)
    ensures |r| == n && forall i :: 0 <= i < n ==> r[i] == v
  {
    seq(n, _ => v)
  }

  function Durations(d: seq<DurEntry>): seq<nat>
  {
    if d == [] then [] else Durations(d[..|d| - 1]) + Repeat(d[|d| - 1].duration, d[|d| - 1].number)
  }

  lemma DurationsSnoc(d: seq<DurEntry>, j: nat)
    requires j < |d|
    ensures Durations(d[..j + 1]) == Durations(d[..j]) + Repeat(d[j].duration, d[j].number)
  {
    assert d[..j + 1][..|d[..j + 1]| - 1] == d[..j];
  }

  lemma {:induction false} DurationsPrefix(d: seq<DurEntry>, j: nat)
    requires j <= |d|
    ensures Durations(d[..j]) <= Durations(d)
    decreases |d| - j
  {
    if j < |d| {
      DurationsSnoc(d, j);
      DurationsPrefix(d, j + 1);
    } else {
      assert d[..j] == d;
    }
  }

  /** The i-th sample of run j lasts the duration that run j gives. */
  lemma DurationOfRun(d: seq<DurEntry>, j: nat, i: nat)
    requires j < |d| && i < d[j].number
    ensures |Durations(d[..j])| + i < |Durations(d)|
    ensures Durations(d)[|Durations(d[..j])| + i] == d[j].duration
  {
    DurationsSnoc(d, j);
    DurationsPrefix(d, j + 1);
  }

  function Timestamps(samples: seq<Sample>, d: seq<DurEntry>): (r: seq<Sample>)
    ensures |r| == |samples|
    ensures forall k :: 0 <= k < |samples| ==>
      r[k] == if k < |Durations(d)| then samples[k].(pts := Sum(Durations(d)[..k]) % U32_LIMIT) else samples[k]
  {
    var ds := Durations(d);
    seq(|samples|, k requires 0 <= k < |samples| =>
      if k < |ds| then samples[k].(pts := Sum(ds[..k]) % U32_LIMIT) else samples[k])
  }

  /**
   * While the durations add up to less than 2^32, the first sample is
   * stamped 0 and every further sample the run has a duration for is
   * stamped its predecessor's timestamp plus its predecessor's duration.
   */
  lemma TimestampsAdvance(samples: seq<Sample>, d: seq<DurEntry>, k: nat)
    requires Sum(Durations(d)) < U32_LIMIT
    requires k + 1 < |samples| && k + 1 < |Durations(d)|
    ensures var r := Timestamps(samples, d);
      r[0].pts == 0 && r[k + 1].pts == r[k].pts + Durations(d)[k]
  {
    var ds := Durations(d);
    SumSnoc(ds, k);
    SumPrefixBounded(ds, k + 1);
    assert ds[..0] == [];
  }

  // ---------------------------------------------------------------------
  // Sample positions: the samples of a chunk lie back to back from the
  // chunk's position, and the chunks take the samples in order.

  function SampleSizes(samples: seq<Sample>): (ns: seq<nat>)
    ensures |ns| == |samples| && forall k :: 0 <= k < |samples| ==> ns[k] == samples[k].size
  {
    seq(|samples|, k requires 0 <= k < |samples| => samples[k].size)
  }

  function RunOffsets(p: nat, sizes: seq<nat>): (r: seq<nat>)
    ensures |r| == |sizes| && forall i :: 0 <= i < |sizes| ==> r[i] == p + Sum(sizes[..i])
  {
    seq(|sizes|, i requires 0 <= i < |sizes| => p + Sum(sizes[..i]))
  }

  /** The positions of the samples that chunks 0 to j-1 hold, no more than there are sizes. */
  function OffsetsUpTo(chunks: seq<Chunk>, sizes: seq<nat>, j: nat): (r: seq<nat>)
    requires j <= |chunks|
    ensures |r| <= |sizes|
    decreases j
  {
    if j == 0 then []
    else
      var prev := OffsetsUpTo(chunks, sizes, j - 1);
      var end := Min(|prev| + chunks[j - 1].size, |sizes|);
      prev + RunOffsets(chunks[j - 1].pos, sizes[|prev|..end])
  }

  function Positions(samples: seq<Sample>, chunks: seq<Chunk>): (r: seq<Sample>)
    ensures |r| == |samples|
    ensures var offs := OffsetsUpTo(chunks, SampleSizes(samples), |chunks|);
      forall k :: 0 <= k < |samples| ==> r[k] == if k < |offs| then samples[k].(pos := offs[k]) else samples[k]
  {
    var offs := OffsetsUpTo(chunks, SampleSizes(samples), |chunks|);
    seq(|samples|, k requires 0 <= k < |samples| => if k < |offs| then samples[k].(pos := offs[k]) else samples[k])
  }

  lemma {:induction false} OffsetsLength(chunks: seq<Chunk>, sizes: seq<nat>, j: nat)
    requires j <= |chunks|
    ensures |OffsetsUpTo(chunks, sizes, j)| == Min(Sum(ChunkSizes(chunks)[..j]), |sizes|)
    decreases j
  {
    if j == 0 {
      assert ChunkSizes(chunks)[..0] == [];
    } else {
      OffsetsLength(chunks, sizes, j - 1);
      SumSnoc(ChunkSizes(chunks), j - 1);
    }
  }

  lemma {:induction false} OffsetsGrow(chunks: seq<Chunk>, sizes: seq<nat>, j: nat, k: nat)
    requires j <= k <= |chunks|
    ensures OffsetsUpTo(chunks, sizes, j) <= OffsetsUpTo(chunks, sizes, k)
    decreases k - j
  {
    if j < k {
      OffsetsGrow(chunks, sizes, j, k - 1);
    }
  }

  /** Chunk j places the samples after the ones of the chunks before it, as far as there are sizes. */
  lemma OffsetsStep(chunks: seq<Chunk>, sizes: seq<nat>, j: nat)
    requires j < |chunks|
    ensures var prev := OffsetsUpTo(chunks, sizes, j);
      var end := Min(|prev| + chunks[j].size, |sizes|);
      var next := OffsetsUpTo(chunks, sizes, j + 1);
      && |prev| <= end && |next| == end && next[..|prev|] == prev
      && forall k :: |prev| <= k < end ==> next[k] == chunks[j].pos + Sum(sizes[|prev|..k])
  {
    var prev := OffsetsUpTo(chunks, sizes, j);
    var end := Min(|prev| + chunks[j].size, |sizes|);
    var run := RunOffsets(chunks[j].pos, sizes[|prev|..end]);
    var next := OffsetsUpTo(chunks, sizes, j + 1);
    assert next == prev + run;
    forall k | |prev| <= k < end
      ensures next[k] == chunks[j].pos + Sum(sizes[|prev|..k])
    {
      assert next[k] == run[k - |prev|];
      assert sizes[|prev|..end][..k - |prev|] == sizes[|prev|..k];
    }
  }

  /**
   * Sample i of chunk j (the sample numbered by the chunks before it plus i)
   * lies at the chunk's position plus the sizes of the samples of the chunk
   * before it.
   */
  lemma SampleInChunk(chunks: seq<Chunk>, sizes: seq<nat>, j: nat, i: nat)
    requires j < |chunks| && i < chunks[j].size
    requires Sum(ChunkSizes(chunks)[..j]) + i < |sizes|
    ensures Sum(ChunkSizes(chunks)[..j]) + i < |OffsetsUpTo(chunks, sizes, |chunks|)|
    ensures var first := Sum(ChunkSizes(chunks)[..j]);
      OffsetsUpTo(chunks, sizes, |chunks|)[first + i] == chunks[j].pos + Sum(sizes[first..first + i])
  {
    var first := Sum(ChunkSizes(chunks)[..j]);
    var next := OffsetsUpTo(chunks, sizes, j + 1);
    OffsetsLength(chunks, sizes, j);
    OffsetsStep(chunks, sizes, j);
    OffsetsGrow(chunks, sizes, j + 1, |chunks|);
    assert first + i < |next|;
    assert next[first + i] == chunks[j].pos + Sum(sizes[first..first + i]);
  }
}
