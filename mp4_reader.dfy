/**
 * The QuickTime/MP4 reader: the walk over the atoms of the file that
 * collects the tracks of the 'moov' atom, the finishing of every track
 * once the 'mdat' atom is reached, and the read requests that hand on one
 * packet of a track at a time.
 */
module Mp4Reader {

  import opened Wrappers
  import opened Bytes
  import opened Mp4Atoms
  import opened Mp4Stream
  import opened Mp4Tables
  import opened Mp4Track
  import opened Mp4Expand
  import opened Mp4Read

  // The fixed parts of the atoms the reader decodes. The sample
  // descriptions are counted without their leading 32-bit size.
  const MVHD_SIZE: nat := 100
  const TKHD_SIZE: nat := 84
  const MDHD_SIZE: nat := 24
  const HDLR_SIZE: nat := 24
  const SOUND_V0_SIZE: nat := 32
  const SOUND_V1_SIZE: nat := 48
  const VIDEO_SIZE: nat := 82

  /** How deep below it the walk can still descend from a parent atom: it shrinks with every descent. */
  function Rank(parent: nat): nat
  {
    if parent == MOOV then 5 else if parent == TRAK then 4 else if parent == MDIA then 3 else if parent == MINF then 2 else 1
  }

  function U16(data: seq<byte>, at: nat): nat
    requires at + 2 <= |data|
  {
    BeValue(data[at..at + 2])
  }

  function U32(data: seq<byte>, at: nat): nat
    requires at + 4 <= |data|
  {
    BeValue(data[at..at + 4])
  }

  /** A part of the bytes read from `at` is the same part of the data. */
  lemma SubSlice(data: seq<byte>, at: nat, n: nat, i: nat, j: nat)
    requires at + n <= |data| && i <= j <= n
    ensures data[at..at + n][i..j] == data[at + i..at + j]
  {
    var part := data[at..at + n][i..j];
    assert forall k | 0 <= k < j - i :: part[k] == data[at + i + k];
  }

  /** The outcome of reading an atom's fixed part of n bytes at p: the atom must be large enough, and the data must hold it. */
  function StructStatus(data: seq<byte>, p: nat, atom: Atom, kind: nat, n: nat): Outcome<Mp4Error>
  {
    if atom.size - atom.hsize < n then Fail(AtomTooSmall(kind))
    else if p + n > |data| then Fail(ShortRead)
    else Pass
  }

  /** The track kind a media handler names: sound or video; any other handler leaves it as it is. */
  function KindOf(subtype: nat, kind: char): char
  {
    if subtype == SOUN then 'a' else if subtype == VIDE then 'v' else kind
  }

  // ---------------------------------------------------------------------
  // Table atoms: version and flags, a 32-bit entry count, then the
  // entries as 32-bit words.

  /** The words of a table atom whose payload starts at p, entries of `width` words. */
  function TableAt(data: seq<byte>, p: nat, width: nat): (r: Result<seq<nat>, Mp4Error>)
    ensures r.Ok? ==> p + 8 <= |data| && |r.value| == U32(data, p + 4) * width
    ensures r.Err? ==> r.error == ShortRead
  {
    var count :- Field(data, p + 4, 4);
    if count * width > 0 && p + 8 + 4 * (count * width) > |data| then Err(ShortRead)
    else Ok(WordsAt(data, p + 8, count * width))
  }

  /** The sample size atom at p: a size for all samples, or (when that is 0) one size per sample. */
  function SizeTableAt(data: seq<byte>, p: nat): (r: Result<(nat, seq<nat>), Mp4Error>)
    ensures r.Ok? ==> p + 12 <= |data| && r.value.0 == U32(data, p + 4)
    ensures r.Ok? && r.value.0 != 0 ==> r.value.1 == []
    ensures r.Ok? && r.value.0 == 0 ==> |r.value.1| == U32(data, p + 8)
    ensures r.Err? ==> r.error == ShortRead
  {
    var sampleSize :- Field(data, p + 4, 4);
    var count :- Field(data, p + 8, 4);
    if sampleSize != 0 then Ok((sampleSize, []))
    else if count > 0 && p + 12 + 4 * count > |data| then Err(ShortRead)
    else Ok((0, WordsAt(data, p + 12, count)))
  }

  // ---------------------------------------------------------------------
  // Sample descriptions ('stsd' entries).

  /** The FourCC a description leaves on the track: one set before (first byte not zero) stays. */
  function KeepFirstFourcc(current: seq<byte>, entry: seq<byte>): seq<byte>
  {
    if |current| > 0 && current[0] != 0 then current else entry
  }

  /** What a sound description whose fields start at e gives the track: codec (unless set), channels, bits per sample, rate, version. */
  function SoundFields(data: seq<byte>, e: nat, t: Track): (t1: Track)
    requires e + SOUND_V0_SIZE <= |data|
    requires U16(data, e + 12) == 1 ==> e + SOUND_V1_SIZE <= |data|
    ensures t1.kind == t.kind && t1.id == t.id
    ensures t1.fourcc == KeepFirstFourcc(t.fourcc, data[e..e + 4])
  {
    var version := U16(data, e + 12);
    t.(
      fourcc := KeepFirstFourcc(t.fourcc, data[e..e + 4]),
      aChannels := U16(data, e + 20), aBitdepth := U16(data, e + 22), aSampleRate := U32(data, e + 28),
      aVersion := version,
      aSamplesPerPacket := if version == 1 then U32(data, e + 32) else 0,
      aBytesPerFrame := if version == 1 then U32(data, e + 40) else 0)
  }

  /** The fields of a sound description taken from the bytes read for it. */
  lemma SoundFieldsRead(data: seq<byte>, e: nat, t: Track, v0: seq<byte>, spp: nat, bpf: nat)
    requires e + SOUND_V0_SIZE <= |data| && v0 == data[e..e + SOUND_V0_SIZE]
    requires var version := U16(data, e + 12);
      && (version == 1 ==> e + SOUND_V1_SIZE <= |data| && spp == U32(data, e + 32) && bpf == U32(data, e + 40))
      && (version != 1 ==> spp == 0 && bpf == 0)
    ensures SoundFields(data, e, t) == t.(
        fourcc := KeepFirstFourcc(t.fourcc, v0[0..4]),
        aChannels := BeValue(v0[20..22]), aBitdepth := BeValue(v0[22..24]), aSampleRate := BeValue(v0[28..32]),
        aVersion := BeValue(v0[12..14]), aSamplesPerPacket := spp, aBytesPerFrame := bpf)
  {
    SubSlice(data, e, SOUND_V0_SIZE, 0, 4);
    SubSlice(data, e, SOUND_V0_SIZE, 12, 14);
    SubSlice(data, e, SOUND_V0_SIZE, 20, 22);
    SubSlice(data, e, SOUND_V0_SIZE, 22, 24);
    SubSlice(data, e, SOUND_V0_SIZE, 28, 32);
  }

  /** The codec data behind the version 1 extension of a sound description whose fields start at e: a 32-bit size, 4 bytes, the data. */
  function SoundPriv(data: seq<byte>, e: nat, t: Track): (r: Result<Track, Mp4Error>)
    ensures r.Ok? ==> r.value == t.(aPriv := r.value.aPriv)
  {
    var privSize :- Field(data, e + SOUND_V1_SIZE, 4);
    var at := e + SOUND_V1_SIZE + 8;
    if privSize > 0 && at + privSize > |data| then Err(ShortRead)
    else Ok(t.(aPriv := Slice(data, at, privSize)))
  }

  /**
   * A sound description whose size field at pos reads `size`: at least the
   * version 0 part (and, for version 1, the extension) must be there; a
   * version 1 description longer than the extension carries codec data.
   */
  function SoundEntry(data: seq<byte>, pos: nat, size: nat, t: Track): (r: Result<Track, Mp4Error>)
    ensures r.Ok? ==> r.value.kind == t.kind && r.value.id == t.id
    ensures r.Ok? ==> pos + 4 + SOUND_V0_SIZE <= |data| && r.value.fourcc == KeepFirstFourcc(t.fourcc, data[pos + 4..pos + 8])
  {
    var e := pos + 4;
    if size < SOUND_V0_SIZE || e + SOUND_V0_SIZE > |data| then Err(SoundDescriptionUnreadable(t.id))
    else
      var version := U16(data, e + 12);
      if version == 1 && (size < SOUND_V1_SIZE || e + SOUND_V1_SIZE > |data|) then Err(ExtendedSoundDescriptionUnreadable(t.id))
      else if version == 1 && size > SOUND_V1_SIZE then SoundPriv(data, e, SoundFields(data, e, t))
      else Ok(SoundFields(data, e, t))
  }

  /** A video description: codec, width, height and depth, and the whole description (size field included) kept. */
  function VideoEntry(data: seq<byte>, pos: nat, size: nat, t: Track): (r: Result<Track, Mp4Error>)
    ensures r.Ok? ==> r.value.kind == t.kind && r.value.id == t.id
    ensures r.Ok? ==> pos + 4 + VIDEO_SIZE <= |data| && r.value.fourcc == KeepFirstFourcc(t.fourcc, data[pos + 4..pos + 8])
  {
    var e := pos + 4;
    if size < VIDEO_SIZE || e + VIDEO_SIZE > |data| then Err(VideoDescriptionUnreadable(t.id))
    else if pos + size > |data| then Err(ShortRead)
    else
      Ok(t.(
        fourcc := KeepFirstFourcc(t.fourcc, data[e..e + 4]),
        vWidth := U16(data, e + 28), vHeight := U16(data, e + 30), vBitdepth := U16(data, e + 78),
        vDesc := data[pos..pos + size]))
  }

  /** A video description built from the bytes read for it. */
  lemma VideoFieldsRead(data: seq<byte>, pos: nat, size: nat, t: Track, v: seq<byte>, desc: seq<byte>)
    requires VIDEO_SIZE <= size && pos + 4 + VIDEO_SIZE <= |data| && pos + size <= |data|
    requires v == data[pos + 4..pos + 4 + VIDEO_SIZE] && desc == data[pos..pos + size]
    ensures VideoEntry(data, pos, size, t) == Ok(t.(
        fourcc := KeepFirstFourcc(t.fourcc, v[0..4]),
        vWidth := BeValue(v[28..30]), vHeight := BeValue(v[30..32]), vBitdepth := BeValue(v[78..80]),
        vDesc := desc))
  {
    var e := pos + 4;
    SubSlice(data, e, VIDEO_SIZE, 0, 4);
    SubSlice(data, e, VIDEO_SIZE, 28, 30);
    SubSlice(data, e, VIDEO_SIZE, 30, 32);
    SubSlice(data, e, VIDEO_SIZE, 78, 80);
  }

  /** One description at pos, read as the track's kind asks; the next one starts where its size says. */
  function StsdEntry(data: seq<byte>, pos: nat, t: Track): (r: Result<(Track, nat), Mp4Error>)
    ensures r.Ok? ==> pos + 4 <= |data| && r.value.1 == pos + U32(data, pos)
  {
    var size :- Field(data, pos, 4);
    var t1 :-
      if t.kind == 'a' then SoundEntry(data, pos, size, t)
      else if t.kind == 'v' then VideoEntry(data, pos, size, t)
      else Ok(t);
    Ok((t1, pos + size))
  }

  /** n descriptions one after the other from pos. */
  function StsdEntries(data: seq<byte>, pos: nat, t: Track, n: nat): Result<(Track, nat), Mp4Error>
    decreases n
  {
    if n == 0 then Ok((t, pos))
    else
      var r :- StsdEntry(data, pos, t);
      StsdEntries(data, r.1, r.0, n - 1)
  }

  /** The first of n > 0 descriptions, then the rest. */
  lemma StsdEntriesStep(data: seq<byte>, pos: nat, t: Track, n: nat, r: Result<(Track, nat), Mp4Error>)
    requires n > 0 && r == StsdEntry(data, pos, t)
    ensures StsdEntries(data, pos, t, n) == if r.Err? then Err(r.error) else StsdEntries(data, r.value.1, r.value.0, n - 1)
  {
  }

  /** The descriptions leave the track's kind and number as they were. */
  lemma {:induction false} DescriptionsKeepKind(data: seq<byte>, pos: nat, t: Track, n: nat)
    requires StsdEntries(data, pos, t, n).Ok?
    ensures StsdEntries(data, pos, t, n).value.0.kind == t.kind
    ensures StsdEntries(data, pos, t, n).value.0.id == t.id
    decreases n
  {
    if n > 0 {
      var r := StsdEntry(data, pos, t).value;
      DescriptionsKeepKind(data, r.1, r.0, n - 1);
    }
  }

  /** Once a track has a FourCC (first byte not zero), later descriptions do not change it. */
  lemma {:induction false} FirstFourccStays(data: seq<byte>, pos: nat, t: Track, n: nat)
    requires |t.fourcc| > 0 && t.fourcc[0] != 0
    requires StsdEntries(data, pos, t, n).Ok?
    ensures StsdEntries(data, pos, t, n).value.0.fourcc == t.fourcc
    decreases n
  {
    if n > 0 {
      var r := StsdEntry(data, pos, t).value;
      assert r.0.fourcc == t.fourcc;
      FirstFourccStays(data, r.1, r.0, n - 1);
    }
  }

  /**
   * A sound or video track without a FourCC takes the one of its first
   * description, and keeps it through all later ones when its first byte
   * is not zero.
   */
  lemma FirstFourccWins(data: seq<byte>, pos: nat, t: Track, n: nat)
    requires t.kind == 'a' || t.kind == 'v'
    requires |t.fourcc| > 0 && t.fourcc[0] == 0 && n > 0
    requires StsdEntries(data, pos, t, n).Ok?
    ensures pos + 8 <= |data|
    ensures data[pos + 4] != 0 ==> StsdEntries(data, pos, t, n).value.0.fourcc == data[pos + 4..pos + 8]
  {
    var r := StsdEntry(data, pos, t).value;
    assert r.0.fourcc == data[pos + 4..pos + 8];
    if data[pos + 4] != 0 {
      FirstFourccStays(data, r.1, r.0, n - 1);
    }
  }

  // ---------------------------------------------------------------------
  // The shape of the walk.

  /** The atoms the walk of a parent met: each read where the one before it ends, while the parent's remaining size is positive. */
  ghost predicate Chain(data: seq<byte>, pos: nat, size: int, atoms: seq<Atom>)
  {
    Linked(pos, size, atoms) && forall i :: 0 <= i < |atoms| ==> AtomAt(data, atoms[i].pos) == Ok(atoms[i])
  }

  /** Each atom starts where the one before it ends, while the remaining size is positive. */
  ghost predicate Linked(pos: nat, size: int, atoms: seq<Atom>)
    decreases |atoms|
  {
    atoms == [] || (size > 0 && atoms[0].pos == pos && Linked(pos + atoms[0].size, size - atoms[0].size, atoms[1..]))
  }

  function SizeOf(atoms: seq<Atom>): nat
  {
    if atoms == [] then 0 else atoms[0].size + SizeOf(atoms[1..])
  }

  lemma {:induction false} SizeOfSnoc(atoms: seq<Atom>, a: Atom)
    ensures SizeOf(atoms + [a]) == SizeOf(atoms) + a.size
    decreases |atoms|
  {
    if atoms != [] {
      assert (atoms + [a])[1..] == atoms[1..] + [a];
      SizeOfSnoc(atoms[1..], a);
    }
  }

  lemma ChainSnoc(data: seq<byte>, pos: nat, size: int, atoms: seq<Atom>, a: Atom)
    requires Chain(data, pos, size, atoms)
    requires size - SizeOf(atoms) > 0 && AtomAt(data, pos + SizeOf(atoms)) == Ok(a)
    ensures Chain(data, pos, size, atoms + [a])
  {
    LinkedSnoc(pos, size, atoms, a);
    var next := atoms + [a];
    assert forall i :: 0 <= i < |atoms| ==> next[i] == atoms[i];
  }

  lemma {:induction false} LinkedSnoc(pos: nat, size: int, atoms: seq<Atom>, a: Atom)
    requires Linked(pos, size, atoms)
    requires size - SizeOf(atoms) > 0 && a.pos == pos + SizeOf(atoms)
    ensures Linked(pos, size, atoms + [a])
    decreases |atoms|
  {
    var next := atoms + [a];
    if atoms == [] {
      assert next[0] == a && next[1..] == [];
    } else {
      var head, rest := atoms[0], atoms[1..];
      assert next[0] == head && next[1..] == rest + [a];
      LinkedSnoc(pos + head.size, size - head.size, rest, a);
    }
  }

  /** The top-level atoms up to the media data: each where the one before ends, the last one 'mdat' and only the last. */
  ghost predicate TopLevel(data: seq<byte>, pos: nat, atoms: seq<Atom>)
    decreases |atoms|
  {
    && atoms != []
    && AtomAt(data, pos) == Ok(atoms[0])
    && (if atoms[0].kind == MDAT then |atoms| == 1 else TopLevel(data, pos + atoms[0].size, atoms[1..]))
  }

  /** The top-level atoms before the media data, from pos to end. */
  ghost predicate TopPrefix(data: seq<byte>, pos: nat, atoms: seq<Atom>, end: nat)
    decreases |atoms|
  {
    if atoms == [] then pos == end
    else AtomAt(data, pos) == Ok(atoms[0]) && atoms[0].kind != MDAT && TopPrefix(data, pos + atoms[0].size, atoms[1..], end)
  }

  lemma {:induction false} TopPrefixSnoc(data: seq<byte>, pos: nat, atoms: seq<Atom>, end: nat, a: Atom)
    requires TopPrefix(data, pos, atoms, end) && AtomAt(data, end) == Ok(a)
    ensures a.kind != MDAT ==> TopPrefix(data, pos, atoms + [a], end + a.size)
    ensures a.kind == MDAT ==> TopLevel(data, pos, atoms + [a])
    decreases |atoms|
  {
    var next := atoms + [a];
    if atoms == [] {
      assert pos == end && next[0] == a && next[1..] == [];
      assert a.kind != MDAT ==> TopPrefix(data, pos + a.size, next[1..], end + a.size);
    } else {
      var head, rest := atoms[0], atoms[1..];
      assert next[0] == head && next[1..] == rest + [a];
      assert AtomAt(data, pos) == Ok(head) && head.kind != MDAT && TopPrefix(data, pos + head.size, rest, end);
      TopPrefixSnoc(data, pos + head.size, rest, end, a);
      assert a.kind != MDAT ==> TopPrefix(data, pos + head.size, next[1..], end + a.size);
      assert a.kind == MDAT ==> TopLevel(data, pos + head.size, next[1..]);
    }
  }

  /**
   * Where src/r_mp4.cpp continues after a top-level atom other than 'mdat':
   * 'moov' and the atoms it knows to skip are skipped; the brands of 'ftyp'
   * are read word by word (all of them for a size below 16, where the
   * unsigned count wraps); any other atom is entered after its header.
   */
  function TopLevelNextAsWritten(data: seq<byte>, atom: Atom): Result<nat, Mp4Error>
  {
    var p := atom.pos + atom.hsize;
    if atom.kind == FTYP then
      if atom.size < 16 then Err(ShortRead)
      else
        var next := p + 8 + 4 * ((atom.size - 16) / 4);
        if next > |data| then Err(ShortRead) else Ok(next)
    else if atom.kind in {MOOV, WIDE, FREE, SKIP, JUNK, PNOT, PICT} then Ok(atom.pos + atom.size)
    else Ok(p)
  }

  /**
   * A file starting with a 24-byte atom of an unknown type ('uuid') whose
   * payload happens to look like an 8-byte 'mdat' header: as written the
   * reader continues inside the atom, at byte 8, and takes that for the
   * media data; skipping the atom by its size continues at byte 24.
   */
  lemma UnknownAtomEntered()
    ensures var d: seq<byte> := [0, 0, 0, 24, 0x75, 0x75, 0x69, 0x64, 0, 0, 0, 16, 0x6d, 0x64, 0x61, 0x74,
                                 0, 0, 0, 0, 0, 0, 0, 0];
      && AtomAt(d, 0) == Ok(Atom(0x75756964, 24, 0, 8))
      && TopLevelNextAsWritten(d, Atom(0x75756964, 24, 0, 8)) == Ok(8)
      && AtomAt(d, 8) == Ok(Atom(MDAT, 16, 8, 8))
  {
    var d: seq<byte> := [0, 0, 0, 24, 0x75, 0x75, 0x69, 0x64, 0, 0, 0, 16, 0x6d, 0x64, 0x61, 0x74,
                         0, 0, 0, 0, 0, 0, 0, 0];
    var uuid := Atom(0x75756964, 24, 0, 8);
    assert Field(d, 0, 4) == Ok(24) by {
      assert d[0..4] == [0, 0, 0, 24];
      BeValue4(0, 0, 0, 24);
    }
    assert Field(d, 4, 4) == Ok(0x75756964) by {
      assert d[4..8] == [0x75, 0x75, 0x69, 0x64];
      BeValue4(0x75, 0x75, 0x69, 0x64);
    }
    assert Field(d, 8, 4) == Ok(16) by {
      assert d[8..12] == [0, 0, 0, 16];
      BeValue4(0, 0, 0, 16);
    }
    assert Field(d, 12, 4) == Ok(MDAT) by {
      assert d[12..16] == [0x6d, 0x64, 0x61, 0x74];
      BeValue4(0x6d, 0x64, 0x61, 0x74);
    }
  }

  /** Whether the sync-sample table lists frame `frame`, searched entry by entry. */
  method FindKeyframe(keys: seq<nat>, frame: nat) returns (key: bool)
    ensures key == IsKeyframe(keys, frame)
  {
    if |keys| == 0 {
      return true;
    }
    key := false;
    var k := 0;
    while k < |keys|
      invariant 0 <= k <= |keys|
      invariant frame + 1 !in keys[..k]
    {
      if keys[k] == frame + 1 {
        return true;
      }
      k := k + 1;
    }
    assert keys[..k] == keys;
  }

  class Reader {
    const io: Stream
    /** The track whose 'trak' atom is being walked. */
    var newDmx: Track
    /** The tracks kept so far, in the order of their 'trak' atoms. */
    var demuxers: seq<Track>
    /** The algorithm of the last 'dcom' atom; 0 after a 'cmov' atom starts. */
    var compressionAlgorithm: nat
    var done: bool

    constructor(data: seq<byte>)
      ensures fresh(io) && io.data == data && io.cursor == 0
      ensures newDmx == NewTrack && demuxers == [] && compressionAlgorithm == 0 && !done
    {
      io := new Stream(data);
      newDmx := NewTrack;
      demuxers := [];
      compressionAlgorithm := 0;
      done := false;
    }

    ghost predicate TracksAdmitted()
      reads this
    {
      forall k :: 0 <= k < |demuxers| ==> Admitted(demuxers[k])
    }

    /** The atom header at the read position; the position ends up after the header. */
    method ReadAtom() returns (status: Outcome<Mp4Error>, atom: Atom)
      modifies io
      ensures var r := AtomAt(io.data, old(io.cursor));
        && (status.Pass? <==> r.Ok?)
        && (status.Fail? ==> status.error == r.error)
        && (status.Pass? ==> atom == r.value && io.cursor == atom.pos + atom.hsize)
    {
      var pos := io.cursor;
      var st, size32 := io.ReadBe(4);
      if st.Fail? {
        return st, Atom(0, 0, pos, 8);
      }
      var kind;
      if size32 == 1 {
        st, kind := io.ReadBe(4);
        if st.Fail? {
          return st, Atom(0, 0, pos, 8);
        }
        var large;
        st, large := io.ReadBe(8);
        if st.Fail? {
          return st, Atom(0, 0, pos, 8);
        }
        if large < 16 {
          return Fail(InvalidChunkSize(large, pos)), Atom(0, 0, pos, 8);
        }
        return Pass, Atom(kind, large, pos, 16);
      }
      var size: nat := if size32 == 0 then |io.data| - pos else size32;
      if size < 8 {
        return Fail(InvalidChunkSize(size, pos)), Atom(0, 0, pos, 8);
      }
      st, kind := io.ReadBe(4);
      if st.Fail? {
        return st, Atom(0, 0, pos, 8);
      }
      return Pass, Atom(kind, size, pos, 8);
    }

    /** The fixed part of n bytes of an atom whose payload starts at the read position. */
    method ReadStruct(atom: Atom, kind: nat, n: nat) returns (status: Outcome<Mp4Error>, bytes: seq<byte>)
      requires n > 0
      modifies io
      ensures status == StructStatus(io.data, old(io.cursor), atom, kind, n)
      ensures status.Pass? ==> bytes == io.data[old(io.cursor)..old(io.cursor) + n] && io.cursor == old(io.cursor) + n
    {
      if atom.size - atom.hsize < n {
        return Fail(AtomTooSmall(kind)), [];
      }
      status, bytes := io.ReadBytes(n);
    }

    method HandleMvhd(atom: Atom) returns (status: Outcome<Mp4Error>)
      modifies io
      ensures status == StructStatus(io.data, old(io.cursor), atom, MVHD, MVHD_SIZE)
    {
      var bytes;
      status, bytes := ReadStruct(atom, MVHD, MVHD_SIZE);
    }

    /** A track header names the track. */
    method HandleTkhd(atom: Atom) returns (status: Outcome<Mp4Error>)
      modifies this`newDmx, io
      ensures status == StructStatus(io.data, old(io.cursor), atom, TKHD, TKHD_SIZE)
      ensures status.Pass? ==> newDmx == old(newDmx).(id := U32(io.data, old(io.cursor) + 12))
      ensures status.Fail? ==> newDmx == old(newDmx)
    {
      var bytes;
      status, bytes := ReadStruct(atom, TKHD, TKHD_SIZE);
      if status.Pass? {
        SubSlice(io.data, old(io.cursor), TKHD_SIZE, 12, 16);
        newDmx := newDmx.(id := BeValue(bytes[12..16]));
      }
    }

    /** A media header gives the time scale and the duration. */
    method HandleMdhd(atom: Atom) returns (status: Outcome<Mp4Error>)
      modifies this`newDmx, io
      ensures status == StructStatus(io.data, old(io.cursor), atom, MDHD, MDHD_SIZE)
      ensures status.Pass? ==>
        newDmx == old(newDmx).(timescale := U32(io.data, old(io.cursor) + 12), globalDuration := U32(io.data, old(io.cursor) + 16))
      ensures status.Fail? ==> newDmx == old(newDmx)
    {
      var bytes;
      status, bytes := ReadStruct(atom, MDHD, MDHD_SIZE);
      if status.Pass? {
        SubSlice(io.data, old(io.cursor), MDHD_SIZE, 12, 16);
        SubSlice(io.data, old(io.cursor), MDHD_SIZE, 16, 20);
        newDmx := newDmx.(timescale := BeValue(bytes[12..16]), globalDuration := BeValue(bytes[16..20]));
      }
    }

    /** A handler atom; the one of the media atom (`names`) makes the track sound or video. */
    method HandleHdlr(atom: Atom, names: bool) returns (status: Outcome<Mp4Error>)
      modifies this`newDmx, io
      ensures status == StructStatus(io.data, old(io.cursor), atom, HDLR, HDLR_SIZE)
      ensures status.Pass? && names ==> newDmx == old(newDmx).(kind := KindOf(U32(io.data, old(io.cursor) + 8), old(newDmx).kind))
      ensures status.Fail? || !names ==> newDmx == old(newDmx)
    {
      var bytes;
      status, bytes := ReadStruct(atom, HDLR, HDLR_SIZE);
      if status.Pass? && names {
        SubSlice(io.data, old(io.cursor), HDLR_SIZE, 8, 12);
        newDmx := newDmx.(kind := KindOf(BeValue(bytes[8..12]), newDmx.kind));
      }
    }

    /** The entries of a table atom whose payload starts at the read position. */
    method ReadTable(width: nat) returns (status: Outcome<Mp4Error>, words: seq<nat>)
      modifies io
      ensures var r := TableAt(io.data, old(io.cursor), width);
        && (status.Pass? <==> r.Ok?)
        && (status.Fail? ==> status.error == ShortRead)
        && (r.Ok? ==> words == r.value)
    {
      io.Skip(4);
      var count;
      status, count := io.ReadBe(4);
      if status.Fail? {
        return status, [];
      }
      status, words := io.ReadWords(count * width);
    }

    method HandleStts() returns (status: Outcome<Mp4Error>)
      modifies this`newDmx, io
      ensures var r := TableAt(io.data, old(io.cursor), 2);
        && (status.Pass? <==> r.Ok?)
        && (status.Fail? ==> status.error == ShortRead && newDmx == old(newDmx))
        && (r.Ok? ==> |r.value| % 2 == 0 && newDmx == old(newDmx).(durmap := DurMapOf(r.value)))
    {
      var words;
      status, words := ReadTable(2);
      if status.Pass? {
        newDmx := newDmx.(durmap := DurMapOf(words));
      }
    }

    method HandleStss() returns (status: Outcome<Mp4Error>)
      modifies this`newDmx, io
      ensures var r := TableAt(io.data, old(io.cursor), 1);
        && (status.Pass? <==> r.Ok?)
        && (status.Fail? ==> status.error == ShortRead && newDmx == old(newDmx))
        && (r.Ok? ==> newDmx == old(newDmx).(keyframes := r.value))
    {
      var words;
      status, words := ReadTable(1);
      if status.Pass? {
        newDmx := newDmx.(keyframes := words);
      }
    }

    method HandleStsc() returns (status: Outcome<Mp4Error>)
      modifies this`newDmx, io
      ensures var r := TableAt(io.data, old(io.cursor), 3);
        && (status.Pass? <==> r.Ok?)
        && (status.Fail? ==> status.error == ShortRead && newDmx == old(newDmx))
        && (r.Ok? ==> |r.value| % 3 == 0 && newDmx == old(newDmx).(chunkmap := ChunkMapOf(r.value)))
    {
      var words;
      status, words := ReadTable(3);
      if status.Pass? {
        newDmx := newDmx.(chunkmap := ChunkMapOf(words));
      }
    }

    method HandleStco() returns (status: Outcome<Mp4Error>)
      modifies this`newDmx, io
      ensures var r := TableAt(io.data, old(io.cursor), 1);
        && (status.Pass? <==> r.Ok?)
        && (status.Fail? ==> status.error == ShortRead && newDmx == old(newDmx))
        && (r.Ok? ==> newDmx == old(newDmx).(chunks := ChunksOf(r.value)))
    {
      var words;
      status, words := ReadTable(1);
      if status.Pass? {
        newDmx := newDmx.(chunks := ChunksOf(words));
      }
    }

    /** The sample sizes: one size for all samples, or a table of them. */
    method HandleStsz() returns (status: Outcome<Mp4Error>)
      modifies this`newDmx, io
      ensures var r := SizeTableAt(io.data, old(io.cursor));
        && (status.Pass? <==> r.Ok?)
        && (status.Fail? ==> status.error == ShortRead && newDmx == old(newDmx))
        && (r.Ok? && r.value.0 != 0 ==> newDmx == old(newDmx).(sampleSize := r.value.0))
        && (r.Ok? && r.value.0 == 0 ==> newDmx == old(newDmx).(samples := SamplesOf(r.value.1)))
    {
      io.Skip(4);
      var sampleSize, count;
      status, sampleSize := io.ReadBe(4);
      if status.Fail? {
        return;
      }
      status, count := io.ReadBe(4);
      if status.Fail? {
        return;
      }
      if sampleSize == 0 {
        var words;
        status, words := io.ReadWords(count);
        if status.Pass? {
          newDmx := newDmx.(samples := SamplesOf(words));
        }
      } else {
        newDmx := newDmx.(sampleSize := sampleSize);
      }
    }

    /** One sample description, at the read position. */
    method HandleStsdEntry() returns (status: Outcome<Mp4Error>)
      modifies this`newDmx, io
      ensures var r := StsdEntry(io.data, old(io.cursor), old(newDmx));
        && (status.Pass? <==> r.Ok?)
        && (status.Fail? ==> status.error == r.error)
        && (r.Ok? ==> newDmx == r.value.0 && io.cursor == r.value.1)
    {
      var pos := io.cursor;
      var size;
      status, size := io.ReadBe(4);
      if status.Fail? {
        return;
      }
      var t := newDmx;
      if t.kind == 'a' {
        var r := SoundEntryAt(pos, size, t);
        if r.Err? {
          return Fail(r.error);
        }
        newDmx := r.value;
      } else if t.kind == 'v' {
        var r := VideoEntryAt(pos, size, t);
        if r.Err? {
          return Fail(r.error);
        }
        newDmx := r.value;
      }
      io.Seek(pos + size);
    }

    /** Reading a sound description from just after its size field at pos. */
    method SoundEntryAt(pos: nat, size: nat, t: Track) returns (r: Result<Track, Mp4Error>)
      requires io.cursor == pos + 4
      modifies io
      ensures r == SoundEntry(io.data, pos, size, t)
    {
      if size < SOUND_V0_SIZE {
        return Err(SoundDescriptionUnreadable(t.id));
      }
      var e := pos + 4;
      var st, v0 := io.ReadBytes(SOUND_V0_SIZE);
      if st.Fail? {
        return Err(SoundDescriptionUnreadable(t.id));
      }
      SubSlice(io.data, e, SOUND_V0_SIZE, 12, 14);
      var version := BeValue(v0[12..14]);
      if version == 1 && size < SOUND_V1_SIZE {
        return Err(ExtendedSoundDescriptionUnreadable(t.id));
      }
      var spp, bpf;
      st, spp, bpf := SoundExtensionAt(e, version);
      if st.Fail? {
        return Err(ExtendedSoundDescriptionUnreadable(t.id));
      }
      var t1 := t.(
        fourcc := KeepFirstFourcc(t.fourcc, v0[0..4]),
        aChannels := BeValue(v0[20..22]), aBitdepth := BeValue(v0[22..24]), aSampleRate := BeValue(v0[28..32]),
        aVersion := version, aSamplesPerPacket := spp, aBytesPerFrame := bpf);
      SoundFieldsRead(io.data, e, t, v0, spp, bpf);
      assert t1 == SoundFields(io.data, e, t);
      if version == 1 && size > SOUND_V1_SIZE {
        r := SoundPrivAt(e, t1);
      } else {
        r := Ok(t1);
      }
    }

    /** The version 1 extension of a sound description, read when the version asks for it. */
    method SoundExtensionAt(e: nat, version: nat) returns (status: Outcome<Mp4Error>, spp: nat, bpf: nat)
      requires io.cursor == e + SOUND_V0_SIZE
      modifies io
      ensures version != 1 ==> status.Pass? && spp == 0 && bpf == 0
      ensures version == 1 ==> (status.Pass? <==> e + SOUND_V1_SIZE <= |io.data|)
      ensures version == 1 && status.Pass? ==> spp == U32(io.data, e + 32) && bpf == U32(io.data, e + 40)
    {
      if version != 1 {
        return Pass, 0, 0;
      }
      var v1;
      status, v1 := io.ReadBytes(SOUND_V1_SIZE - SOUND_V0_SIZE);
      if status.Fail? {
        return status, 0, 0;
      }
      SubSlice(io.data, e + SOUND_V0_SIZE, SOUND_V1_SIZE - SOUND_V0_SIZE, 0, 4);
      SubSlice(io.data, e + SOUND_V0_SIZE, SOUND_V1_SIZE - SOUND_V0_SIZE, 8, 12);
      spp, bpf := BeValue(v1[0..4]), BeValue(v1[8..12]);
    }

    /** The codec data of a version 1 sound description whose fields start at e. */
    method SoundPrivAt(e: nat, t: Track) returns (r: Result<Track, Mp4Error>)
      modifies io
      ensures r == SoundPriv(io.data, e, t)
    {
      io.Seek(e + SOUND_V1_SIZE);
      var st, privSize := io.ReadBe(4);
      if st.Fail? {
        return Err(ShortRead);
      }
      io.Skip(4);
      var priv;
      st, priv := io.ReadBytes(privSize);
      if st.Fail? {
        return Err(ShortRead);
      }
      return Ok(t.(aPriv := priv));
    }

    /** Reading a video description from just after its size field at pos. */
    method VideoEntryAt(pos: nat, size: nat, t: Track) returns (r: Result<Track, Mp4Error>)
      requires io.cursor == pos + 4
      modifies io
      ensures r == VideoEntry(io.data, pos, size, t)
    {
      if size < VIDEO_SIZE {
        return Err(VideoDescriptionUnreadable(t.id));
      }
      var st, v := io.ReadBytes(VIDEO_SIZE);
      if st.Fail? {
        return Err(VideoDescriptionUnreadable(t.id));
      }
      var e := pos + 4;
      io.Seek(pos);
      var desc;
      st, desc := io.ReadBytes(size);
      if st.Fail? {
        return Err(ShortRead);
      }
      r := Ok(t.(
        fourcc := KeepFirstFourcc(t.fourcc, v[0..4]),
        vWidth := BeValue(v[28..30]), vHeight := BeValue(v[30..32]), vBitdepth := BeValue(v[78..80]),
        vDesc := desc));
      VideoFieldsRead(io.data, pos, size, t, v, desc);
    }

    /** The sample descriptions: a count, then the descriptions one after the other. */
    method HandleStsd() returns (status: Outcome<Mp4Error>)
      modifies this`newDmx, io
      ensures status.Pass? ==>
        && old(io.cursor) + 8 <= |io.data|
        && var r := StsdEntries(io.data, old(io.cursor) + 8, old(newDmx), U32(io.data, old(io.cursor) + 4));
        r.Ok? && newDmx == r.value.0 && io.cursor == r.value.1
      ensures status.Fail? && old(io.cursor) + 8 <= |io.data| ==>
        var r := StsdEntries(io.data, old(io.cursor) + 8, old(newDmx), U32(io.data, old(io.cursor) + 4));
        r.Err? && status.error == r.error
    {
      io.Skip(4);
      var count;
      status, count := io.ReadBe(4);
      if status.Fail? {
        return;
      }
      assert count == U32(io.data, old(io.cursor) + 4);
      ghost var goal := StsdEntries(io.data, io.cursor, newDmx, count);
      var i := 0;
      while i < count
        invariant 0 <= i <= count && status.Pass?
        invariant StsdEntries(io.data, io.cursor, newDmx, count - i) == goal
      {
        ghost var r := StsdEntry(io.data, io.cursor, newDmx);
        StsdEntriesStep(io.data, io.cursor, newDmx, count - i, r);
        status := HandleStsdEntry();
        if status.Fail? {
          return;
        }
        i := i + 1;
      }
    }

    /** The compression algorithm of compressed headers. */
    method HandleDcom() returns (status: Outcome<Mp4Error>)
      modifies this`compressionAlgorithm, io
      ensures status.Pass? <==> old(io.cursor) + 4 <= |io.data|
      ensures status.Pass? ==> compressionAlgorithm == U32(io.data, old(io.cursor))
      ensures status.Fail? ==> status.error == ShortRead
    {
      var algo;
      status, algo := io.ReadBe(4);
      if status.Pass? {
        compressionAlgorithm := algo;
      }
    }

    /**
     * Compressed headers: the uncompressed size, then (for zlib only) the
     * compressed bytes, counted from after that size over the atom's
     * payload length truncated to 32 bits.
     */
    method HandleCmvd(atom: Atom) returns (status: Outcome<Mp4Error>)
      modifies io
      ensures var p := old(io.cursor);
        status == if p + 4 > |io.data| then Fail(ShortRead)
        else if compressionAlgorithm != ZLIB then Fail(UnsupportedCompression(compressionAlgorithm))
        else
          var n := (atom.size - atom.hsize) % U32_LIMIT;
          if n > 0 && p + 4 + n > |io.data| then Fail(ShortRead) else Pass
    {
      var moovSize;
      status, moovSize := io.ReadBe(4);
      if status.Fail? {
        return;
      }
      if compressionAlgorithm != ZLIB {
        return Fail(UnsupportedCompression(compressionAlgorithm));
      }
      var compressed;
      status, compressed := io.ReadBytes((atom.size - atom.hsize) % U32_LIMIT);
    }

    /**
     * The atoms inside a parent whose payload of parentSize bytes starts at
     * the read position parentPos: each child is handled as the parent
     * asks, then skipped by its own size; the walk ends at the end of the
     * parent's payload. Only 'moov' adds tracks, and only admitted ones.
     */
    method HandleHeaderAtoms(parent: nat, parentSize: nat, parentPos: nat) returns (status: Outcome<Mp4Error>, ghost children: seq<Atom>)
      requires io.cursor == parentPos && TracksAdmitted()
      modifies this, io
      ensures TracksAdmitted() && old(demuxers) <= demuxers
      ensures parent != MOOV ==> demuxers == old(demuxers)
      ensures status.Pass? ==>
        && io.cursor == parentPos + parentSize
        && Chain(io.data, parentPos, parentSize, children) && parentSize <= SizeOf(children)
      decreases Rank(parent), 2
    {
      var remaining: int := parentSize;
      children := [];
      while remaining > 0
        invariant TracksAdmitted() && old(demuxers) <= demuxers
        invariant parent != MOOV ==> demuxers == old(demuxers)
        invariant Chain(io.data, parentPos, parentSize, children)
        invariant io.cursor == parentPos + SizeOf(children) && remaining == parentSize - SizeOf(children)
        decreases remaining
      {
        var atom;
        status, atom := ReadAtom();
        if status.Fail? {
          return;
        }
        ChainSnoc(io.data, parentPos, parentSize, children, atom);
        SizeOfSnoc(children, atom);
        children := children + [atom];
        status := HandleChild(parent, atom);
        if status.Fail? {
          return;
        }
        io.Seek(atom.pos + atom.size);
        remaining := remaining - atom.size;
      }
      io.Seek(parentPos + parentSize);
      status := Pass;
    }

    /** One child atom, whose payload starts at the read position, handled as its parent asks; other atoms are passed over. */
    method HandleChild(parent: nat, atom: Atom) returns (status: Outcome<Mp4Error>)
      requires io.cursor == atom.pos + atom.hsize && atom.size >= atom.hsize && TracksAdmitted()
      modifies this, io
      ensures TracksAdmitted() && old(demuxers) <= demuxers
      ensures parent != MOOV ==> demuxers == old(demuxers)
      decreases Rank(parent), 1
    {
      status := Pass;
      if parent == MOOV {
        status := HandleMoovChild(atom);
      } else if parent == TRAK {
        if atom.kind == TKHD {
          status := HandleTkhd(atom);
        } else if atom.kind == MDIA {
          ghost var kids;
          status, kids := HandleHeaderAtoms(MDIA, atom.size - atom.hsize, atom.pos + atom.hsize);
        }
      } else if parent == MDIA {
        if atom.kind == MDHD {
          status := HandleMdhd(atom);
        } else if atom.kind == HDLR {
          status := HandleHdlr(atom, true);
        } else if atom.kind == MINF {
          ghost var kids;
          status, kids := HandleHeaderAtoms(MINF, atom.size - atom.hsize, atom.pos + atom.hsize);
        }
      } else if parent == MINF {
        if atom.kind == HDLR {
          status := HandleHdlr(atom, false);
        } else if atom.kind == STBL {
          ghost var kids;
          status, kids := HandleHeaderAtoms(STBL, atom.size - atom.hsize, atom.pos + atom.hsize);
        }
      } else if parent == STBL {
        status := HandleSampleTable(atom);
      } else if parent == CMOV {
        if atom.kind == DCOM {
          status := HandleDcom();
        } else if atom.kind == CMVD {
          status := HandleCmvd(atom);
        }
      }
    }

    /** The children of 'moov': compressed headers, the movie header, and the tracks. */
    method HandleMoovChild(atom: Atom) returns (status: Outcome<Mp4Error>)
      requires io.cursor == atom.pos + atom.hsize && atom.size >= atom.hsize && TracksAdmitted()
      modifies this, io
      ensures TracksAdmitted() && old(demuxers) <= demuxers
      ensures atom.kind != TRAK ==> demuxers == old(demuxers)
      ensures status.Pass? && atom.kind == TRAK ==>
        demuxers == old(demuxers) + (if Admitted(newDmx) then [newDmx] else [])
      decreases Rank(MOOV), 0
    {
      status := Pass;
      if atom.kind == CMOV {
        compressionAlgorithm := 0;
        ghost var kids;
        status, kids := HandleHeaderAtoms(CMOV, atom.size - atom.hsize, atom.pos + atom.hsize);
      } else if atom.kind == MVHD {
        status := HandleMvhd(atom);
      } else if atom.kind == TRAK {
        newDmx := NewTrack;
        ghost var kids;
        status, kids := HandleHeaderAtoms(TRAK, atom.size - atom.hsize, atom.pos + atom.hsize);
        if status.Pass? && Admitted(newDmx) {
          demuxers := demuxers + [newDmx];
        }
      }
    }

    /**
     * The children of 'stbl': each of the six tables goes to its handler,
     * with that handler's effect on the track being built; any other child
     * leaves the track and the read position alone.
     */
    method HandleSampleTable(atom: Atom) returns (status: Outcome<Mp4Error>)
      modifies this`newDmx, io
      ensures atom.kind !in {STTS, STSD, STSS, STSC, STSZ, STCO} ==>
        status.Pass? && newDmx == old(newDmx) && io.cursor == old(io.cursor)
      ensures atom.kind == STTS ==> var r := TableAt(io.data, old(io.cursor), 2);
        && (status.Pass? <==> r.Ok?)
        && newDmx == if r.Ok? then old(newDmx).(durmap := DurMapOf(r.value)) else old(newDmx)
      ensures atom.kind == STSS ==> var r := TableAt(io.data, old(io.cursor), 1);
        && (status.Pass? <==> r.Ok?)
        && newDmx == if r.Ok? then old(newDmx).(keyframes := r.value) else old(newDmx)
      ensures atom.kind == STSC ==> var r := TableAt(io.data, old(io.cursor), 3);
        && (status.Pass? <==> r.Ok?)
        && newDmx == if r.Ok? then old(newDmx).(chunkmap := ChunkMapOf(r.value)) else old(newDmx)
      ensures atom.kind == STCO ==> var r := TableAt(io.data, old(io.cursor), 1);
        && (status.Pass? <==> r.Ok?)
        && newDmx == if r.Ok? then old(newDmx).(chunks := ChunksOf(r.value)) else old(newDmx)
      ensures atom.kind == STSZ ==> var r := SizeTableAt(io.data, old(io.cursor));
        && (status.Pass? <==> r.Ok?)
        && newDmx == if r.Err? then old(newDmx)
                     else if r.value.0 != 0 then old(newDmx).(sampleSize := r.value.0)
                     else old(newDmx).(samples := SamplesOf(r.value.1))
      ensures atom.kind == STSD && status.Pass? ==>
        && old(io.cursor) + 8 <= |io.data|
        && var r := StsdEntries(io.data, old(io.cursor) + 8, old(newDmx), U32(io.data, old(io.cursor) + 4));
        r.Ok? && newDmx == r.value.0 && io.cursor == r.value.1
    {
      status := Pass;
      if atom.kind == STTS {
        status := HandleStts();
      } else if atom.kind == STSD {
        status := HandleStsd();
      } else if atom.kind == STSS {
        status := HandleStss();
      } else if atom.kind == STSC {
        status := HandleStsc();
      } else if atom.kind == STSZ {
        status := HandleStsz();
      } else if atom.kind == STCO {
        status := HandleStco();
      }
    }

    /**
     * The headers from the start of the file up to the first 'mdat' atom:
     * every top-level atom is skipped by its size, 'moov' after its walk.
     * Then every kept track is finished: an unsupported or incomplete
     * track stays in the list, not ready for reading, and only a track of
     * constant sample size whose durations vary stops the reader.
     */
    method ParseHeaders() returns (status: Outcome<Mp4Error>, ghost top: seq<Atom>, ghost walked: seq<Track>)
      requires TracksAdmitted()
      modifies this, io
      ensures status.Pass? ==>
        && TopLevel(io.data, 0, top)
        && |walked| == |demuxers|
        && forall k :: 0 <= k < |walked| ==> Admitted(walked[k]) && FinishTrack(walked[k]) == Ok(demuxers[k])
    {
      walked := [];
      status, top := WalkTopLevel();
      if status.Fail? {
        return;
      }
      status, walked := FinishTracks();
    }

    /**
     * The top-level atoms from the start of the file up to the first mdat
     * (or the end of the data): moov is walked, everything is skipped by
     * its size.
     */
    method WalkTopLevel() returns (status: Outcome<Mp4Error>, ghost top: seq<Atom>)
      requires TracksAdmitted()
      modifies this, io
      ensures TracksAdmitted()
      ensures status.Pass? ==> TopLevel(io.data, 0, top)
    {
      io.Seek(0);
      top := [];
      var parsed := false;
      while !parsed
        invariant TracksAdmitted()
        invariant !parsed ==> TopPrefix(io.data, 0, top, io.cursor)
        invariant parsed ==> TopLevel(io.data, 0, top)
        decreases if io.cursor <= |io.data| then |io.data| - io.cursor + 1 else 0, !parsed
      {
        var atom;
        ghost var at := io.cursor;
        status, atom := TopLevelStep();
        if status.Fail? {
          return;
        }
        assert atom.pos == at;
        TopPrefixSnoc(io.data, 0, top, at, atom);
        top := top + [atom];
        parsed := atom.kind == MDAT;
      }
      status := Pass;
    }

    /**
     * One top-level atom: its header is read; 'moov' is walked; the read
     * position then moves to the next atom, unless this one is 'mdat'.
     */
    method TopLevelStep() returns (status: Outcome<Mp4Error>, atom: Atom)
      requires TracksAdmitted()
      modifies this, io
      ensures TracksAdmitted()
      ensures status.Pass? ==> AtomAt(io.data, old(io.cursor)) == Ok(atom) && old(io.cursor) < io.cursor
      ensures status.Pass? && atom.kind != MDAT ==> io.cursor == atom.pos + atom.size
    {
      status, atom := ReadAtom();
      if status.Fail? || atom.kind == MDAT {
        return;
      }
      if atom.kind == MOOV {
        ghost var kids;
        status, kids := HandleHeaderAtoms(MOOV, atom.size - atom.hsize, atom.pos + atom.hsize);
        if status.Fail? {
          return;
        }
      }
      io.Seek(atom.pos + atom.size);
    }

    /** Each accepted track's tables are checked and expanded, in order; the first refusal stops the reader. */
    method FinishTracks() returns (status: Outcome<Mp4Error>, ghost walked: seq<Track>)
      requires TracksAdmitted()
      modifies this`demuxers
      ensures status.Pass? ==>
        && |walked| == |demuxers|
        && forall k :: 0 <= k < |walked| ==> Admitted(walked[k]) && FinishTrack(walked[k]) == Ok(demuxers[k])
    {
      walked := demuxers;
      var i := 0;
      while i < |demuxers|
        invariant 0 <= i <= |demuxers| == |walked|
        invariant forall k :: 0 <= k < |walked| ==> Admitted(walked[k])
        invariant forall k :: 0 <= k < i ==> FinishTrack(walked[k]) == Ok(demuxers[k])
        invariant forall k :: i <= k < |demuxers| ==> demuxers[k] == walked[k]
      {
        var r := Finish(demuxers[i]);
        if r.Err? {
          return Fail(r.error), walked;
        }
        demuxers := demuxers[i := r.value];
        i := i + 1;
      }
      status := Pass;
    }

    /**
     * One read request for track `index`: nothing once the reader is done
     * or for a track that was not accepted; otherwise the track's next
     * sample or chunk, as ReadTrack describes it.
     */
    method Read(index: nat) returns (status: Outcome<Mp4Error>, more: bool, packet: Option<Packet>)
      modifies this`demuxers, this`done, io
      ensures old(done) || index >= |old(demuxers)| || !old(demuxers)[index].ok ==>
        status == Pass && !more && packet == None && demuxers == old(demuxers) && done == old(done)
      ensures !old(done) && index < |old(demuxers)| && old(demuxers)[index].ok ==>
        var r := ReadTrack(io.data, old(demuxers)[index]);
        && (status.Pass? <==> r.Ok?)
        && (status.Fail? ==> status.error == r.error)
        && (r.Ok? ==>
              && demuxers == old(demuxers)[index := r.value.track]
              && packet == r.value.packet && done == r.value.done
              && more == (packet.Some? && !done))
    {
      if done || index >= |demuxers| || !demuxers[index].ok {
        return Pass, false, None;
      }
      var t := demuxers[index];
      var step: Step;
      if t.sampleSize != 0 {
        if t.pos >= |t.chunks| {
          return Pass, false, None;
        }
        status, step := ReadChunkOf(t);
      } else {
        if t.pos >= |t.samples| {
          return Pass, false, None;
        }
        status, step := ReadSampleOf(t);
      }
      if status.Fail? {
        return status, false, None;
      }
      demuxers := demuxers[index := step.track];
      done := step.done;
      packet := step.packet;
      more := packet.Some? && !done;
    }

    /** The next sample of a track with a sample table. */
    method ReadSampleOf(t: Track) returns (status: Outcome<Mp4Error>, step: Step)
      requires t.pos < |t.samples|
      modifies io
      ensures var r := ReadSample(io.data, t);
        && (status.Pass? <==> r.Ok?)
        && (status.Fail? ==> status.error == r.error)
        && (r.Ok? ==> step == r.value)
    {
      if t.timescale == 0 {
        return Fail(DivisionByZero), Step(t, None, false);
      }
      var f := t.pos;
      var timecode := t.samples[f].pts * 1000 / t.timescale;
      var duration: int;
      if f + 1 < |t.samples| {
        duration := t.samples[f + 1].pts * 1000 / t.timescale - timecode;
      } else {
        duration := t.avgDuration;
      }
      var t1 := t.(avgDuration := RunningAverage(t.avgDuration, f, duration));
      var key := FindKeyframe(t.keyframes, f);
      io.Seek(t.samples[f].pos);
      var st, bytes := io.ReadBytes(t.samples[f].size);
      if st.Fail? {
        return Pass, Step(t1, None, true);
      }
      step := Step(t1.(pos := f + 1), Some(Packet(bytes, timecode, duration, key)), f + 1 >= |t.samples|);
      status := Pass;
    }

    /** The next chunk of a track of constant sample size. */
    method ReadChunkOf(t: Track) returns (status: Outcome<Mp4Error>, step: Step)
      requires t.pos < |t.chunks|
      modifies io
      ensures var r := ReadChunk(io.data, t);
        && (status.Pass? <==> r.Ok?)
        && (status.Fail? ==> status.error == r.error)
        && (r.Ok? ==> step == r.value)
    {
      if t.timescale == 0 || (t.kind == 'a' && t.aVersion == 1 && t.aSamplesPerPacket == 0) {
        return Fail(DivisionByZero), Step(t, None, false);
      }
      var c := t.pos;
      io.Seek(t.chunks[c].pos);
      var timecode := ChunkTime(t, c);
      var frameSize: nat;
      if t.sampleSize != 1 {
        frameSize := (t.chunks[c].size * t.sampleSize) % U32_LIMIT;
      } else {
        frameSize := t.chunks[c].size;
      }
      if t.kind == 'a' {
        if t.aVersion == 1 {
          frameSize := ((frameSize * t.aBytesPerFrame) % U32_LIMIT) / t.aSamplesPerPacket;
        } else {
          frameSize := ((frameSize * t.aChannels * t.aBitdepth) % U32_LIMIT) / 8;
        }
      }
      assert frameSize == ChunkBytes(t, c, t.aBitdepth);
      var key := FindKeyframe(t.keyframes, c);
      var st, bytes := io.ReadBytes(frameSize);
      if st.Fail? {
        return Pass, Step(t, None, true);
      }
      var duration := ChunkDuration(t, c);
      var t1 := t.(pos := c + 1, avgDuration := RunningAverage(t.avgDuration, c, duration));
      step := Step(t1, Some(Packet(bytes, Signed64(timecode), duration, key)), c + 1 >= |t.chunks|);
      status := Pass;
    }
  }
}
