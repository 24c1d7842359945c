/**
 * QuickTime/MP4 atoms ("boxes" in ISO/IEC 14496-12): the four-character
 * codes the reader dispatches on, the errors that stop it, and the atom
 * header of section 4.2 of ISO/IEC 14496-12 — a 32-bit size and a 32-bit
 * type, followed by a 64-bit "largesize" when the 32-bit size is 1; a
 * 32-bit size of 0 means the atom runs to the end of the file.
 */
module Mp4Atoms {

  import opened Wrappers
  import opened Bytes

  // Four-character codes, as the big-endian value of their ASCII letters.
  const FTYP: nat := 0x66747970
  const MOOV: nat := 0x6d6f6f76
  const WIDE: nat := 0x77696465
  const MDAT: nat := 0x6d646174
  const FREE: nat := 0x66726565
  const SKIP: nat := 0x736b6970
  const JUNK: nat := 0x6a756e6b
  const PNOT: nat := 0x706e6f74
  const PICT: nat := 0x50494354
  const CMOV: nat := 0x636d6f76
  const MVHD: nat := 0x6d766864
  const TRAK: nat := 0x7472616b
  const TKHD: nat := 0x746b6864
  const MDIA: nat := 0x6d646961
  const MDHD: nat := 0x6d646864
  const HDLR: nat := 0x68646c72
  const MINF: nat := 0x6d696e66
  const STBL: nat := 0x7374626c
  const STTS: nat := 0x73747473
  const STSD: nat := 0x73747364
  const STSS: nat := 0x73747373
  const STSC: nat := 0x73747363
  const STSZ: nat := 0x7374737a
  const STCO: nat := 0x7374636f
  const DCOM: nat := 0x64636f6d
  const CMVD: nat := 0x636d7664
  const SOUN: nat := 0x736f756e
  const VIDE: nat := 0x76696465
  const ZLIB: nat := 0x7a6c6962

  const U64_LIMIT: nat := 0x1_0000_0000_0000_0000

  /** What stops the reader: a read past the end of the data, a fatal error it reports, or a division by zero that ends the process. */
  datatype Mp4Error =
    | ShortRead
    | InvalidChunkSize(size: nat, pos: nat)
    | AtomTooSmall(kind: nat)
    | SoundDescriptionUnreadable(track: nat)
    | ExtendedSoundDescriptionUnreadable(track: nat)
    | VideoDescriptionUnreadable(track: nat)
    | UnsupportedCompression(algorithm: nat)
    | ConstantSizeVariableDuration
    | DivisionByZero

  /** An atom header: type, total size (header included), position and header length. */
  datatype Atom = Atom(kind: nat, size: nat, pos: nat, hsize: nat)

  /** An unsigned big-endian field of the data, or a short read. */
  function Field(data: seq<byte>, at: nat, n: nat): (r: Result<nat, Mp4Error>)
    ensures r.Ok? <==> at + n <= |data|
    ensures r.Ok? ==> r.value == BeValue(data[at..at + n]) && r.value < Pow256(n)
    ensures r.Err? ==> r.error == ShortRead
  {
    match BeAt(data, at, n)
    case Some(v) => Ok(v)
    case None => Err(ShortRead)
  }

  /**
   * The atom header at pos: a 32-bit size and the type; a size of 1 is
   * followed by the 64-bit size, which then counts a 16-byte header; a size
   * of 0 stands for the rest of the file. A size smaller than the header is
   * fatal.
   */
  function AtomAt(data: seq<byte>, pos: nat): (r: Result<Atom, Mp4Error>)
    ensures r.Ok? ==>
      && r.value.pos == pos && r.value.size >= r.value.hsize >= 8 && pos + r.value.hsize <= |data|
      && r.value.hsize == (if BeValue(data[pos..pos + 4]) == 1 then 16 else 8)
  {
    var size32 :- Field(data, pos, 4);
    if size32 == 1 then
      var large :- Field(data, pos + 8, 8);
      if large < 16 then Err(InvalidChunkSize(large, pos))
      else
        var kind :- Field(data, pos + 4, 4);
        Ok(Atom(kind, large, pos, 16))
    else
      var size := if size32 == 0 then |data| - pos else size32;
      if size < 8 then Err(InvalidChunkSize(size, pos))
      else
        var kind :- Field(data, pos + 4, 4);
        Ok(Atom(kind, size, pos, 8))
  }

  /** The size that a 32-bit size field of 0 stands for: the rest of the file from the atom on. */
  lemma AtomToEndOfFile(data: seq<byte>, pos: nat)
    requires pos + 8 <= |data| && BeValue(data[pos..pos + 4]) == 0
    ensures AtomAt(data, pos).Ok? ==> AtomAt(data, pos).value.size == |data| - pos
    ensures |data| - pos >= 8 ==> AtomAt(data, pos).Ok?
  {
  }

  /** A size below the header length is refused with the size and position in the error. */
  lemma AtomTooShortIsFatal(data: seq<byte>, pos: nat)
    requires pos + 4 <= |data|
    requires var s := BeValue(data[pos..pos + 4]); 2 <= s < 8
    ensures AtomAt(data, pos) == Err(InvalidChunkSize(BeValue(data[pos..pos + 4]), pos))
  {
  }

  /** The header bytes of an atom: 8 bytes, or 16 with the 64-bit size after the type. */
  function EncodeAtomHeader(kind: nat, size: nat, large: bool): (h: seq<byte>)
    ensures |h| == if large then 16 else 8
  {
    if large then BeBytes(1, 4) + BeBytes(kind, 4) + BeBytes(size, 8)
    else BeBytes(size, 4) + BeBytes(kind, 4)
  }

  /** Which header an atom of a given size needs, and whether the size fits it. */
  predicate Encodable(kind: nat, size: nat, large: bool)
  {
    kind < U32_LIMIT && (if large then 16 <= size < U64_LIMIT else 8 <= size < U32_LIMIT)
  }

  /** Reading back an encoded header, whatever precedes and follows it. */
  lemma AtomAtEncoded(prefix: seq<byte>, kind: nat, size: nat, large: bool, rest: seq<byte>)
    requires Encodable(kind, size, large)
    ensures AtomAt(prefix + EncodeAtomHeader(kind, size, large) + rest, |prefix|)
         == Ok(Atom(kind, size, |prefix|, if large then 16 else 8))
  {
    assert Pow256(4) == U32_LIMIT && Pow256(8) == U64_LIMIT;
    if large {
      LargeHeaderEncoded(prefix, kind, size, rest);
    } else {
      SmallHeaderEncoded(prefix, kind, size, rest);
    }
  }

  lemma LargeHeaderEncoded(prefix: seq<byte>, kind: nat, size: nat, rest: seq<byte>)
    requires kind < Pow256(4) && 16 <= size < Pow256(8)
    ensures AtomAt(prefix + EncodeAtomHeader(kind, size, true) + rest, |prefix|) == Ok(Atom(kind, size, |prefix|, 16))
  {
    LargeHeaderFields(prefix, kind, size, rest);
  }

  lemma LargeHeaderFields(prefix: seq<byte>, kind: nat, size: nat, rest: seq<byte>)
    requires kind < Pow256(4) && 16 <= size < Pow256(8)
    ensures var p, d := |prefix|, prefix + EncodeAtomHeader(kind, size, true) + rest;
      Field(d, p, 4) == Ok(1) && Field(d, p + 4, 4) == Ok(kind) && Field(d, p + 8, 8) == Ok(size)
  {
    var p, d := |prefix|, prefix + EncodeAtomHeader(kind, size, true) + rest;
    assert d[p..p + 4] == BeBytes(1, 4);
    assert d[p + 4..p + 8] == BeBytes(kind, 4);
    assert d[p + 8..p + 16] == BeBytes(size, 8);
    assert Pow256(4) > 1;
    FieldOfEncoding(d, p, 1, 4);
    FieldOfEncoding(d, p + 4, kind, 4);
    FieldOfEncoding(d, p + 8, size, 8);
  }

  lemma SmallHeaderEncoded(prefix: seq<byte>, kind: nat, size: nat, rest: seq<byte>)
    requires kind < Pow256(4) && 8 <= size < Pow256(4)
    ensures AtomAt(prefix + EncodeAtomHeader(kind, size, false) + rest, |prefix|) == Ok(Atom(kind, size, |prefix|, 8))
  {
    var p, d := |prefix|, prefix + EncodeAtomHeader(kind, size, false) + rest;
    assert d[p..p + 4] == BeBytes(size, 4);
    assert d[p + 4..p + 8] == BeBytes(kind, 4);
    FieldOfEncoding(d, p, size, 4);
    FieldOfEncoding(d, p + 4, kind, 4);
  }

  /** A field whose bytes are the encoding of v reads as v. */
  lemma FieldOfEncoding(d: seq<byte>, at: nat, v: nat, n: nat)
    requires at + n <= |d| && d[at..at + n] == BeBytes(v, n) && v < Pow256(n)
    ensures Field(d, at, n) == Ok(v)
  {
    BeValueOfBeBytes(v, n);
  }

  // ---------------------------------------------------------------------
  // The header as src/r_mp4.cpp reads it: the 64-bit size straight after
  // the 32-bit size, and the type after that.

  function AtomAtAsWritten(data: seq<byte>, pos: nat): (r: Result<Atom, Mp4Error>)
    ensures r.Ok? ==> r.value.pos == pos && r.value.size >= r.value.hsize
  {
    var size32 :- Field(data, pos, 4);
    if size32 == 1 then
      var large :- Field(data, pos + 4, 8);
      if large < 16 then Err(InvalidChunkSize(large, pos))
      else
        var kind :- Field(data, pos + 12, 4);
        Ok(Atom(kind, large, pos, 16))
    else
      var size := if size32 == 0 then |data| - pos else size32;
      if size < 8 then Err(InvalidChunkSize(size, pos))
      else
        var kind :- Field(data, pos + 4, 4);
        Ok(Atom(kind, size, pos, 8))
  }

  /** Both readings agree on every atom with a 32-bit size. */
  lemma AsWrittenAgreesOnSmallAtoms(data: seq<byte>, pos: nat)
    requires pos + 4 <= |data| && BeValue(data[pos..pos + 4]) != 1
    ensures AtomAtAsWritten(data, pos) == AtomAt(data, pos)
  {
  }

  /**
   * A 16-byte 'mdat' atom with a 64-bit size (00 00 00 01 'mdat' then the
   * size 16 in eight bytes): as written, the type and the upper half of the
   * size are taken for the size, and the lower half for the type.
   */
  lemma LargeAtomMisread()
    ensures var d: seq<byte> := [0, 0, 0, 1, 0x6d, 0x64, 0x61, 0x74, 0, 0, 0, 0, 0, 0, 0, 16];
      && AtomAt(d, 0) == Ok(Atom(MDAT, 16, 0, 16))
      && AtomAtAsWritten(d, 0) == Ok(Atom(16, MDAT * U32_LIMIT, 0, 16))
  {
    var d: seq<byte> := [0, 0, 0, 1, 0x6d, 0x64, 0x61, 0x74, 0, 0, 0, 0, 0, 0, 0, 16];
    assert Pow256(4) == U32_LIMIT;
    assert d[0..4] == [0, 0, 0, 1];
    BeValue4(0, 0, 0, 1);
    assert d[4..8] == [0x6d, 0x64, 0x61, 0x74];
    BeValue4(0x6d, 0x64, 0x61, 0x74);
    assert d[8..12] == [0, 0, 0, 0];
    BeValue4(0, 0, 0, 0);
    assert d[12..16] == [0, 0, 0, 16];
    BeValue4(0, 0, 0, 16);
    assert d[8..16] == d[8..12] + d[12..16];
    BeValueAppend(d[8..12], d[12..16]);
    assert d[4..12] == d[4..8] + d[8..12];
    BeValueAppend(d[4..8], d[8..12]);
  }
}
