/**
 * FLAC frame-header helpers: the number of samples a frame header announces
 * (its sync code, block-size code, UTF-8-style coded frame/sample number and
 * optional explicit block size, after section 9.1 of RFC 9639), and the
 * bounded memory cursor that feeds a header buffer to the FLAC decoder.
 *
 * The bit reader is a cursor over a byte buffer counted in bits; reading or
 * skipping past the last bit raises an end-of-data exception, which the
 * sample-count decoder turns into the result -1.
 */
module Flac {

  import opened Wrappers
  import opened Bytes

  /** The two STREAMINFO fields the frame-header decoder consults. */
  datatype StreamInfo = StreamInfo(minBlocksize: nat, maxBlocksize: nat)

  /** The exception a bit reader raises when asked for bits past its end. */
  datatype EndOfData = EndOfData

  const SYNC_CODE: nat := 0x3FFE

  function Pow2(n: nat): (r: nat)
    ensures r >= 1
  {
    if n == 0 then 1 else 2 * Pow2(n - 1)
  }

  // ---------------------------------------------------------------------
  // Bits of a byte buffer, most significant bit of each byte first

  /** x shifted right by j bits. */
  function ShiftRight(x: nat, j: nat): nat
  {
    if j == 0 then x else ShiftRight(x, j - 1) / 2
  }

  /** Bit i of the buffer: its byte shifted right by 7 - i % 8, masked to one bit. */
  function BitAt(mem: seq<byte>, i: nat): (b: nat)
    requires i < 8 * |mem|
    ensures b < 2
  {
    ShiftRight(mem[i / 8], 7 - i % 8) % 2
  }

  /** The n bits starting at bit position pos, read as an unsigned number. */
  function Bits(mem: seq<byte>, pos: nat, n: nat): (v: nat)
    requires pos + n <= 8 * |mem|
    ensures v < Pow2(n)
  {
    if n == 0 then 0 else Bits(mem, pos, n - 1) * 2 + BitAt(mem, pos + n - 1)
  }

  lemma MulGap(k1: int, k2: int, m: nat)
    requires k1 > k2
    ensures k1 * m >= k2 * m + m
  {
    var j := k1 - k2 - 1;
    assert k1 * m == j * m + k2 * m + m;
  }

  /** Division is determined by quotient and remainder. */
  lemma DivUnique(x: nat, m: nat, a: nat, b: nat)
    requires 0 < m && b < m && x == a * m + b
    ensures x / m == a && x % m == b
  {
    var q := x / m;
    assert q * m + x % m == a * m + b;
    if q > a {
      MulGap(q, a, m);
      assert false;
    } else if q < a {
      MulGap(a, q, m);
      assert false;
    }
  }

  /** Dividing by 2d is dividing by d, then by 2. */
  lemma DivTwice(x: nat, d: nat)
    requires 1 <= d
    ensures x / (2 * d) == (x / d) / 2
  {
    var q, r := x / d, x % d;
    assert x == q * d + r;
    var q2, r2 := q / 2, q % 2;
    assert q == 2 * q2 + r2;
    assert x == q2 * (2 * d) + (r2 * d + r) by {
      assert q * d == (2 * q2 + r2) * d == q2 * (2 * d) + r2 * d;
    }
    assert r2 * d + r < 2 * d by {
      assert r2 * d <= d;
    }
    DivUnique(x, 2 * d, q2, r2 * d + r);
  }

  /** Shifting right by j bits is dividing by 2^j. */
  lemma {:induction false} ShiftRightDivides(x: nat, j: nat)
    ensures ShiftRight(x, j) == x / Pow2(j)
  {
    if j > 0 {
      ShiftRightDivides(x, j - 1);
      DivTwice(x, Pow2(j - 1));
    }
  }

  /** The first m bits of byte k are that byte shifted right by 8 - m. */
  lemma LeadingBitsOfByte(mem: seq<byte>, k: nat, m: nat)
    requires k < |mem| && m <= 8
    ensures Bits(mem, 8 * k, m) == mem[k] / Pow2(8 - m)
  {
    LeadingBitsShift(mem, k, m);
    ShiftRightDivides(mem[k], 8 - m);
  }

  lemma {:induction false} LeadingBitsShift(mem: seq<byte>, k: nat, m: nat)
    requires k < |mem| && m <= 8
    ensures Bits(mem, 8 * k, m) == ShiftRight(mem[k], 8 - m)
  {
    if m == 0 {
      ShiftRightDivides(mem[k], 8);
      Pow2Eight();
    } else {
      LeadingBitsShift(mem, k, m - 1);
      assert (8 * k + m - 1) / 8 == k && (8 * k + m - 1) % 8 == m - 1;
      assert ShiftRight(mem[k], 9 - m) == ShiftRight(mem[k], 8 - m) / 2;
    }
  }

  lemma Pow2Eight()
    ensures Pow2(8) == 256
  {
    assert Pow2(4) == 16;
  }

  /** The 8 bits at pos, as the bit pattern the decoder masks. */
  function OctetAt(mem: seq<byte>, pos: nat): bv8
    requires pos + 8 <= 8 * |mem|
  {
    Pow2Eight();
    Bits(mem, pos, 8) as bv8
  }

  /** A byte-aligned 8-bit read yields the byte itself. */
  lemma BitsOfWholeByte(mem: seq<byte>, k: nat)
    requires k < |mem|
    ensures Bits(mem, 8 * k, 8) == mem[k]
  {
    LeadingBitsOfByte(mem, k, 8);
  }

  /** The 14-bit sync code is byte 0 followed by the top six bits of byte 1. */
  lemma SyncBits(mem: seq<byte>)
    requires 2 <= |mem|
    ensures Bits(mem, 0, 14) == SYNC_CODE <==> mem[0] == 0xFF && mem[1] / 4 == 0x3E
  {
    BitsSplit(mem, 0, 8, 6);
    ShiftLeftMultiplies(Bits(mem, 0, 8), 6);
    BitsOfWholeByte(mem, 0);
    LeadingBitsOfByte(mem, 1, 6);
    assert Pow2(6) == 64 && Pow2(2) == 4;
  }

  /** x shifted left by j bits. */
  function ShiftLeft(x: nat, j: nat): nat
  {
    if j == 0 then x else 2 * ShiftLeft(x, j - 1)
  }

  /** Shifting left by j bits is multiplying by 2^j. */
  lemma {:induction false} ShiftLeftMultiplies(x: nat, j: nat)
    ensures ShiftLeft(x, j) == x * Pow2(j)
  {
    if j > 0 {
      ShiftLeftMultiplies(x, j - 1);
      assert x * Pow2(j) == 2 * (x * Pow2(j - 1));
    }
  }

  /** Reading a + b bits is reading a bits, shifting them left by b, and adding the next b bits. */
  lemma {:induction false} BitsSplit(mem: seq<byte>, pos: nat, a: nat, b: nat)
    requires pos + a + b <= 8 * |mem|
    ensures Bits(mem, pos, a + b) == ShiftLeft(Bits(mem, pos, a), b) + Bits(mem, pos + a, b)
  {
    if b > 0 {
      BitsSplit(mem, pos, a, b - 1);
      assert Bits(mem, pos, a + b) == Bits(mem, pos, a + b - 1) * 2 + BitAt(mem, pos + a + b - 1);
    }
  }

  // ---------------------------------------------------------------------
  // The bit reader

  /** A read cursor over a byte buffer, counted in bits. */
  class BitReader {
    const mem: seq<byte>
    var pos: nat

    ghost predicate Valid()
      reads this
    {
      pos <= 8 * |mem|
    }

    constructor (mem: seq<byte>)
      ensures Valid() && this.mem == mem && pos == 0
    {
      this.mem := mem;
      pos := 0;
    }

    /** The next n bits without moving the cursor. */
    method PeekBits(n: nat) returns (status: Outcome<EndOfData>, v: nat)
      requires Valid()
      ensures status.Pass? <==> pos + n <= 8 * |mem|
      ensures status.Pass? ==> v == Bits(mem, pos, n)
    {
      if pos + n > 8 * |mem| {
        return Fail(EndOfData), 0;
      }
      return Pass, Bits(mem, pos, n);
    }

    method GetBits(n: nat) returns (status: Outcome<EndOfData>, v: nat)
      requires Valid()
      modifies this
      ensures Valid()
      ensures status.Pass? <==> old(pos) + n <= 8 * |mem|
      ensures status.Pass? ==> v == Bits(mem, old(pos), n) && pos == old(pos) + n
    {
      if pos + n > 8 * |mem| {
        return Fail(EndOfData), 0;
      }
      v := Bits(mem, pos, n);
      pos := pos + n;
      status := Pass;
    }

    /** Moving the cursor to the very end is allowed; beyond it raises. */
    method SkipBits(n: nat) returns (status: Outcome<EndOfData>)
      requires Valid()
      modifies this
      ensures Valid()
      ensures status.Pass? <==> old(pos) + n <= 8 * |mem|
      ensures status.Pass? ==> pos == old(pos) + n
    {
      if pos + n > 8 * |mem| {
        return Fail(EndOfData);
      }
      pos := pos + n;
      status := Pass;
    }
  }

  // ---------------------------------------------------------------------
  // The coded frame/sample number

  /**
   * How many bytes follow the lead byte of the coded number, as the decoder
   * decides it: none below 0x80; otherwise the position of the first clear
   * bit among bits 5..0 (bit 6 is never tested); 0xFE only in the 64-bit
   * form; 0xFF never.
   */
  function Utf8ExtraBytes(v: bv8, size: int): (r: Option<nat>)
    ensures r.Some? ==> r.value <= 6
  {
    if v & 0x80 == 0 then Some(0)
    else if v & 0xC0 != 0 && v & 0x20 == 0 then Some(1)
    else if v & 0xE0 != 0 && v & 0x10 == 0 then Some(2)
    else if v & 0xF0 != 0 && v & 0x08 == 0 then Some(3)
    else if v & 0xF8 != 0 && v & 0x04 == 0 then Some(4)
    else if v & 0xFC != 0 && v & 0x02 == 0 then Some(5)
    else if size == 64 && v & 0xFE != 0 && v & 0x01 == 0 then Some(6)
    else None
  }

  /**
   * The UTF-8-style coding of section 9.1.5 of RFC 9639: the number of
   * leading one bits of the lead byte, minus one, gives the number of
   * continuation bytes; seven-byte numbers (lead 0xFE) occur only for
   * 36-bit sample numbers, that is in the 64-bit form.
   */
  function StandardUtf8ExtraBytes(lead: bv8, size: int): Option<nat>
  {
    if lead < 0x80 then Some(0)
    else if lead < 0xC0 then None
    else if lead < 0xE0 then Some(1)
    else if lead < 0xF0 then Some(2)
    else if lead < 0xF8 then Some(3)
    else if lead < 0xFC then Some(4)
    else if lead < 0xFE then Some(5)
    else if lead == 0xFE && size == 64 then Some(6)
    else None
  }

  /**
   * The decoder agrees with the standard coding on every lead byte except
   * the continuation bytes 0x80..0xBF, which the standard rejects and the
   * decoder classifies as if bit 6 were set.
   */
  lemma Utf8ExtraBytesAgreesWithStandard(lead: bv8, size: int)
    ensures lead < 0x80 || 0xC0 <= lead ==> Utf8ExtraBytes(lead, size) == StandardUtf8ExtraBytes(lead, size)
    ensures 0x80 <= lead < 0xC0 ==> StandardUtf8ExtraBytes(lead, size).None?
    ensures 0x80 <= lead < 0xC0 ==> Utf8ExtraBytes(lead, size) == Utf8ExtraBytes(lead | 0x40, size)
  {
  }

  /** 0xFF is rejected whatever the form; 0xFE is accepted only in the 64-bit form. */
  lemma Utf8LeadFEandFF(size: int)
    ensures Utf8ExtraBytes(0xFF, size).None?
    ensures Utf8ExtraBytes(0xFE, size) == if size == 64 then Some(6) else None
  {
  }

  /** Skips the coded number; false when its lead byte is rejected. */
  method SkipUtf8(bits: BitReader, size: int) returns (status: Outcome<EndOfData>, accepted: bool)
    requires bits.Valid()
    modifies bits
    ensures bits.Valid()
    ensures var start := old(bits.pos);
      status.Pass? <==>
        start + 8 <= 8 * |bits.mem| &&
        var lead := OctetAt(bits.mem, start);
        (Utf8ExtraBytes(lead, size).Some? ==> start + 8 + 8 * Utf8ExtraBytes(lead, size).value <= 8 * |bits.mem|)
    ensures status.Pass? ==>
      var lead := OctetAt(bits.mem, old(bits.pos));
      accepted == Utf8ExtraBytes(lead, size).Some? &&
      bits.pos == old(bits.pos) + 8 + (if accepted then 8 * Utf8ExtraBytes(lead, size).value else 0)
  {
    accepted := false;
    var value :- bits.GetBits(8);
    Pow2Eight();
    var num := Utf8ExtraBytes(value as bv8, size);
    if num.None? {
      return Pass, false;
    }
    :- bits.SkipBits(num.value * 8);
    return Pass, true;
  }

  // ---------------------------------------------------------------------
  // The sample count of a frame header

  /**
   * The block size a 4-bit block-size code stands for; codes 6 and 7 (an
   * explicit size follows the coded number) map to 0 here.
   */
  function BlockSizeFromCode(code: nat, minBlocksize: nat): nat
    requires code < 16
  {
    if code == 0 then minBlocksize
    else if code == 1 then 192
    else if 2 <= code <= 5 then 576 * Pow2(code - 2)
    else if 8 <= code then 256 * Pow2(code - 8)
    else 0
  }

  /**
   * The shifted forms agree with the block sizes of section 9.1.1 of
   * RFC 9639: codes 2..5 stand for 144 * 2^code and codes 8..15 for 2^code.
   */
  lemma BlockSizeMatchesRfc(code: nat, minBlocksize: nat)
    requires code < 16
    ensures 2 <= code <= 5 ==> BlockSizeFromCode(code, minBlocksize) == 144 * Pow2(code)
    ensures 8 <= code ==> BlockSizeFromCode(code, minBlocksize) == Pow2(code)
    ensures code == 1 ==> BlockSizeFromCode(code, minBlocksize) == 192
    ensures code == 0 ==> BlockSizeFromCode(code, minBlocksize) == minBlocksize
  {
    if 2 <= code <= 5 {
      assert Pow2(code) == 4 * Pow2(code - 2);
    } else if 8 <= code {
      Pow2Add(8, code - 8);
      assert Pow2(8) == 256;
    }
  }

  lemma {:induction false} Pow2Add(a: nat, b: nat)
    ensures Pow2(a + b) == Pow2(a) * Pow2(b)
  {
    if b > 0 {
      Pow2Add(a, b - 1);
      assert Pow2(a + b) == 2 * Pow2(a + b - 1);
    }
  }

  /** The sync code: 0xFF, then 0b111110 in the top six bits of byte 1. */
  predicate HasSyncCode(mem: seq<byte>)
    requires 2 <= |mem|
  {
    mem[0] == 0xFF && mem[1] / 4 == 0x3E
  }

  /**
   * The sample count the frame header at the start of mem announces, or -1,
   * stated on whole bytes: byte 2 holds the block-size code in its high
   * nibble, byte 4 leads the coded number, an explicit block size minus one
   * (one byte for code 6, two for code 7) follows the coded number, and one
   * CRC byte must follow all of it. A missing sync code, a rejected lead
   * byte, or a buffer that ends early all give -1.
   */
  function FrameSamples(mem: seq<byte>, info: StreamInfo): int
  {
    if |mem| < 2 || !HasSyncCode(mem) || |mem| < 5 then -1
    else NumberAndTail(mem, mem[2] / 16, info)
  }

  /**
   * What follows the block-size code: -1 when the buffer ends before the
   * coded number or its lead byte is rejected, otherwise the sample count
   * once the coded number is skipped.
   */
  function NumberAndTail(mem: seq<byte>, code: nat, info: StreamInfo): int
    requires code < 16
  {
    if |mem| < 5 then -1
    else
      match Utf8ExtraBytes(mem[4] as bv8, WidthOf(info))
      case None => -1
      case Some(extra) => TailSamples(mem, 5 + extra, code, info.minBlocksize)
  }

  /**
   * The sample count once the coded number is behind the cursor at byte p:
   * the explicit block size for codes 6 and 7, the coded one otherwise, and
   * -1 when the bytes up to the CRC byte are not all there.
   */
  function TailSamples(mem: seq<byte>, p: nat, code: nat, minBlocksize: nat): int
    requires code < 16
  {
    var explicitLength := if code == 6 then 1 else if code == 7 then 2 else 0;
    if |mem| < p + explicitLength + 1 then -1
    else if code == 6 then mem[p] + 1
    else if code == 7 then mem[p] * 256 + mem[p + 1] + 1
    else BlockSizeFromCode(code, minBlocksize)
  }

  /** The width the coded number is read with: 64 bits iff the block size varies. */
  function WidthOf(info: StreamInfo): int
  {
    if info.minBlocksize != info.maxBlocksize then 64 else 32
  }

  /** The block-size code and the 12 bits after it; the cursor stands at bit 16. */
  method ReadBlockSizeCode(bits: BitReader) returns (status: Outcome<EndOfData>, code: nat)
    requires bits.Valid() && bits.pos == 16
    modifies bits
    ensures bits.Valid()
    ensures status.Pass? <==> 4 <= |bits.mem|
    ensures status.Pass? ==> code == bits.mem[2] / 16 && bits.pos == 32
  {
    code := 0;
    code :- bits.GetBits(4);
    LeadingBitsOfByte(bits.mem, 2, 4);
    assert Pow2(4) == 16;
    // sample rate (4 bits), channel assignment (4), sample size and padding bit (4)
    :- bits.SkipBits(12);
    status := Pass;
  }

  /** The explicit block size (if any) and the CRC byte; the cursor stands at byte p. */
  method ReadTail(bits: BitReader, p: nat, code: nat, minBlocksize: nat, samples: int) returns (status: Outcome<EndOfData>, result: int)
    requires bits.Valid() && bits.pos == 8 * p && code < 16
    requires samples == BlockSizeFromCode(code, minBlocksize)
    modifies bits
    ensures (if status.Fail? then -1 else result) == TailSamples(bits.mem, p, code, minBlocksize)
  {
    result := samples;
    if code == 6 || code == 7 {
      if |bits.mem| > p {
        BitsOfWholeByte(bits.mem, p);
      }
      result :- bits.GetBits(8);
      if code == 7 {
        if |bits.mem| > p + 1 {
          BitsOfWholeByte(bits.mem, p + 1);
        }
        var low :- bits.GetBits(8);
        result := result * 256 + low;
      }
      result := result + 1;
    }
    // CRC-8
    :- bits.SkipBits(8);
    status := Pass;
  }

  /** Decodes the header with a bit reader; an end-of-data exception escapes as Fail. */
  method GetNumSamplesInternal(mem: seq<byte>, info: StreamInfo) returns (status: Outcome<EndOfData>, samples: int)
    ensures (if status.Fail? then -1 else samples) == FrameSamples(mem, info)
  {
    samples := -1;
    var bits := new BitReader(mem);

    var sync :- bits.PeekBits(14);
    SyncBits(mem);
    if sync != SYNC_CODE {
      return Pass, -1;
    }
    // the sync code, the reserved bit and the blocking strategy; the peek
    // above guarantees these 16 bits are there
    var skipped := bits.SkipBits(16);
    assert skipped.Pass?;

    var value :- ReadBlockSizeCode(bits);
    var freeSampleSize := 0;
    samples := 0;
    if value == 0 {
      samples := info.minBlocksize;
    } else if value == 1 {
      samples := 192;
    } else if 2 <= value <= 5 {
      samples := 576 * Pow2(value - 2);
    } else if 8 <= value {
      samples := 256 * Pow2(value - 8);
    } else {
      freeSampleSize := value;
    }
    assert samples == BlockSizeFromCode(value, info.minBlocksize);

    samples :- ReadNumberAndTail(bits, info, value, samples);
    return Pass, samples;
  }

  /** Skips the coded number at byte 4 in the width the stream's block sizes call for. */
  method SkipCodedNumber(bits: BitReader, info: StreamInfo) returns (status: Outcome<EndOfData>, accepted: bool)
    requires bits.Valid() && bits.pos == 32
    modifies bits
    ensures bits.Valid()
    ensures status.Pass? <==>
      |bits.mem| >= 5 &&
      var extra := Utf8ExtraBytes(bits.mem[4] as bv8, WidthOf(info));
      (extra.Some? ==> 5 + extra.value <= |bits.mem|)
    ensures status.Pass? ==>
      accepted == Utf8ExtraBytes(bits.mem[4] as bv8, WidthOf(info)).Some? &&
      (accepted ==> bits.pos == 8 * (5 + Utf8ExtraBytes(bits.mem[4] as bv8, WidthOf(info)).value))
  {
    accepted := false;
    if |bits.mem| >= 5 {
      BitsOfWholeByte(bits.mem, 4);
    }
    if info.minBlocksize != info.maxBlocksize {
      accepted :- SkipUtf8(bits, 64);
    } else {
      accepted :- SkipUtf8(bits, 32);
    }
    status := Pass;
  }

  lemma NumberAndTailAccepted(mem: seq<byte>, code: nat, info: StreamInfo, extra: nat)
    requires code < 16 && |mem| >= 5 && Utf8ExtraBytes(mem[4] as bv8, WidthOf(info)) == Some(extra)
    ensures NumberAndTail(mem, code, info) == TailSamples(mem, 5 + extra, code, info.minBlocksize)
  {
  }

  /** Skips the coded number, then reads the explicit block size (if any) and the CRC byte. */
  method ReadNumberAndTail(bits: BitReader, info: StreamInfo, code: nat, samples: int) returns (status: Outcome<EndOfData>, result: int)
    requires bits.Valid() && bits.pos == 32 && code < 16
    requires samples == BlockSizeFromCode(code, info.minBlocksize)
    modifies bits
    ensures (if status.Fail? then -1 else result) == NumberAndTail(bits.mem, code, info)
  {
    result := -1;
    var accepted :- SkipCodedNumber(bits, info);
    if !accepted {
      return Pass, -1;
    }
    var mem := bits.mem;
    NumberAndTailAccepted(mem, code, info, Utf8ExtraBytes(mem[4] as bv8, WidthOf(info)).value);
    result :- ReadTail(bits, bits.pos / 8, code, info.minBlocksize, samples);
    return Pass, result;
  }

  /** The number of samples in the frame whose header starts mem, or -1. */
  method GetNumSamples(mem: seq<byte>, info: StreamInfo) returns (samples: int)
    ensures samples == FrameSamples(mem, info)
  {
    var status, n := GetNumSamplesInternal(mem, info);
    if status.Fail? {
      return -1;
    }
    return n;
  }

  // ---------------------------------------------------------------------
  // Frame headers built from their fields

  /** The fields of a frame header, up to and including its CRC byte. */
  datatype FrameHeader = FrameHeader(
    variableBlocking: bool,
    blockSizeCode: nat,
    sampleRateCode: nat,
    channelCode: nat,
    sampleSizeCode: nat,
    codedNumber: seq<byte>,
    explicitBlockSize: nat,
    crc: byte)

  /**
   * Field ranges, and a coded number whose lead byte announces exactly the
   * continuation bytes that follow it.
   */
  predicate WellFormed(h: FrameHeader, size: int)
  {
    && h.blockSizeCode < 16 && h.sampleRateCode < 16 && h.channelCode < 16 && h.sampleSizeCode < 8
    && 1 <= |h.codedNumber|
    && StandardUtf8ExtraBytes(h.codedNumber[0] as bv8, size) == Some(|h.codedNumber| - 1)
    && (h.blockSizeCode == 6 ==> 1 <= h.explicitBlockSize <= 256)
    && (h.blockSizeCode == 7 ==> 1 <= h.explicitBlockSize <= 65536)
  }

  /** The explicit block size as stored: the size minus one, in one or two bytes. */
  function ExplicitBytes(h: FrameHeader): seq<byte>
    requires h.blockSizeCode == 6 ==> 1 <= h.explicitBlockSize <= 256
    requires h.blockSizeCode == 7 ==> 1 <= h.explicitBlockSize <= 65536
  {
    if h.blockSizeCode == 6 then [h.explicitBlockSize - 1]
    else if h.blockSizeCode == 7 then [(h.explicitBlockSize - 1) / 256, (h.explicitBlockSize - 1) % 256]
    else []
  }

  function EncodeFrameHeader(h: FrameHeader, size: int): (bytes: seq<byte>)
    requires WellFormed(h, size)
  {
    [0xFF, if h.variableBlocking then 0xF9 else 0xF8,
     h.blockSizeCode * 16 + h.sampleRateCode,
     h.channelCode * 16 + h.sampleSizeCode * 2]
    + h.codedNumber + ExplicitBytes(h) + [h.crc]
  }

  /** The block size a header announces, as section 9.1.1 of RFC 9639 defines it. */
  function AnnouncedBlockSize(h: FrameHeader, minBlocksize: nat): nat
    requires h.blockSizeCode < 16
  {
    if h.blockSizeCode == 6 || h.blockSizeCode == 7 then h.explicitBlockSize
    else BlockSizeFromCode(h.blockSizeCode, minBlocksize)
  }

  /** Decoding an encoded header, whatever follows it, yields its block size. */
  lemma DecodeEncodedHeader(h: FrameHeader, info: StreamInfo, rest: seq<byte>)
    requires WellFormed(h, WidthOf(info))
    ensures FrameSamples(EncodeFrameHeader(h, WidthOf(info)) + rest, info) == AnnouncedBlockSize(h, info.minBlocksize)
  {
    var size := WidthOf(info);
    var mem := EncodeFrameHeader(h, size) + rest;
    assert mem[0] == 0xFF && mem[1] / 4 == 0x3E;
    assert mem[2] / 16 == h.blockSizeCode;
    var extra := |h.codedNumber| - 1;
    assert Utf8ExtraBytes(mem[4] as bv8, size) == Some(extra) by {
      assert mem[4] == h.codedNumber[0];
      Utf8ExtraBytesAgreesWithStandard(h.codedNumber[0] as bv8, size);
    }
    NumberAndTailAccepted(mem, h.blockSizeCode, info, extra);
    EncodedTail(h, size, info.minBlocksize, rest);
  }

  /** Behind the coded number of an encoded header sit its explicit block size and its CRC byte. */
  lemma EncodedTail(h: FrameHeader, size: int, minBlocksize: nat, rest: seq<byte>)
    requires WellFormed(h, size)
    ensures TailSamples(EncodeFrameHeader(h, size) + rest, 4 + |h.codedNumber|, h.blockSizeCode, minBlocksize)
            == AnnouncedBlockSize(h, minBlocksize)
  {
    var mem := EncodeFrameHeader(h, size) + rest;
    var p := 4 + |h.codedNumber|;
    assert |mem| >= p + |ExplicitBytes(h)| + 1;
    if h.blockSizeCode == 6 {
      assert mem[p] == h.explicitBlockSize - 1;
    } else if h.blockSizeCode == 7 {
      assert mem[p] == (h.explicitBlockSize - 1) / 256;
      assert mem[p + 1] == (h.explicitBlockSize - 1) % 256;
    }
  }

  /** Any buffer that stops before the CRC byte of a header yields -1. */
  lemma TruncatedHeader(h: FrameHeader, info: StreamInfo, k: nat)
    requires WellFormed(h, WidthOf(info))
    requires k < |EncodeFrameHeader(h, WidthOf(info))|
    ensures FrameSamples(EncodeFrameHeader(h, WidthOf(info))[..k], info) == -1
  {
    var size := WidthOf(info);
    var full := EncodeFrameHeader(h, size);
    var mem := full[..k];
    if 5 <= k {
      assert mem[2] == full[2] && mem[4] == h.codedNumber[0];
      Utf8ExtraBytesAgreesWithStandard(h.codedNumber[0] as bv8, size);
      assert |full| == 4 + |h.codedNumber| + |ExplicitBytes(h)| + 1;
    }
  }

  // ---------------------------------------------------------------------
  // The memory cursor behind the decoder's read callback

  datatype ReadStatus = Continue | Abort

  /** A header buffer handed to the FLAC decoder piece by piece. */
  class HeaderExtractor {
    const mem: seq<byte>
    var nread: nat
    /** Everything handed out so far, in order. */
    ghost var delivered: seq<byte>

    ghost predicate Valid()
      reads this
    {
      nread <= |mem| && delivered == mem[..nread]
    }

    constructor (mem: seq<byte>)
      ensures Valid() && this.mem == mem && nread == 0 && delivered == []
    {
      this.mem := mem;
      nread := 0;
      delivered := [];
    }

    /**
     * Copies min(requested, remaining) bytes and advances the cursor by that
     * much; aborts once every byte has been handed out.
     */
    method ReadCallback(requested: nat) returns (status: ReadStatus, buffer: seq<byte>)
      requires Valid()
      modifies this
      ensures Valid()
      ensures old(nread) == |mem| ==> status == Abort && buffer == [] && nread == old(nread)
      ensures old(nread) < |mem| ==>
        && status == Continue
        && nread == old(nread) + (if requested < |mem| - old(nread) then requested else |mem| - old(nread))
        && buffer == mem[old(nread)..nread]
      ensures delivered == old(delivered) + buffer
    {
      if nread == |mem| {
        return Abort, [];
      }
      var numBytes := if requested > |mem| - nread then |mem| - nread else requested;
      buffer := mem[nread..nread + numBytes];
      nread := nread + numBytes;
      delivered := delivered + buffer;
      assert delivered == mem[..nread];
      status := Continue;
    }
  }
}
