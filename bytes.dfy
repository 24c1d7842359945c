/** Bytes and unsigned big-endian integers, as the readers of this project see them. */
module Bytes {

  import opened Wrappers

  type byte = x: int | 0 <= x < 256

  const U32_LIMIT: nat := 0x1_0000_0000

  function Pow256(n: nat): (r: nat)
    ensures r >= 1
  {
    if n == 0 then 1 else 256 * Pow256(n - 1)
  }

  /** The unsigned big-endian value of a byte string. */
  function BeValue(s: seq<byte>): (v: nat)
    ensures v < Pow256(|s|)
  {
    if s == [] then 0 else BeValue(s[..|s| - 1]) * 256 + s[|s| - 1]
  }

  /** The n-byte big-endian encoding of v (of v modulo 256^n when v is larger). */
  function BeBytes(v: nat, n: nat): (s: seq<byte>)
    ensures |s| == n
  {
    if n == 0 then [] else BeBytes(v / 256, n - 1) + [v % 256]
  }

  lemma {:induction false} BeValueOfBeBytes(v: nat, n: nat)
    requires v < Pow256(n)
    ensures BeValue(BeBytes(v, n)) == v
  {
    if n > 0 {
      BeValueOfBeBytes(v / 256, n - 1);
      var s := BeBytes(v, n);
      assert s[..n - 1] == BeBytes(v / 256, n - 1);
    }
  }

  lemma {:induction false} BeBytesOfBeValue(s: seq<byte>)
    ensures BeBytes(BeValue(s), |s|) == s
  {
    if s != [] {
      var p := s[..|s| - 1];
      BeBytesOfBeValue(p);
      assert BeValue(s) / 256 == BeValue(p);
      assert s == p + [s[|s| - 1]];
    }
  }

  /** The unsigned big-endian n-byte integer stored at `at`, if the data holds it. */
  function BeAt(data: seq<byte>, at: nat, n: nat): (r: Option<nat>)
    ensures r.Some? <==> at + n <= |data|
    ensures r.Some? ==> r.value < Pow256(n)
  {
    if at + n <= |data| then Some(BeValue(data[at..at + n])) else None
  }

  /** Reading back a value that was written as n big-endian bytes inside a longer buffer. */
  lemma BeAtEncoded(prefix: seq<byte>, v: nat, n: nat, suffix: seq<byte>)
    requires v < Pow256(n)
    ensures BeAt(prefix + BeBytes(v, n) + suffix, |prefix|, n) == Some(v)
  {
    var d := prefix + BeBytes(v, n) + suffix;
    assert d[|prefix|..|prefix| + n] == BeBytes(v, n);
    BeValueOfBeBytes(v, n);
  }

  /** The value of a concatenation: the first part shifted past the second. */
  lemma {:induction false} BeValueAppend(a: seq<byte>, b: seq<byte>)
    ensures BeValue(a + b) == BeValue(a) * Pow256(|b|) + BeValue(b)
  {
    if b == [] {
      assert a + b == a;
    } else {
      var b', c := b[..|b| - 1], b[|b| - 1];
      BeValueAppend(a, b');
      assert (a + b)[..|a + b| - 1] == a + b' && (a + b)[|a + b| - 1] == c;
      var x, y, p := BeValue(a), BeValue(b'), Pow256(|b'|);
      assert BeValue(a + b) == (x * p + y) * 256 + c;
      assert BeValue(b) == y * 256 + c && Pow256(|b|) == 256 * p;
      ShiftByte(x, p, y, c);
    }
  }

  lemma ShiftByte(x: nat, p: nat, y: nat, c: nat)
    ensures (x * p + y) * 256 + c == x * (256 * p) + (y * 256 + c)
  {
  }

  /** The value of four bytes. */
  lemma BeValue4(a: byte, b: byte, c: byte, d: byte)
    ensures BeValue([a, b, c, d]) == ((a * 256 + b) * 256 + c) * 256 + d
  {
    assert [a][..0] == [];
    assert BeValue([a]) == a;
    assert [a, b][..1] == [a];
    assert BeValue([a, b]) == a * 256 + b;
    assert [a, b, c][..2] == [a, b];
    assert BeValue([a, b, c]) == (a * 256 + b) * 256 + c;
    assert [a, b, c, d][..3] == [a, b, c];
  }
}
