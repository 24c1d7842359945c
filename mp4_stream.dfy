/**
 * The input the QuickTime/MP4 reader walks: the bytes of the file and a
 * read position. Reading past the end fails; seeking and skipping may move
 * the position anywhere, and only a later read notices.
 */
module Mp4Stream {

  import opened Wrappers
  import opened Bytes
  import opened Mp4Atoms

  /** The big-endian 32-bit words stored one after another from `at`. */
  function WordsAt(data: seq<byte>, at: nat, n: nat): (ws: seq<nat>)
    requires n == 0 || at + 4 * n <= |data|
    ensures |ws| == n
    ensures forall i :: 0 <= i < n ==> ws[i] < U32_LIMIT
  {
    if n == 0 then []
    else
      assert Pow256(4) == U32_LIMIT;
      WordsAt(data, at, n - 1) + [BeValue(data[at + 4 * (n - 1)..at + 4 * n])]
  }

  /** The bytes of words written one after another in 32-bit big-endian form. */
  function WordBytes(ws: seq<nat>): (bs: seq<byte>)
    ensures |bs| == 4 * |ws|
  {
    if ws == [] then [] else WordBytes(ws[..|ws| - 1]) + BeBytes(ws[|ws| - 1], 4)
  }

  /** Words written in big-endian form are read back, whatever surrounds them. */
  lemma {:induction false} WordsAtEncoded(before: seq<byte>, ws: seq<nat>, after: seq<byte>)
    requires forall i :: 0 <= i < |ws| ==> ws[i] < U32_LIMIT
    ensures WordsAt(before + WordBytes(ws) + after, |before|, |ws|) == ws
  {
    if ws != [] {
      var n := |ws| - 1;
      var front := ws[..n];
      WordsAtEncoded(before, front, BeBytes(ws[n], 4) + after);
      var d := before + WordBytes(ws) + after;
      assert d == before + WordBytes(front) + (BeBytes(ws[n], 4) + after);
      assert d == (before + WordBytes(front)) + BeBytes(ws[n], 4) + after;
      assert Pow256(4) == U32_LIMIT;
      BeAtEncoded(before + WordBytes(front), ws[n], 4, after);
      assert ws == front + [ws[n]];
    }
  }

  class Stream {
    const data: seq<byte>
    var cursor: nat

    constructor(bytes: seq<byte>)
      ensures data == bytes && cursor == 0
    {
      data := bytes;
      cursor := 0;
    }

    method Seek(pos: nat)
      modifies this
      ensures cursor == pos
    {
      cursor := pos;
    }

    method Skip(n: nat)
      modifies this
      ensures cursor == old(cursor) + n
    {
      cursor := cursor + n;
    }

    /** A big-endian unsigned integer of n bytes (4 or 8 in the reader). */
    method ReadBe(n: nat) returns (status: Outcome<Mp4Error>, v: nat)
      modifies this
      ensures status.Pass? <==> old(cursor) + n <= |data|
      ensures status.Fail? ==> status.error == ShortRead && cursor == old(cursor)
      ensures status.Pass? ==> Field(data, old(cursor), n) == Ok(v) && cursor == old(cursor) + n
    {
      if cursor + n > |data| {
        return Fail(ShortRead), 0;
      }
      v := BeValue(data[cursor..cursor + n]);
      cursor := cursor + n;
      status := Pass;
    }

    /** n raw bytes. */
    method ReadBytes(n: nat) returns (status: Outcome<Mp4Error>, bytes: seq<byte>)
      modifies this
      ensures status.Pass? <==> n == 0 || old(cursor) + n <= |data|
      ensures status.Fail? ==> status.error == ShortRead && cursor == old(cursor)
      ensures status.Pass? ==> cursor == old(cursor) + n
      ensures status.Pass? ==> bytes == if n == 0 then [] else data[old(cursor)..old(cursor) + n]
    {
      if n == 0 {
        return Pass, [];
      }
      if cursor + n > |data| {
        return Fail(ShortRead), [];
      }
      bytes := data[cursor..cursor + n];
      cursor := cursor + n;
      status := Pass;
    }

    /** n big-endian 32-bit words, read one at a time. */
    method ReadWords(n: nat) returns (status: Outcome<Mp4Error>, words: seq<nat>)
      modifies this
      ensures status.Pass? <==> n == 0 || old(cursor) + 4 * n <= |data|
      ensures status.Fail? ==> status.error == ShortRead
      ensures status.Pass? ==> words == WordsAt(data, old(cursor), n) && cursor == old(cursor) + 4 * n
    {
      words := [];
      var i := 0;
      while i < n
        invariant 0 <= i <= n && cursor == old(cursor) + 4 * i
        invariant i > 0 ==> cursor <= |data|
        invariant words == WordsAt(data, old(cursor), i)
      {
        var st, w := ReadBe(4);
        if st.Fail? {
          return st, words;
        }
        words := words + [w];
        i := i + 1;
      }
      status := Pass;
    }
  }
}
