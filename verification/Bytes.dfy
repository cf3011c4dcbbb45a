/** Bytes, little-endian words and in-place splices: the vocabulary every wire-format module shares. */
module Bytes {
  type byte = x: int | 0 <= x < 0x100
  type u32 = x: int | 0 <= x < 0x1_0000_0000
  type u64 = x: int | 0 <= x < 0x1_0000_0000_0000_0000

  /** The low 32 bits of v as four bytes, least significant first. */
  function LE32(v: nat): (r: seq<byte>)
    ensures |r| == 4
  {
    [v % 0x100, v / 0x100 % 0x100, v / 0x1_0000 % 0x100, v / 0x100_0000 % 0x100]
  }

  function Word32(b: seq<byte>): u32
    requires |b| == 4
  {
    (b[0] as int) + 0x100 * (b[1] as int) + 0x1_0000 * (b[2] as int) + 0x100_0000 * (b[3] as int)
  }

  /** A 64-bit word as eight bytes, least significant first. */
  function LE64(v: u64): (r: seq<byte>)
    ensures |r| == 8
  {
    LE32(v % 0x1_0000_0000) + LE32(v / 0x1_0000_0000)
  }

  function Word64(b: seq<byte>): u64
    requires |b| == 8
  {
    Word32(b[..4]) + 0x1_0000_0000 * (Word32(b[4..]) as int)
  }

  lemma WordOfLE32(v: u32)
    ensures Word32(LE32(v)) == v
  {
    assert v / 0x1_0000 == v / 0x100 / 0x100;
    assert v / 0x100_0000 == v / 0x1_0000 / 0x100;
  }

  lemma LE32OfWord(b: seq<byte>)
    requires |b| == 4
    ensures LE32(Word32(b)) == b
  {
    var b0: int, b1: int, b2: int, b3: int := b[0], b[1], b[2], b[3];
    var high := b1 + 0x100 * (b2 + 0x100 * b3);
    var v: int := Word32(b);
    assert v == b0 + 0x100 * high;
    assert v / 0x100 == high && high / 0x100 == b2 + 0x100 * b3;
    assert v / 0x1_0000 == v / 0x100 / 0x100 && v / 0x100_0000 == v / 0x100 / 0x100 / 0x100;
  }

  lemma WordOfLE64(v: u64)
    ensures Word64(LE64(v)) == v
  {
    WordOfLE32(v % 0x1_0000_0000);
    WordOfLE32(v / 0x1_0000_0000);
    assert LE64(v)[..4] == LE32(v % 0x1_0000_0000);
    assert LE64(v)[4..] == LE32(v / 0x1_0000_0000);
  }

  /** n rounded up to the next multiple of eight. */
  function RoundUp8(n: nat): (r: nat)
    ensures n <= r < n + 8 && r % 8 == 0
  {
    (n + 7) / 8 * 8
  }

  /** s with the bytes xs laid over it at offset off. */
  function Put<T>(s: seq<T>, off: nat, xs: seq<T>): (r: seq<T>)
    requires off + |xs| <= |s|
    ensures |r| == |s|
  {
    s[..off] + xs + s[off + |xs|..]
  }

  lemma PutAppend<T>(s: seq<T>, off: nat, xs: seq<T>, ys: seq<T>)
    requires off + |xs| + |ys| <= |s|
    ensures Put(Put(s, off, xs), off + |xs|, ys) == Put(s, off, xs + ys)
  {
  }

  lemma PutEmpty<T>(s: seq<T>, off: nat)
    requires off <= |s|
    ensures Put(s, off, []) == s
  {
  }

  /** A splice inside an earlier, wider splice only edits what that one wrote. */
  lemma PutInside<T>(s: seq<T>, off: nat, xs: seq<T>, k: nat, ys: seq<T>)
    requires off + |xs| <= |s| && k + |ys| <= |xs|
    ensures Put(Put(s, off, xs), off + k, ys) == Put(s, off, Put(xs, k, ys))
  {
  }

  /** Two growing regions, the first ending before the second begins, each extended at its end. */
  lemma PutTwo<T>(s: seq<T>, a: nat, xs: seq<T>, x: seq<T>, b: nat, ys: seq<T>, y: seq<T>)
    requires a + |xs| + |x| <= b && b + |ys| + |y| <= |s|
    ensures Put(Put(Put(Put(s, a, xs), b, ys), a + |xs|, x), b + |ys|, y) == Put(Put(s, a, xs + x), b, ys + y)
  {
    var t := Put(s, a, xs);
    PutCommute(t, a + |xs|, x, b, ys);
    PutAppend(s, a, xs, x);
    PutAppend(Put(s, a, xs + x), b, ys, y);
  }

  /** Splices that do not overlap can be made in either order. */
  lemma PutCommute<T>(s: seq<T>, a: nat, xs: seq<T>, b: nat, ys: seq<T>)
    requires a + |xs| <= b && b + |ys| <= |s|
    ensures Put(Put(s, a, xs), b, ys) == Put(Put(s, b, ys), a, xs)
  {
  }

  /** *dst = xs, memcpy and memset: the bytes xs stored at off, and no other byte changed. */
  method Store(dst: array<byte>, off: nat, xs: seq<byte>)
    requires off + |xs| <= dst.Length
    modifies dst
    ensures dst[..] == Put(old(dst[..]), off, xs)
  {
    for i := 0 to |xs|
      invariant forall k :: 0 <= k < dst.Length ==>
        dst[k] == if off <= k < off + i then xs[k - off] else old(dst[k])
    {
      dst[off + i] := xs[i];
    }
  }
}
