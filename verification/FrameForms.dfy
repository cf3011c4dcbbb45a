/** Which byte strings are valid frames (capsule/framing.cc), and what each refusal means. */
module FrameForms {
  import opened Bytes
  import C = Crc32c
  import opened FlatMaps
  import opened Framings

  /** The first eight and the last eight bytes of a frame, written out (capsule/abi.h:20-35). */
  lemma HeaderBytes(enclosedType: u32, capsule: seq<byte>)
    requires 16 <= |capsule| && |capsule| + 16 < 0x2000_0000
    ensures var f, n := Framed(enclosedType, capsule), |capsule| + 16;
      && |f| == n
      && f[..4] == LE32(enclosedType)
      && f[4..8] == f[n - 8..n - 4] == LE32(n + 0x2000_0000)
      && f[8..n - 8] == capsule
      && f[n - 4..] == LE32(C.Value(C.Crc(f[..n - 4], 0)))
  {
    hide C.Crc, C.Value, LE32;
    var header := HeaderWord(|capsule| + 16);
    assert header == |capsule| + 16 + 0x2000_0000;
    var g := LE32(enclosedType) + LE32(header) + capsule + Blank();
    var body := g[..|g| - 8] + g[4..8];
    var f := Framed(enclosedType, capsule);
    assert f == body + LE32(C.Value(C.Crc(body, 0)));
    assert f[..|f| - 4] == body;
    assert g[4..8] == LE32(header) && f[4..8] == g[4..8];
    assert f[|f| - 8..|f| - 4] == g[4..8];
    assert f[8..|f| - 8] == capsule;
  }

  /** The valid frames are exactly the completed frames around a capsule that announces its own length and a table. */
  lemma ValidIsCompleted(base: nat, f: seq<byte>)
    requires |f| >= 32
    ensures Validate(base, f) == Ok <==>
      && base % 8 == 0 && |f| % 8 == 0 && |f| < 0x2000_0000
      && f == Framed(Word(f, 0), f[8..|f| - 8])
      && Word(f, 12) == |f| - 16
      && 1 <= Word(f, 8) <= (|f| - 16) / 8
  {
    InnerWords(f);
    FramedValidates(base, Word(f, 0), f[8..|f| - 8]);
    if Validate(base, f) == Ok {
      RebuildsFrame(f);
    }
    hide *;
  }

  lemma InnerWords(f: seq<byte>)
    requires |f| >= 32
    ensures Word(f[8..|f| - 8], 0) == Word(f, 8) && Word(f[8..|f| - 8], 4) == Word(f, 12)
  {
    hide Word32;
    Within(f, 8, |f| - 8, 0, 4);
    Within(f, 8, |f| - 8, 4, 8);
  }

  lemma Within(f: seq<byte>, lo: nat, hi: nat, i: nat, j: nat)
    requires lo <= hi <= |f| && i <= j <= hi - lo
    ensures f[lo..hi][i..j] == f[lo + i..lo + j]
  {
    var part := f[lo..hi];
    assert forall k :: i <= k < j ==> part[k] == f[lo + k];
    assert |part[i..j]| == j - i;
  }

  lemma RebuildsFrame(f: seq<byte>)
    requires |f| >= 32 && ValidateFraming(f) == Ok && ValidateCrc(f) == Ok
    ensures f == Framed(Word(f, 0), f[8..|f| - 8])
  {
    assert MINIMUM == 32;
    hide *;
    HeaderWords(f);
    CrcWord(f);
    FrameByWords(f, |f|, Word(f, 0), Word(f, |f| - 4), f[..|f| - 4], f[8..|f| - 8]);
  }

  lemma FrameByWords(f: seq<byte>, n: nat, first: u32, crc: u32, body: seq<byte>, capsule: seq<byte>)
    requires n == |f| >= 32 && body == f[..n - 4] && capsule == f[8..n - 8]
    requires Word(f, 0) == first && Word(f, 4) == HeaderWord(n) == Word(f, n - 8) && Word(f, n - 4) == crc
    requires crc == C.Value(C.Crc(body, 0))
    ensures f == Framed(first, capsule)
  {
    hide *;
    PiecesBy(f, n, first, HeaderWord(n), crc);
    FrameFromPieces(first, capsule, n, body, crc);
  }

  /** A valid frame: its first word, the header word, the capsule, the header word again, and the CRC. */
  lemma PiecesBy(f: seq<byte>, n: nat, first: u32, header: u32, crc: u32)
    requires n == |f| >= 32 && Word(f, 0) == first && Word(f, 4) == header == Word(f, n - 8) && Word(f, n - 4) == crc
    ensures f[..n - 4] == LE32(first) + LE32(header) + f[8..n - 8] + LE32(header)
    ensures f == f[..n - 4] + LE32(crc)
  {
    hide *;
    var a, h, h', c := f[0..4], f[4..8], f[n - 8..n - 4], f[n - 4..n];
    assert LE32(first) == a by { WordBytes(f, 0, 4); }
    assert LE32(header) == h by { WordBytes(f, 4, 8); }
    assert LE32(header) == h' by { WordBytes(f, n - 8, n - 4); }
    assert LE32(crc) == c by { WordBytes(f, n - 4, n); }
    FivePieces(f, a, h, f[8..n - 8], c, n);
  }

  lemma FrameFromPieces(enclosedType: u32, capsule: seq<byte>, n: nat, body: seq<byte>, crc: u32)
    requires n == |capsule| + 16 >= 32 && crc == C.Value(C.Crc(body, 0))
    requires body == LE32(enclosedType) + LE32(HeaderWord(n)) + capsule + LE32(HeaderWord(n))
    ensures body + LE32(crc) == Framed(enclosedType, capsule)
  {
    assert MINIMUM == 32;
    hide *;
    FramedIs(enclosedType, capsule, n);
    SignedIs(LE32(enclosedType), LE32(HeaderWord(n)), capsule, Blank(), body);
  }

  lemma FivePieces(f: seq<byte>, a: seq<byte>, header: seq<byte>, capsule: seq<byte>, crc: seq<byte>, n: nat)
    requires n == |f| >= 32 && a == f[0..4] && header == f[4..8] == f[n - 8..n - 4] && capsule == f[8..n - 8] && crc == f[n - 4..n]
    ensures f[..n - 4] == a + header + capsule + header && f == f[..n - 4] + crc
  {
  }

  lemma SignedIs(a: seq<byte>, header: seq<byte>, capsule: seq<byte>, blank: seq<byte>, body: seq<byte>)
    requires |a| == |header| == 4 && |blank| == 8 && |capsule| >= 16 && body == a + header + capsule + header
    ensures Signed(a + header + capsule + blank) == body + LE32(C.Value(C.Crc(body, 0)))
  {
    hide C.Crc, C.Value, LE32;
    var g := a + header + capsule + blank;
    assert g[..|g| - 8] == a + header + capsule && g[4..8] == header;
  }

  lemma CrcWord(f: seq<byte>)
    requires |f| >= MINIMUM && ValidateCrc(f) == Ok
    ensures C.Value(C.Crc(f[..|f| - 4], 0)) == Word(f, |f| - 4)
  {
    hide C.Crc, C.Value, Word;
  }

  lemma FramedIs(enclosedType: u32, capsule: seq<byte>, n: nat)
    requires n == |capsule| + 16 >= MINIMUM
    ensures Framed(enclosedType, capsule) == Signed(LE32(enclosedType) + LE32(HeaderWord(n)) + capsule + Blank())
  {
    hide Signed, LE32, HeaderWord;
  }

  lemma HeaderWords(f: seq<byte>)
    requires |f| >= MINIMUM && ValidateFraming(f) == Ok
    ensures Word(f, 4) == Word(f, |f| - 8) == HeaderWord(|f|)
  {
    HeaderParts(Word(f, 4), |f|);
    HeaderParts(Word(f, |f| - 8), |f|);
    hide Word, HeaderWord;
  }

  lemma WordBytes(f: seq<byte>, at: nat, to: nat)
    requires at + 4 == to <= |f|
    ensures LE32(Word(f, at)) == f[at..to]
  {
    LE32OfWord(f[at..at + 4]);
    hide LE32, Word32;
  }

  /**
   * StreamFatal means the frame's extent cannot be trusted: its type or length is wrong, or the footer or the capsule
   * inside contradicts it. CapsuleFatal means the extent is good and the contents are not.
   */
  lemma RefusalMeans(base: nat, f: seq<byte>)
    ensures Validate(base, f) == InvalidArgument <==> base % 8 != 0 || |f| < 32 || |f| % 8 != 0
    ensures Validate(base, f) in {Ok, InvalidArgument, StreamFatal, CapsuleFatal}
    ensures Validate(base, f) == StreamFatal <==>
      && base % 8 == 0 && |f| >= 32 && |f| % 8 == 0
      && (Word(f, 4) != |f| + 0x2000_0000 || |f| >= 0x2000_0000 || Word(f, |f| - 8) != Word(f, 4) || Word(f, 12) + 16 != |f|)
    ensures Validate(base, f) == CapsuleFatal <==>
      && base % 8 == 0 && |f| >= 32 && |f| % 8 == 0
      && Word(f, 4) == |f| + 0x2000_0000 && |f| < 0x2000_0000 && Word(f, |f| - 8) == Word(f, 4) && Word(f, 12) + 16 == |f|
      && (!(1 <= Word(f, 8) <= Word(f, 12) / 8) || C.Value(C.Crc(f[..|f| - 4], 0)) != Word(f, |f| - 4))
  {
    if |f| >= 32 {
      HeaderParts(Word(f, 4), |f|);
      HeaderParts(Word(f, |f| - 8), |f|);
    }
    hide C.Crc, C.Value, Word;
  }

  /** The smallest frame: a capsule with the one field 44 := 55. */
  lemma ExampleHeader()
    ensures var c := [1, 0, 0, 0, 16, 0, 0, 0, 44, 0, 0, 0, 55, 0, 0, 0];
      Framed(0x0403_0201, c)[..28] == [1, 2, 3, 4] + [32, 0, 0, 0x20] + c + [32, 0, 0, 0x20]
  {
    var c := [1, 0, 0, 0, 16, 0, 0, 0, 44, 0, 0, 0, 55, 0, 0, 0];
    ExampleWords();
    hide *;
    HeaderBytes(0x0403_0201, c);
    Pieces(Framed(0x0403_0201, c));
  }

  lemma Pieces(f: seq<byte>)
    requires |f| == 32
    ensures f[..28] == f[..4] + f[4..8] + f[8..24] + f[24..28]
  {
  }

  lemma ExampleWords()
    ensures LE32(0x0403_0201) == [1, 2, 3, 4] && LE32(32 + 0x2000_0000) == [32, 0, 0, 0x20]
  {
  }
}
