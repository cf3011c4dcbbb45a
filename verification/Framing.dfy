/** capsule/framing.cc and capsule/storage.cc: the checksummed frame around a capsule. */
module Framings {
  import opened Bytes
  import opened Crc32c
  import opened FlatMaps

  const LENGTH_LIMIT: nat := 0x2000_0000  // frame_length is a 29-bit field
  const MINIMUM: nat := 32

  /** A handle to n bytes of an 8-aligned allocation. */
  datatype Storage = Storage(alloc: array<byte>, base: nat, n: nat) {
    ghost predicate Valid() { base + n <= alloc.Length }

    ghost function Contents(): seq<byte>
      requires Valid()
      reads alloc
    {
      alloc[base..base + n]
    }

    method Carve(trimHead: nat, trimTail: nat) returns (code: Code, carved: Storage)
      requires Valid()
      ensures code == (if trimHead + trimTail >= n then CapsuleFatal else Ok)
      ensures code == Ok ==> carved == Storage(alloc, base + trimHead, n - trimHead - trimTail)
      ensures code == Ok ==> carved.Valid() && carved.Contents() == Contents()[trimHead..n - trimTail]
    {
      carved := this;
      if trimHead + trimTail >= n {
        return CapsuleFatal, carved;
      }
      return Ok, Storage(alloc, base + trimHead, n - trimHead - trimTail);
    }
  }

  function Word(f: seq<byte>, at: nat): u32
    requires at + 4 <= |f|
  {
    Word32(f[at..at + 4])
  }

  // ---- Validation ----

  function ValidateAlignment(base: nat): Code {
    if base % 8 == 0 then Ok else InvalidArgument
  }

  function ValidateMinLength(n: nat): Code {
    if n >= MINIMUM then Ok else InvalidArgument
  }

  function ValidateLengthMultiple(n: nat): Code {
    if n % 8 == 0 then Ok else InvalidArgument
  }

  /** Frame header, inner header and footer agree with each other and with the memory length. */
  function ValidateFraming(f: seq<byte>): Code
    requires |f| >= MINIMUM
  {
    var header, footer := Word(f, 4), Word(f, |f| - 8);
    var otes, capsuleLength := Word(f, 8), Word(f, 12);
    if header / LENGTH_LIMIT != 1 then StreamFatal
    else if header % LENGTH_LIMIT != |f| then StreamFatal
    else if header / LENGTH_LIMIT != footer / LENGTH_LIMIT then StreamFatal
    else if header % LENGTH_LIMIT != footer % LENGTH_LIMIT then StreamFatal
    else if header % LENGTH_LIMIT != capsuleLength + 16 then StreamFatal
    else if otes > capsuleLength / 8 then CapsuleFatal
    else if otes == 0 then CapsuleFatal
    else Ok
  }

  function ValidateCrc(f: seq<byte>): Code
    requires |f| >= MINIMUM
  {
    if Value(Crc(f[..|f| - 4], 0)) == Word(f, |f| - 4) then Ok else CapsuleFatal
  }

  /** Framing::Validate, on the frame f at an address congruent to base modulo 8. */
  function Validate(base: nat, f: seq<byte>): Code {
    if ValidateAlignment(base) != Ok then ValidateAlignment(base)
    else if ValidateMinLength(|f|) != Ok then ValidateMinLength(|f|)
    else if ValidateLengthMultiple(|f|) != Ok then ValidateLengthMultiple(|f|)
    else if ValidateFraming(f) != Ok then ValidateFraming(f)
    else ValidateCrc(f)
  }

  // ---- Error detection ----

  /** What the register holds after a frame whose stored CRC is right, whatever the frame says. */
  const RESIDUE: bv32 := Zeros(0xFFFF_FFFF, 32)

  lemma FeedStored(s: bv32, w: bv32)
    ensures Feed(s, LE32(Value(w))) == Zeros(Xor(s, w), 32)
  {
    hide Feed, FeedBit, LE32, Xor, Zeros, LowBits, HalfTimes;
    var bytes := LE32(Value(w));
    LittleOfLE32(Value(w));
    WideIsBytewise(s, bytes);
    NatOfBits(LowBits(w, 32));
    ZerosAbsorb(s, w, 32);
    HalvedAway(w);
    XorZero(FeedBits(s, LowBits(w, 32)));
  }

  lemma LittleOfLE32(v: u32)
    ensures Little(LE32(v)) == v
  {
    var b := LE32(v);
    WordOfLE32(v);
    assert Little(b) == b[0] + 0x100 * Little(b[1..]);
    assert Little(b[1..]) == b[1] + 0x100 * Little(b[2..]) by { assert b[1..][1..] == b[2..]; }
    assert Little(b[2..]) == b[2] + 0x100 * Little(b[3..]) by { assert b[2..][1..] == b[3..]; }
    assert Little(b[3..]) == b[3] by { assert b[3..][1..] == []; }
  }

  lemma XorComplement(s: bv32)
    ensures Xor(s, Complement(s)) == 0xFFFF_FFFF
  {
  }

  /** The stored CRC is the computed one exactly when the register after the whole frame is the residue. */
  lemma CrcIsResidue(f: seq<byte>)
    requires |f| >= 4
    ensures Word(f, |f| - 4) == Value(Crc(f[..|f| - 4], 0)) <==> Feed(Complement(0), f) == RESIDUE
  {
    hide Feed, Complement, LE32, Word32, Xor, Zeros, Crc32c.Value;
    var body, stored := f[..|f| - 4], f[|f| - 4..];
    assert f == body + stored;
    assert f[|f| - 4..|f| - 4 + 4] == stored;
    var s := Feed(Complement(0), body);
    var right := LE32(Crc32c.Value(Complement(s)));
    FeedConcat(Complement(0), body, stored);
    FeedStored(s, Complement(s));
    XorComplement(s);
    LE32OfWord(stored);
    WordOfLE32(Crc32c.Value(Complement(s)));
    if Feed(s, stored) == Feed(s, right) {
      BurstDetected(s, stored, right, 0);
    }
  }

  /** Changing any bytes of a valid frame that lie within four consecutive bytes, stored CRC included, invalidates it. */
  lemma BurstInvalidates(base: nat, f: seq<byte>, g: seq<byte>, at: nat)
    requires Validate(base, f) == Ok
    requires |g| == |f| && at + 4 <= |f|
    requires f[..at] == g[..at] && f[at + 4..] == g[at + 4..]
    requires f != g
    ensures Validate(base, g) != Ok
  {
    hide Feed, Complement, Word32, Crc32c.Value, ValidateFraming, Crc;
    if Validate(base, g) == Ok {
      CrcIsResidue(f);
      CrcIsResidue(g);
      BurstDetected(Complement(0), f, g, at);
    }
  }

  lemma ByteInvalidates(base: nat, f: seq<byte>, at: nat, b: byte)
    requires Validate(base, f) == Ok && at < |f| && b != f[at]
    ensures Validate(base, f[at := b]) != Ok
  {
    hide ValidateCrc, ValidateFraming;
    var g, start := f[at := b], if at + 4 <= |f| then at else |f| - 4;
    assert f[..start] == g[..start] && f[start + 4..] == g[start + 4..];
    BurstInvalidates(base, f, g, start);
  }

  // ---- Framing ----

  /** The header word of an n-byte checksummed frame: 29 bits of length, 3 bits of type. */
  function HeaderWord(n: nat): u32 {
    n % LENGTH_LIMIT + LENGTH_LIMIT
  }

  /** f with its footer filled in: the header word repeated, then the CRC of everything before it. */
  function Signed(f: seq<byte>): (r: seq<byte>)
    requires |f| >= MINIMUM
    ensures |r| == |f|
  {
    var body := f[..|f| - 8] + f[4..8];
    body + LE32(Value(Crc(body, 0)))
  }

  /** The frame CompleteFraming makes around a capsule's bytes. */
  function Framed(enclosedType: u32, capsule: seq<byte>): (r: seq<byte>)
    requires |capsule| + 16 >= MINIMUM
    ensures |r| == |capsule| + 16
  {
    Signed(LE32(enclosedType) + LE32(HeaderWord(|capsule| + 16)) + capsule + Blank())
  }

  function Blank(): (r: seq<byte>)
    ensures |r| == 8
  {
    seq(8, _ => 0)
  }

  lemma SignedWords(f: seq<byte>)
    requires |f| >= MINIMUM
    ensures var g := Signed(f);
            && Word(g, 4) == Word(g, |g| - 8) == Word(f, 4)
            && Word(g, 8) == Word(f, 8) && Word(g, 12) == Word(f, 12)
            && ValidateCrc(g) == Ok
  {
    hide Crc, Crc32c.Value, LE32, Word32;
    var g, body := Signed(f), f[..|f| - 8] + f[4..8];
    var crc := Crc32c.Value(Crc(body, 0));
    WordOfLE32(crc);
    assert g[..|g| - 4] == body && g[|g| - 4..|g| - 4 + 4] == LE32(crc);
    assert g[4..8] == f[4..8] && g[8..12] == f[8..12] && g[12..16] == f[12..16];
    assert g[|g| - 8..|g| - 8 + 4] == f[4..8];
  }

  /** A signed frame validates exactly when its header, its inner header and the memory agree. */
  lemma SignedValidates(base: nat, f: seq<byte>)
    requires |f| >= MINIMUM
    ensures Validate(base, Signed(f)) == Ok <==>
      && base % 8 == 0 && |f| % 8 == 0 && |f| < LENGTH_LIMIT
      && Word(f, 4) == HeaderWord(|f|)
      && Word(f, 12) + 16 == |f|
      && 1 <= Word(f, 8) <= Word(f, 12) / 8
  {
    SignedWords(f);
    HeaderParts(Word(f, 4), |f|);
    hide Signed, Word, ValidateCrc, HeaderWord;
  }

  lemma HeaderParts(w: u32, n: nat)
    ensures w / LENGTH_LIMIT == 1 && w % LENGTH_LIMIT == n <==> n < LENGTH_LIMIT && w == HeaderWord(n)
  {
  }

  /** A completed frame validates exactly when the capsule inside announces its own length and a sensible table. */
  lemma FramedValidates(base: nat, enclosedType: u32, capsule: seq<byte>)
    requires |capsule| + 16 >= MINIMUM
    ensures Validate(base, Framed(enclosedType, capsule)) == Ok <==>
      && base % 8 == 0 && |capsule| % 8 == 0 && |capsule| + 16 < LENGTH_LIMIT
      && Word(capsule, 4) == |capsule|
      && 1 <= Word(capsule, 0) <= |capsule| / 8
    ensures Framed(enclosedType, capsule)[8..|capsule| + 8] == capsule
    ensures Word(Framed(enclosedType, capsule), 0) == enclosedType
  {
    hide Crc, Crc32c.Value, LE32, Word32, Validate;
    var header := HeaderWord(|capsule| + 16);
    var f := LE32(enclosedType) + LE32(header) + capsule + Blank();
    assert f[0..4] == LE32(enclosedType) && f[4..8] == LE32(header);
    assert f[8..12] == capsule[0..4] && f[12..16] == capsule[4..8];
    WordOfLE32(enclosedType);
    WordOfLE32(header);
    SignedValidates(base, f);
    assert Signed(f)[0..4] == f[0..4];
    assert Signed(f)[8..|capsule| + 8] == f[8..|capsule| + 8] == capsule;
  }

  method ComputeCrc(s: Storage, n: nat) returns (crc: u32)
    requires s.Valid() && 4 <= n <= s.n
    ensures crc == Value(Crc(s.Contents()[..n - 4], 0))
  {
    assert s.alloc[s.base..s.base + n - 4] == s.Contents()[..n - 4];
    var v := ComputeCRC32C(s.alloc[s.base..s.base + n - 4], 0);
    crc := Crc32c.Value(v);
  }

  method Sign(s: Storage) returns (code: Code)
    requires s.Valid()
    modifies s.alloc
    ensures code == (if s.base % 8 != 0 || s.n < MINIMUM then InvalidArgument else Ok)
    ensures s.alloc[..] == if code == Ok then Put(old(s.alloc[..]), s.base, Signed(old(s.Contents())))
                           else old(s.alloc[..])
  {
    hide Crc, Crc32c.Value, LE32, Put, Signed;
    if ValidateAlignment(s.base) != Ok {
      return ValidateAlignment(s.base);
    }
    if ValidateMinLength(s.n) != Ok {
      return ValidateMinLength(s.n);
    }
    ghost var mem, f := s.alloc[..], s.Contents();
    var footer := s.base + s.n - 8;
    assert f == mem[s.base..s.base + s.n];
    assert s.alloc[s.base + 4..s.base + 8] == f[4..8];
    Store(s.alloc, footer, s.alloc[s.base + 4..s.base + 8]);
    PutWithin(mem, s.base, s.n, s.n - 8, f[4..8]);
    ghost var half := Put(f, s.n - 8, f[4..8]);
    assert s.Contents() == s.alloc[..][s.base..s.base + s.n];
    var crc := ComputeCrc(s, s.n);
    PutWithin(s.alloc[..], s.base, s.n, s.n - 4, LE32(crc));
    Store(s.alloc, footer + 4, LE32(crc));
    SignedInSteps(f);
    PutOver(mem, s.base, half, Signed(f));
    code := Ok;
  }

  lemma SignedInSteps(f: seq<byte>)
    requires |f| >= MINIMUM
    ensures var half := Put(f, |f| - 8, f[4..8]);
            Put(half, |f| - 4, LE32(Value(Crc(half[..|f| - 4], 0)))) == Signed(f)
  {
    hide Crc, Crc32c.Value, LE32;
    var half := Put(f, |f| - 8, f[4..8]);
    assert half[..|f| - 4] == f[..|f| - 8] + f[4..8];
  }

  /** Writes the frame header, then signs: the storage holds exactly the frame around the capsule bytes. */
  method CompleteFraming(enclosedType: u32, s: Storage) returns (code: Code)
    requires s.Valid() && s.n >= MINIMUM && s.base % 8 == 0
    modifies s.alloc
    ensures code == Ok
    ensures s.alloc[..] == Put(old(s.alloc[..]), s.base, Framed(enclosedType, old(s.Contents()[8..s.n - 8])))
  {
    hide Crc, Crc32c.Value, LE32, Put, Signed, Framed, HeaderWord;
    ghost var mem, was := s.alloc[..], s.Contents();
    ghost var header := LE32(enclosedType) + LE32(HeaderWord(s.n));
    assert was == mem[s.base..s.base + s.n];
    Store(s.alloc, s.base, LE32(enclosedType));
    Store(s.alloc, s.base + 4, LE32(HeaderWord(s.n)));
    PutAppend(mem, s.base, LE32(enclosedType), LE32(HeaderWord(s.n)));
    PutWithin(mem, s.base, s.n, 0, header);
    ghost var f := Put(was, 0, header);
    assert s.Contents() == s.alloc[..][s.base..s.base + s.n];
    code := Sign(s);
    SignedHeader(was, enclosedType);
    PutOver(mem, s.base, f, Signed(f));
  }

  lemma SignedHeader(was: seq<byte>, enclosedType: u32)
    requires |was| >= MINIMUM
    ensures Signed(Put(was, 0, LE32(enclosedType) + LE32(HeaderWord(|was|)))) == Framed(enclosedType, was[8..|was| - 8])
  {
    hide Crc, Crc32c.Value, LE32, HeaderWord, Signed;
    var header, capsule := LE32(enclosedType) + LE32(HeaderWord(|was|)), was[8..|was| - 8];
    var f, g := Put(was, 0, header), header + capsule + Blank();
    assert f[..|was| - 8] == header + capsule == g[..|g| - 8];
    SignedIgnoresFooter(f, g);
  }

  /** A splice inside [base, base + n) seen as an edit of that range alone. */
  lemma PutWithin(mem: seq<byte>, base: nat, n: nat, k: nat, xs: seq<byte>)
    requires base + n <= |mem| && k + |xs| <= n
    ensures Put(mem, base + k, xs)[base..base + n] == Put(mem[base..base + n], k, xs)
    ensures Put(mem, base + k, xs) == Put(mem, base, Put(mem[base..base + n], k, xs))
  {
    var a, b := Put(mem, base + k, xs), Put(mem[base..base + n], k, xs);
    forall i | 0 <= i < n ensures a[base + i] == b[i] {
    }
    assert a[base..base + n] == b;
  }

  lemma PutOver(mem: seq<byte>, base: nat, xs: seq<byte>, ys: seq<byte>)
    requires |xs| == |ys| && base + |xs| <= |mem|
    ensures Put(Put(mem, base, xs), base, ys) == Put(mem, base, ys)
  {
  }

  lemma SignedIgnoresFooter(f: seq<byte>, g: seq<byte>)
    requires |f| == |g| >= MINIMUM && f[..|f| - 8] == g[..|g| - 8]
    ensures Signed(f) == Signed(g)
  {
    assert f[4..8] == f[..|f| - 8][4..8] && g[4..8] == g[..|g| - 8][4..8];
  }

  /** AllocFrame, up to the allocation itself: the frame's storage and the capsule's storage inside it. */
  method AllocFrame(capsuleSize: nat) returns (code: Code, frame: Storage, capsule: Storage)
    ensures code == (if capsuleSize % 8 != 0 || capsuleSize + 16 < MINIMUM then InvalidArgument else Ok)
    ensures code == Ok ==> fresh(frame.alloc) && frame.alloc.Length == capsuleSize + 16
    ensures code == Ok ==> frame == Storage(frame.alloc, 0, capsuleSize + 16)
    ensures code == Ok ==> capsule == Storage(frame.alloc, 8, capsuleSize)
  {
    var none := new byte[0];
    frame, capsule := Storage(none, 0, 0), Storage(none, 0, 0);
    if ValidateLengthMultiple(capsuleSize) != Ok {
      return ValidateLengthMultiple(capsuleSize), frame, capsule;
    }
    var allocationSize := capsuleSize + 16;
    if ValidateMinLength(allocationSize) != Ok {
      return ValidateMinLength(allocationSize), frame, capsule;
    }
    var a := new byte[allocationSize];
    frame := Storage(a, 0, allocationSize);
    code, capsule := frame.Carve(8, 8);
  }

  /** Unframe: validate, then carve the capsule out. It succeeds exactly on valid frames. */
  method Unframe(s: Storage) returns (code: Code, enclosedType: u32, capsule: Storage)
    requires s.Valid()
    ensures code == Validate(s.base, s.Contents())
    ensures code == Ok ==>
      && s.n >= MINIMUM
      && enclosedType == Word(s.Contents(), 0)
      && capsule == Storage(s.alloc, s.base + 8, s.n - 16)
  {
    hide Crc, Crc32c.Value, Word32, ValidateFraming;
    enclosedType, capsule := 0, s;
    var f := s.alloc[s.base..s.base + s.n];
    code := Validate(s.base, f);
    if code != Ok {
      return;
    }
    enclosedType := Word(f, 0);
    code, capsule := s.Carve(8, 8);
  }
}
