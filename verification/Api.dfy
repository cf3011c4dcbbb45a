/** capsule/capsule.h: serialize, deserialize, and the framed forms of both. */
module Api {
  import opened Bytes
  import opened Values
  import opened SizeBuilders
  import opened FlatMaps
  import opened Decoders
  import opened RoundTrips
  import Crc32c
  import E = Encoders
  import F = Framings

  const MINIMUM_CAPSULE: nat := 16

  /** Serialize: the storage's first bytes become the serialized capsule, and nothing else changes. */
  method Serialize(c: Capsule, s: F.Storage) returns (code: Code)
    requires s.Valid() && Size(c) < WORD
    modifies s.alloc
    ensures code == (if s.base % 8 != 0 || s.n < Size(c) then InvalidArgument else Ok)
    ensures |Serial(c)| == Size(c)
    ensures s.alloc[..] == if code == Ok then Put(old(s.alloc[..]), s.base, Serial(c)) else old(s.alloc[..])
  {
    hide LE32, Put, Serial;
    SerialLength(c);
    var size := ComputeStorageSize(c);
    if s.base % 8 != 0 {
      return InvalidArgument;
    }
    if s.n < size {
      return InvalidArgument;
    }
    ghost var mem := s.alloc[..];
    var e := new E.Encoder(s.alloc, s.base, size, |c.fields|, null);
    e.Encode(c);
    var sealSize := e.Seal();
    E.Encoder.WholeSerial(mem, s.base, c);
    if e.result != E.Ok || sealSize != size {
      assert false; // Neither an encoding error nor SealSizesDiffer can happen.
    }
    code := Ok;
  }

  /** Deserialize, for any storage and any reader's schema. */
  method Deserialize(s: F.Storage, schema: Schema) returns (code: Code, m: Message)
    requires s.Valid()
    ensures s.base % 8 != 0 || s.n < MINIMUM_CAPSULE ==> code == InvalidArgument
    ensures s.base % 8 == 0 && s.n >= MINIMUM_CAPSULE && Open(s.alloc[..], s.base, s.n).Refused? ==>
      code == Open(s.alloc[..], s.base, s.n).code
    ensures s.base % 8 == 0 && s.n >= MINIMUM_CAPSULE && Open(s.alloc[..], s.base, s.n).Opened? ==>
      (code, m) == DecodeStruct(schema, Open(s.alloc[..], s.base, s.n).view)
  {
    m := Message([]);
    if s.base % 8 != 0 || s.n < MINIMUM_CAPSULE {
      return InvalidArgument, m;
    }
    var built, d := Decoder.Build(s.alloc[..], s.base, s.n);
    if built != Ok {
      return built, m;
    }
    code, m := d.Decode(schema);
  }

  /** SerializeAndFrame: the frame holds exactly the framed serialization, for every capsule with at least one field. */
  method SerializeAndFrame(c: Capsule, typeHash: u32) returns (code: Code, frame: F.Storage)
    requires Size(c) < WORD
    ensures code == (if c.fields == [] then InvalidArgument else Ok)
    ensures |Serial(c)| == Size(c) >= 16 || c.fields == []
    ensures code == Ok ==>
      && fresh(frame.alloc) && frame == F.Storage(frame.alloc, 0, Size(c) + 16)
      && frame.Valid() && frame.Contents() == F.Framed(typeHash, Serial(c))
  {
    hide LE32, Serial, F.Framed;
    SerialLength(c);
    assert c.fields != [] ==> Size(c) >= 16;
    assert c.fields == [] ==> Size(c) == 8;
    var size := ComputeStorageSize(c);
    var capsule;
    code, frame, capsule := F.AllocFrame(size);
    if code != Ok {
      return;
    }
    code := Serialize(c, capsule);
    assert frame.Contents() == frame.alloc[..];
    assert frame.Contents()[8..frame.n - 8] == Serial(c);
    code := F.CompleteFraming(typeHash, frame);
  }

  /**
   * What SerializeAndFrame made of c, wherever it now lies: it validates, the carved storage is exactly the serialized
   * capsule, and deserializing it gives back the type hash, and the value with every field present.
   */
  lemma FramedRoundTrip(schema: Schema, c: Capsule, typeHash: u32, mem: seq<byte>, base: nat, f: seq<byte>)
    requires Instance(schema, c) && c.fields != [] && Size(c) + 16 < F.LENGTH_LIMIT
    requires |Serial(c)| == Size(c) >= 16 && f == F.Framed(typeHash, Serial(c))
    requires base % 8 == 0 && Holds(mem, base, f)
    ensures F.Validate(base, f) == Ok && F.Word(f, 0) == typeHash
    ensures |f| == Size(c) + 16 && f[8..|f| - 8] == Serial(c)
    ensures Open(mem, base + 8, Size(c)).Opened?
    ensures var (code, m) := DecodeStruct(schema, Open(mem, base + 8, Size(c)).view);
            code == Ok && Rebuild(schema, m) == c && forall i :: 0 <= i < |m.slots| ==> m.slots[i].present
  {
    hide *;
    FrameValidates(c, typeHash, base, f);
    CapsuleInFrame(mem, base, f);
    RoundTrip(schema, c, mem, base + 8, Size(c));
  }

  lemma FrameValidates(c: Capsule, typeHash: u32, base: nat, f: seq<byte>)
    requires c.fields != [] && Size(c) + 16 < F.LENGTH_LIMIT && base % 8 == 0
    requires |Serial(c)| == Size(c) >= 16 && f == F.Framed(typeHash, Serial(c))
    ensures F.Validate(base, f) == Ok && F.Word(f, 0) == typeHash
    ensures |f| == Size(c) + 16 && f[8..|f| - 8] == Serial(c)
    ensures Size(c) < WORD
  {
    SerialWords(c);
    hide Serial, Size, F.Framed, F.Validate, F.Word;
    F.FramedValidates(base, typeHash, Serial(c));
  }

  lemma CapsuleInFrame(mem: seq<byte>, base: nat, f: seq<byte>)
    requires Holds(mem, base, f) && |f| >= 16
    ensures Holds(mem, base + 8, f[8..|f| - 8])
  {
    HoldsPart(mem, base, f[..8], f[8..|f| - 8], f[|f| - 8..]);
    assert f == f[..8] + f[8..|f| - 8] + f[|f| - 8..];
  }

  lemma SerialWords(c: Capsule)
    requires Size(c) < WORD
    ensures |Serial(c)| == Size(c) >= 8 && Size(c) % 8 == 0
    ensures F.Word(Serial(c), 0) == |c.fields| <= Size(c) / 8 && F.Word(Serial(c), 4) == Size(c)
  {
    assert Holds(Serial(c), 0, Serial(c));
    SerialParts(Serial(c), 0, c);
    WordOfLE32(|c.fields|);
    WordOfLE32(Size(c));
    hide LE32, Word32, Serial, FieldsSize;
    assert Serial(c)[0..4] == LE32(|c.fields|) && Serial(c)[4..8] == LE32(Size(c));
  }
}
