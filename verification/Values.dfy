/** Capsule values, and the wire format as a function of the value: what encoder, size builder and decoder must agree on. */
module Values {
  import opened Bytes

  datatype Capsule = Capsule(fields: seq<Field>)

  datatype Field = Field(hash: u32, value: Value)

  /** A field's value. Signed and floating-point fields are their bit patterns. */
  datatype Value =
    | Bool(flag: bool)
    | Int8(v8: byte)
    | Int16(v16: u16)
    | Int32(v32: u32)
    | Int64(v64: u64)
    | Text(text: seq<byte>)
    | Texts(texts: seq<seq<byte>>)
    | Nested(capsule: Capsule)
    | Many(capsules: seq<Capsule>)

  type u16 = x: int | 0 <= x < 0x1_0000

  const HEADER: nat := 8
  const ENTRY: nat := 8
  const PADDING: nat := 0xda4e_da4e

  // ---- Predicted sizes ----

  /** What ComputeStorageSize predicts. */
  function Size(c: Capsule): nat
    decreases c
  {
    HEADER + ENTRY * |c.fields| + FieldsSize(c.fields)
  }

  function FieldsSize(fs: seq<Field>): nat
    decreases fs
  {
    if fs == [] then 0 else FieldsSize(fs[..|fs| - 1]) + FieldSize(fs[|fs| - 1])
  }

  function FieldSize(f: Field): nat
    decreases f
  {
    ValueSize(f.value)
  }

  function ValueSize(v: Value): nat
    decreases v
  {
    match v
    case Int64(_) => 8
    case Text(s) => RoundUp8(4 + |s|)
    case Texts(ss) => 8 + TextsSize(ss)
    case Nested(c) => Size(c)
    case Many(cs) => 8 + CapsulesSize(cs)
    case _ => 0
  }

  function TextsSize(ss: seq<seq<byte>>): nat {
    if ss == [] then 0 else TextsSize(ss[..|ss| - 1]) + RoundUp8(4 + |ss[|ss| - 1]|)
  }

  function CapsulesSize(cs: seq<Capsule>): nat
    decreases cs
  {
    if cs == [] then 0 else CapsulesSize(cs[..|cs| - 1]) + Size(cs[|cs| - 1])
  }

  // ---- Bytes ----

  /** The serialized capsule: header, offset table, payload area. */
  function Serial(c: Capsule): seq<byte>
    decreases c
  {
    LE32(|c.fields|) + LE32(Size(c)) + Table(c.fields, HEADER + ENTRY * |c.fields|) + Payloads(c.fields)
  }

  /** Offset table entries of the fields fs, whose payloads start at offset start. */
  function Table(fs: seq<Field>, start: nat): (r: seq<byte>)
    ensures |r| == ENTRY * |fs|
  {
    if fs == [] then []
    else
      var rest, f := fs[..|fs| - 1], fs[|fs| - 1];
      Table(rest, start) + Entry(f.hash, Slot(f.value, start + FieldsSize(rest)))
  }

  function Entry(hash: u32, word: nat): (r: seq<byte>)
    ensures |r| == ENTRY
  {
    LE32(hash) + LE32(word)
  }

  /** The word stored in a field's table entry: a tagged literal, or the offset of its payload. */
  function Slot(v: Value, offset: nat): nat {
    match v
    case Bool(b) => 0xBBBB_BBB0 + (if b then 1 else 0)
    case Int8(x) => 0x8888_8800 + x
    case Int16(x) => 0x1616_0000 + x
    case Int32(x) => x
    case _ => offset
  }

  function Payloads(fs: seq<Field>): seq<byte>
    decreases fs
  {
    if fs == [] then [] else Payloads(fs[..|fs| - 1]) + FieldPayload(fs[|fs| - 1])
  }

  function FieldPayload(f: Field): seq<byte>
    decreases f
  {
    Payload(f.value)
  }

  function Payload(v: Value): seq<byte>
    decreases v
  {
    match v
    case Int64(x) => LE64(x)
    case Text(s) => TextBytes(s)
    case Texts(ss) => VectorHeader(|ss|) + TextsBytes(ss)
    case Nested(c) => Serial(c)
    case Many(cs) => VectorHeader(|cs|) + CapsulesBytes(cs)
    case _ => []
  }

  function Padding(n: nat): (r: seq<byte>)
    ensures |r| == n
  {
    seq(n, _ => 0xda)
  }

  function TextBytes(s: seq<byte>): (r: seq<byte>)
    ensures |r| == RoundUp8(4 + |s|)
  {
    LE32(|s|) + s + Padding(RoundUp8(4 + |s|) - 4 - |s|)
  }

  function VectorHeader(count: nat): (r: seq<byte>)
    ensures |r| == 8
  {
    LE32(count) + LE32(PADDING)
  }

  function TextsBytes(ss: seq<seq<byte>>): (r: seq<byte>)
    ensures |r| == TextsSize(ss)
  {
    if ss == [] then [] else TextsBytes(ss[..|ss| - 1]) + TextBytes(ss[|ss| - 1])
  }

  function CapsulesBytes(cs: seq<Capsule>): seq<byte>
    decreases cs
  {
    if cs == [] then [] else CapsulesBytes(cs[..|cs| - 1]) + Serial(cs[|cs| - 1])
  }

  // ---- The prediction is the length, and everything stays 8-aligned ----

  lemma {:induction false} SerialLength(c: Capsule)
    ensures |Serial(c)| == Size(c) && Size(c) % 8 == 0
    decreases c
  {
    hide LE32, Table, Payloads, FieldsSize;
    PayloadsLength(c.fields);
  }

  lemma {:induction false} PayloadsLength(fs: seq<Field>)
    ensures |Payloads(fs)| == FieldsSize(fs) && FieldsSize(fs) % 8 == 0
    decreases fs
  {
    if fs != [] {
      PayloadsLength(fs[..|fs| - 1]);
      FieldLength(fs[|fs| - 1]);
    }
  }

  lemma {:induction false} FieldLength(f: Field)
    ensures |FieldPayload(f)| == FieldSize(f) && FieldSize(f) % 8 == 0
    decreases f
  {
    PayloadLength(f.value);
  }

  lemma {:induction false} PayloadLength(v: Value)
    ensures |Payload(v)| == ValueSize(v) && ValueSize(v) % 8 == 0
    decreases v
  {
    hide LE32, RoundUp8, Serial, Size, TextsBytes, TextsSize, CapsulesBytes, CapsulesSize;
    match v
    case Texts(ss) => TextsAligned(ss);
    case Nested(c) => SerialLength(c);
    case Many(cs) => CapsulesLength(cs);
    case _ =>
  }

  lemma {:induction false} TextsAligned(ss: seq<seq<byte>>)
    ensures TextsSize(ss) % 8 == 0
  {
    if ss != [] {
      TextsAligned(ss[..|ss| - 1]);
    }
  }

  lemma {:induction false} CapsulesLength(cs: seq<Capsule>)
    ensures |CapsulesBytes(cs)| == CapsulesSize(cs) && CapsulesSize(cs) % 8 == 0
    decreases cs
  {
    hide Serial, Size;
    if cs != [] {
      CapsulesLength(cs[..|cs| - 1]);
      SerialLength(cs[|cs| - 1]);
    }
  }
}
