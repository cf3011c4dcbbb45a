/** capsule/encoder.h and capsule/encoder.cc: writing a capsule into a range of one shared byte array. */
module Encoders {
  import opened Bytes
  import opened Values
  import opened SizeBuilders

  /** encoding_result_: the first error wins. */
  datatype Outcome = Ok | SpaceOverflow | SlotOverflow | SubcapsuleLies {
    function Then(later: Outcome): Outcome {
      if this.Ok? then later else this
    }
  }

  const LIMIT: nat := 0x1_0000_0000

  class Encoder {
    const parent: Encoder?
    const buf: array<byte>
    const base: nat
    const fieldCount: nat
    var payloadCursor: nat
    var payloadBytesRemain: nat
    var fieldCursor: nat
    var result: Outcome
    /** This encoder and all its ancestors. */
    ghost const chain: set<Encoder>
    ghost const length: nat

    /** Cursor and remaining bytes always add up to the length, and the table lies before the payload area. */
    ghost predicate Valid()
      reads this
    {
      && Chained()
      && base + length <= buf.Length && length < LIMIT
      && payloadCursor + payloadBytesRemain == length
      && HEADER + ENTRY * fieldCount <= payloadCursor
      && fieldCursor <= fieldCount
    }

    ghost predicate Chained()
      decreases chain
    {
      && this in chain
      && (parent == null ==> chain == {this})
      && (parent != null ==> this !in parent.chain && chain == {this} + parent.chain && parent.Chained())
    }

    /** Every encoder from here to the root has taken in the outcome o. */
    twostate predicate Recorded(o: Outcome)
      reads chain
    {
      forall e <- chain :: e.result == old(e.result).Then(o)
    }

    /** The memory mem once the table entry numbered slot, if there is one, holds hash and word. */
    ghost function WithEntry(mem: seq<byte>, slot: nat, hash: u32, word: nat): (r: seq<byte>)
      requires base + HEADER + ENTRY * fieldCount <= |mem|
      ensures |r| == |mem|
    {
      if slot < fieldCount then Put(mem, base + HEADER + ENTRY * slot, Entry(hash, word)) else mem
    }

    /** A table entry was claimed for hash and word, or an overflow recorded if none is left. */
    twostate predicate Claimed(hash: u32, word: nat)
      requires old(Valid())
      reads this, chain
    {
      if old(fieldCursor) < fieldCount then Recorded(Ok) && fieldCursor == old(fieldCursor) + 1
      else Recorded(SlotOverflow) && fieldCursor == old(fieldCursor)
    }

    /** The payload did not fit: the overflow is recorded and all cursors stay where they were. */
    twostate predicate Refused()
      reads this, chain
    {
      && Recorded(SpaceOverflow)
      && payloadCursor == old(payloadCursor) && payloadBytesRemain == old(payloadBytesRemain)
      && fieldCursor == old(fieldCursor)
    }

    /** The field claimed a table entry and appended its payload; no other byte changed. */
    twostate predicate Added(hash: u32, word: nat, payload: seq<byte>)
      requires old(Valid()) && |payload| <= old(payloadBytesRemain)
      reads this, buf, chain
    {
      && Claimed(hash, word)
      && payloadCursor == old(payloadCursor) + |payload|
      && payloadBytesRemain == old(payloadBytesRemain) - |payload|
      && buf[..] == Put(WithEntry(old(buf[..]), old(fieldCursor), hash, word), base + old(payloadCursor), payload)
    }

    /** Lays out the empty table and writes the header. */
    constructor (buf: array<byte>, base: nat, length: nat, fieldCount: nat, parent: Encoder?)
      requires base + length <= buf.Length && length < LIMIT
      requires HEADER + ENTRY * fieldCount <= length
      requires parent != null ==> parent.Chained()
      modifies buf
      ensures Valid() && result == Ok
      ensures this.buf == buf && this.base == base && this.length == length
      ensures this.fieldCount == fieldCount && this.parent == parent
      ensures chain == {this} + (if parent == null then {} else parent.chain)
      ensures fieldCursor == 0 && payloadCursor == HEADER + ENTRY * fieldCount
      ensures buf[..] == Put(old(buf[..]), base, LE32(fieldCount) + LE32(length))
    {
      this.parent, this.buf, this.base, this.length := parent, buf, base, length;
      this.fieldCount := fieldCount;
      payloadCursor := HEADER + ENTRY * fieldCount;
      payloadBytesRemain := length - HEADER - ENTRY * fieldCount;
      fieldCursor := 0;
      result := Ok;
      chain := {this} + (if parent == null then {} else parent.chain);
      new;
      hide LE32;
      Store(buf, base, LE32(fieldCount) + LE32(length));
    }

    /** SetIfOk: the error reaches this encoder and every ancestor that has none yet. */
    method SetIfOk(r: Outcome)
      requires Chained()
      modifies chain`result
      ensures Recorded(r)
    {
      if result.Ok? {
        result := r;
      }
      var e := parent;
      while e != null
        invariant e != null ==> e.Chained() && e.chain <= chain
        invariant forall x <- chain ::
          x.result == if e != null && x in e.chain then old(x.result) else old(x.result).Then(r)
        decreases if e == null then {} else e.chain
      {
        if e.result.Ok? {
          e.result := r;
        }
        e := e.parent;
      }
    }

    method AddU32(hash: u32, value: nat)
      requires Valid()
      modifies this`fieldCursor, chain`result, buf
      ensures Valid()
      ensures Claimed(hash, value)
      ensures buf[..] == WithEntry(old(buf[..]), old(fieldCursor), hash, value)
    {
      hide LE32, Put;
      if fieldCursor >= fieldCount {
        SetIfOk(SlotOverflow);
        return;
      }
      var ote := base + HEADER + ENTRY * fieldCursor;
      fieldCursor := fieldCursor + 1;
      Store(buf, ote, Entry(hash, value));
    }

    /** AddU32 and the tagged adders that end in it: a literal stored in the table entry itself. */
    method AddLiteral(hash: u32, v: Value)
      requires Valid() && (v.Bool? || v.Int8? || v.Int16? || v.Int32?)
      modifies this`fieldCursor, chain`result, buf
      ensures Valid()
      ensures Added(hash, Slot(v, old(payloadCursor)), Payload(v))
    {
      hide LE32, Put;
      match v {
        case Bool(b) => AddU32(hash, 0xBBBB_BBB0 + (if b then 1 else 0));
        case Int8(x) => AddU32(hash, 0x8888_8800 + x);
        case Int16(x) => AddU32(hash, 0x1616_0000 + x);
        case Int32(x) => AddU32(hash, x);
      }
      PutEmpty(buf[..], base + payloadCursor);
    }

    method AddU64(hash: u32, value: u64)
      requires Valid()
      modifies this`fieldCursor, this`payloadCursor, this`payloadBytesRemain, chain`result, buf
      ensures Valid()
      ensures if 8 <= old(payloadBytesRemain) then Added(hash, old(payloadCursor), LE64(value))
              else Refused() && buf[..] == old(buf[..])
    {
      hide LE32, LE64, Put;
      if payloadBytesRemain < 8 {
        SetIfOk(SpaceOverflow);
        return;
      }
      AddU32(hash, payloadCursor);
      Store(buf, base + payloadCursor, LE64(value));
      payloadCursor := payloadCursor + 8;
      payloadBytesRemain := payloadBytesRemain - 8;
    }

    method AddString(hash: u32, s: seq<byte>)
      requires Valid()
      requires RoundUp8(4 + |s|) < LIMIT
      modifies this`fieldCursor, this`payloadCursor, this`payloadBytesRemain, chain`result, buf
      ensures Valid()
      ensures if |TextBytes(s)| <= old(payloadBytesRemain) then Added(hash, old(payloadCursor), TextBytes(s))
              else Refused() && buf[..] == old(buf[..])
    {
      hide LE32, Put, RoundUp8;
      var totalWrite := (4 + |s| + 7) / 8 * 8;
      assert totalWrite == RoundUp8(4 + |s|) by { RoundUp8Is(4 + |s|); }
      var padding := totalWrite - |s| - 4;
      if totalWrite > payloadBytesRemain {
        SetIfOk(SpaceOverflow);
        return;
      }
      AddU32(hash, payloadCursor);
      ghost var mem := buf[..];
      var dst := base + payloadCursor;
      Store(buf, dst, LE32(|s|));
      Store(buf, dst + 4, s);
      PutAppend(mem, dst, LE32(|s|), s);
      Store(buf, dst + 4 + |s|, Padding(padding));
      PutAppend(mem, dst, LE32(|s|) + s, Padding(padding));
      payloadCursor := payloadCursor + totalWrite;
      payloadBytesRemain := payloadBytesRemain - totalWrite;
    }

    method AddStringVector(hash: u32, v: seq<seq<byte>>)
      requires Valid()
      requires 8 + TextsSize(v) < LIMIT
      modifies this`fieldCursor, this`payloadCursor, this`payloadBytesRemain, chain`result, buf
      ensures Valid()
      ensures var payload := VectorHeader(|v|) + TextsBytes(v);
              if |payload| <= old(payloadBytesRemain) then Added(hash, old(payloadCursor), payload)
              else Refused() && buf[..] == old(buf[..])
    {
      hide LE32, Put, RoundUp8;
      var payloadSize := StringVectorSize(v);
      if payloadBytesRemain < payloadSize {
        SetIfOk(SpaceOverflow);
        return;
      }
      AddU32(hash, payloadCursor);
      StoreStringVector(base + payloadCursor, v);
      payloadCursor := payloadCursor + payloadSize;
      payloadBytesRemain := payloadBytesRemain - payloadSize;
    }

    method StoreStringVector(start: nat, v: seq<seq<byte>>)
      requires start + 8 + TextsSize(v) <= buf.Length
      modifies buf
      ensures buf[..] == Put(old(buf[..]), start, VectorHeader(|v|) + TextsBytes(v))
    {
      hide LE32, Put, RoundUp8, VectorHeader, TextBytes, TextsBytes, TextsSize;
      ghost var mem, header := buf[..], VectorHeader(|v|);
      Store(buf, start, VectorHeader(|v|));
      var dst := start + 8;
      NoTexts(header);
      for i := 0 to |v|
        invariant dst == start + 8 + TextsSize(v[..i])
        invariant TextsSize(v[..i]) <= TextsSize(v)
        invariant buf[..] == Put(mem, start, header + TextsBytes(v[..i]))
      {
        TextsStep(v, i);
        dst := StoreElement(dst, v[i], start, mem, header + TextsBytes(v[..i]));
        assert header + TextsBytes(v[..i]) + TextBytes(v[i]) == header + TextsBytes(v[..i + 1]);
      }
      assert v[..|v|] == v;
    }

    static lemma NoTexts(header: seq<byte>)
      ensures TextsSize([]) == 0 && TextsBytes([]) == [] && header + TextsBytes([]) == header
    {
    }

    static lemma TextsStep(v: seq<seq<byte>>, i: nat)
      requires i < |v|
      ensures TextsSize(v[..i + 1]) == TextsSize(v[..i]) + RoundUp8(4 + |v[i]|) <= TextsSize(v)
      ensures TextsBytes(v[..i + 1]) == TextsBytes(v[..i]) + TextBytes(v[i])
    {
      hide RoundUp8, TextBytes;
      assert v[..i + 1][..i] == v[..i];
      TextsSizeMonotone(v, i + 1);
    }

    /** One element of a string vector: length, bytes, padding to a multiple of eight. */
    method StoreElement(dst: nat, s: seq<byte>, ghost start: nat, ghost mem: seq<byte>, ghost before: seq<byte>)
      returns (next: nat)
      requires start + |before| == dst && dst + RoundUp8(4 + |s|) <= buf.Length == |mem|
      requires buf[..] == Put(mem, start, before)
      modifies buf
      ensures next == dst + RoundUp8(4 + |s|)
      ensures buf[..] == Put(mem, start, before + TextBytes(s))
    {
      hide LE32, Put, RoundUp8;
      var padding := (8 - (|s| + 4) % 8) % 8;
      assert padding == RoundUp8(4 + |s|) - 4 - |s| by { RoundUp8Is(4 + |s|); }
      Store(buf, dst, LE32(|s|));
      PutAppend(mem, start, before, LE32(|s|));
      Store(buf, dst + 4, s);
      PutAppend(mem, start, before + LE32(|s|), s);
      Store(buf, dst + 4 + |s|, Padding(padding));
      PutAppend(mem, start, before + LE32(|s|) + s, Padding(padding));
      next := dst + 4 + |s| + padding;
      assert before + LE32(|s|) + s + Padding(padding) == before + TextBytes(s);
    }

    static lemma RoundUp8Is(n: nat)
      ensures RoundUp8(n) == (n + 7) / 8 * 8 == n + (8 - n % 8) % 8
    {
    }

    static lemma {:induction false} TextsSizeMonotone(v: seq<seq<byte>>, i: nat)
      requires i <= |v|
      ensures TextsSize(v[..i]) <= TextsSize(v)
      decreases |v|
    {
      if i < |v| {
        TextsSizeMonotone(v[..|v| - 1], i);
        assert v[..|v| - 1][..i] == v[..i];
      } else {
        assert v[..i] == v;
      }
    }

    /** Seal: the header's length word becomes the payload cursor. */
    method Seal() returns (encodedLength: nat)
      requires Valid()
      modifies buf
      ensures encodedLength == payloadCursor
      ensures buf[..] == Put(old(buf[..]), base + 4, LE32(payloadCursor))
    {
      hide LE32, Put;
      Store(buf, base + 4, LE32(payloadCursor));
      encodedLength := payloadCursor;
    }

    /**
     * The generated Encode, run on an encoder built for exactly this capsule: every field finds its room, the offset
     * table and the payload area come out as the format prescribes, and nothing outside this encoder's range changes.
     */
    method Encode(c: Capsule)
      requires Valid()
      requires fieldCount == |c.fields| && fieldCursor == 0
      requires payloadCursor == HEADER + ENTRY * fieldCount && length == Size(c)
      modifies this`fieldCursor, this`payloadCursor, this`payloadBytesRemain, chain`result, buf
      ensures Valid() && Recorded(Ok)
      ensures payloadCursor == length && fieldCursor == fieldCount
      ensures |Serial(c)| == length
      ensures buf[..] == Put(old(buf[..]), base + HEADER, Serial(c)[HEADER..])
      decreases c, 1
    {
      hide LE32, Put, Serial, FieldsSize, Table, Payloads, Payload, ValueSize, Slot;
      var fs, tableEnd := c.fields, HEADER + ENTRY * |c.fields|;
      ghost var mem := old(buf[..]);
      SerialTail(c);
      NoFields(tableEnd);
      PutEmpty(mem, base + HEADER);
      PutEmpty(mem, base + tableEnd);
      for i := 0 to |fs|
        invariant Valid() && Recorded(Ok)
        invariant fieldCursor == i && payloadCursor == tableEnd + FieldsSize(fs[..i])
        invariant |Payloads(fs[..i])| == FieldsSize(fs[..i]) <= FieldsSize(fs)
        invariant buf[..] == Put(Put(mem, base + HEADER, Table(fs[..i], tableEnd)), base + tableEnd, Payloads(fs[..i]))
      {
        FieldsStep(fs, i, tableEnd);
        ghost var word := Slot(fs[i].value, payloadCursor);
        AddField(fs[i]);
        PutTwo(mem, base + HEADER, Table(fs[..i], tableEnd), Entry(fs[i].hash, word),
               base + tableEnd, Payloads(fs[..i]), Payload(fs[i].value));
      }
      assert fs[..|fs|] == fs;
      PutAppend(mem, base + HEADER, Table(fs, tableEnd), Payloads(fs));
    }

    method AddField(f: Field)
      requires Valid() && ValueSize(f.value) < LIMIT
      modifies this`fieldCursor, this`payloadCursor, this`payloadBytesRemain, chain`result, buf
      ensures Valid()
      ensures |Payload(f.value)| == ValueSize(f.value)
      ensures if ValueSize(f.value) <= old(payloadBytesRemain)
              then Added(f.hash, Slot(f.value, old(payloadCursor)), Payload(f.value))
              else Refused()
      decreases f
    {
      hide LE32, Put, Size, Serial;
      PayloadLength(f.value);
      match f.value {
        case Int64(x) => AddU64(f.hash, x);
        case Text(s) => AddString(f.hash, s);
        case Texts(ss) => AddStringVector(f.hash, ss);
        case Nested(c) => AddCapsule(f.hash, c);
        case Many(cs) => AddCapsuleVector(f.hash, cs);
        case _ => AddLiteral(f.hash, f.value);
      }
    }

    /** Add for a nested capsule: reserve its predicted size, then let a child encoder fill exactly that range. */
    method AddCapsule(hash: u32, c: Capsule)
      requires Valid() && Size(c) < LIMIT
      modifies this`fieldCursor, this`payloadCursor, this`payloadBytesRemain, chain`result, buf
      ensures Valid()
      ensures |Serial(c)| == Size(c)
      ensures if Size(c) <= old(payloadBytesRemain) then Added(hash, old(payloadCursor), Serial(c)) else Refused()
      decreases c, 3
    {
      hide LE32, Put, Serial;
      SerialLength(c);
      var len := ComputeStorageSize(c);
      if len > payloadBytesRemain {
        SetIfOk(SpaceOverflow);
        return;
      }
      AddU32(hash, payloadCursor);
      var dst := base + payloadCursor;
      payloadCursor := payloadCursor + len;
      payloadBytesRemain := payloadBytesRemain - len;
      EncodeChild(dst, c);
    }

    /** A child encoder over [dst, dst + Size(c)) writes the whole serialized capsule there and reports no error. */
    method EncodeChild(dst: nat, c: Capsule)
      requires Valid() && Size(c) < LIMIT
      requires dst + Size(c) <= buf.Length
      modifies chain`result, buf
      ensures Recorded(Ok)
      ensures |Serial(c)| == Size(c)
      ensures buf[..] == Put(old(buf[..]), dst, Serial(c))
      decreases c, 2
    {
      hide LE32, Put, Serial;
      var len := ComputeStorageSize(c);
      ghost var mem, n := buf[..], |c.fields|;
      var e := new Encoder(buf, dst, len, |c.fields|, this);
      e.Encode(c);
      var encodedLength := e.Seal();
      WholeSerial(mem, dst, c);
      if encodedLength != len {
        assert false; // ErrorSubcapsuleLies never fires: the prediction is exact.
      }
    }

    method AddCapsuleVector(hash: u32, v: seq<Capsule>)
      requires Valid() && 8 + CapsulesSize(v) < LIMIT
      modifies this`fieldCursor, this`payloadCursor, this`payloadBytesRemain, chain`result, buf
      ensures Valid()
      ensures |CapsulesBytes(v)| == CapsulesSize(v)
      ensures var payload := VectorHeader(|v|) + CapsulesBytes(v);
              if |payload| <= old(payloadBytesRemain) then Added(hash, old(payloadCursor), payload)
              else Refused() && buf[..] == old(buf[..])
      decreases v, 1
    {
      hide LE32, Put, Serial, Size, VectorHeader, CapsulesBytes, CapsulesSize;
      CapsulesLength(v);
      var payloadSize := CapsuleVectorSize(v);
      if payloadBytesRemain < payloadSize {
        SetIfOk(SpaceOverflow);
        return;
      }
      AddU32(hash, payloadCursor);
      var dst := base + payloadCursor;
      ghost var mem, start, header := buf[..], dst, VectorHeader(|v|);
      Store(buf, dst, VectorHeader(|v|));
      payloadCursor := payloadCursor + 8;
      payloadBytesRemain := payloadBytesRemain - 8;
      AddElements(dst + 8, v, start, mem, header);
    }

    /** The elements of a capsule vector, one child encoder after another. */
    method AddElements(first: nat, v: seq<Capsule>, ghost start: nat, ghost mem: seq<byte>, ghost header: seq<byte>)
      requires Valid() && CapsulesSize(v) <= payloadBytesRemain
      requires first == base + payloadCursor == start + |header|
      requires start + |header| <= |mem| && buf[..] == Put(mem, start, header)
      modifies this`payloadCursor, this`payloadBytesRemain, chain`result, buf
      ensures Valid() && Recorded(Ok)
      ensures payloadCursor == old(payloadCursor) + CapsulesSize(v)
      ensures |CapsulesBytes(v)| == CapsulesSize(v)
      ensures buf[..] == Put(mem, start, header + CapsulesBytes(v))
      decreases v, 0
    {
      hide LE32, Put, Serial, Size, CapsulesBytes, CapsulesSize;
      CapsulesLength(v);
      NoCapsules(header);
      var dst := first;
      for i := 0 to |v|
        invariant Valid() && Recorded(Ok)
        invariant payloadCursor == old(payloadCursor) + CapsulesSize(v[..i])
        invariant dst == base + payloadCursor
        invariant |CapsulesBytes(v[..i])| == CapsulesSize(v[..i]) <= CapsulesSize(v)
        invariant buf[..] == Put(mem, start, header + CapsulesBytes(v[..i]))
      {
        CapsulesStep(v, i);
        var subcapsuleLength := ComputeStorageSize(v[i]);
        EncodeChild(dst, v[i]);
        PutAppend(mem, start, header + CapsulesBytes(v[..i]), Serial(v[i]));
        assert header + CapsulesBytes(v[..i]) + Serial(v[i]) == header + CapsulesBytes(v[..i + 1]);
        dst := dst + subcapsuleLength;
        payloadBytesRemain := payloadBytesRemain - subcapsuleLength;
        payloadCursor := payloadCursor + subcapsuleLength;
      }
      assert v[..|v|] == v;
    }

    static lemma NoFields(tableEnd: nat)
      ensures FieldsSize([]) == 0 && Table([], tableEnd) == [] && Payloads([]) == []
    {
    }

    static lemma NoCapsules(header: seq<byte>)
      ensures CapsulesSize([]) == 0 && CapsulesBytes([]) == [] && header + CapsulesBytes([]) == header
    {
    }

    /** What one more field adds to the table, the payload area and the predicted size. */
    static lemma FieldsStep(fs: seq<Field>, i: nat, tableEnd: nat)
      requires i < |fs|
      ensures FieldsSize(fs[..i + 1]) == FieldsSize(fs[..i]) + ValueSize(fs[i].value) <= FieldsSize(fs)
      ensures Table(fs[..i + 1], tableEnd)
           == Table(fs[..i], tableEnd) + Entry(fs[i].hash, Slot(fs[i].value, tableEnd + FieldsSize(fs[..i])))
      ensures Payloads(fs[..i + 1]) == Payloads(fs[..i]) + Payload(fs[i].value)
      ensures |Payloads(fs[..i + 1])| == FieldsSize(fs[..i + 1])
    {
      hide LE32, ValueSize, Payload, Slot;
      assert fs[..i + 1][..i] == fs[..i];
      PayloadsLength(fs[..i + 1]);
      FieldsSizeMonotone(fs, i + 1);
    }

    static lemma {:induction false} FieldsSizeMonotone(fs: seq<Field>, i: nat)
      requires i <= |fs|
      ensures FieldsSize(fs[..i]) <= FieldsSize(fs)
      decreases |fs|
    {
      if i < |fs| {
        FieldsSizeMonotone(fs[..|fs| - 1], i);
        assert fs[..|fs| - 1][..i] == fs[..i];
      } else {
        assert fs[..i] == fs;
      }
    }

    static lemma CapsulesStep(v: seq<Capsule>, i: nat)
      requires i < |v|
      ensures CapsulesSize(v[..i + 1]) == CapsulesSize(v[..i]) + Size(v[i]) <= CapsulesSize(v)
      ensures CapsulesBytes(v[..i + 1]) == CapsulesBytes(v[..i]) + Serial(v[i])
      ensures |Serial(v[i])| == Size(v[i])
    {
      hide Size, Serial;
      assert v[..i + 1][..i] == v[..i];
      SerialLength(v[i]);
      CapsulesSizeMonotone(v, i + 1);
    }

    static lemma {:induction false} CapsulesSizeMonotone(v: seq<Capsule>, i: nat)
      requires i <= |v|
      ensures CapsulesSize(v[..i]) <= CapsulesSize(v)
      decreases |v|
    {
      hide Size;
      if i < |v| {
        CapsulesSizeMonotone(v[..|v| - 1], i);
        assert v[..|v| - 1][..i] == v[..i];
      } else {
        assert v[..i] == v;
      }
    }

    static lemma SerialTail(c: Capsule)
      ensures |Serial(c)| == Size(c) == HEADER + ENTRY * |c.fields| + FieldsSize(c.fields)
      ensures Serial(c)[HEADER..] == Table(c.fields, HEADER + ENTRY * |c.fields|) + Payloads(c.fields)
      ensures Serial(c)[..HEADER] == LE32(|c.fields|) + LE32(Size(c))
    {
      SerialLength(c);
      hide LE32, FieldsSize, Table, Payloads;
    }

    /** Header, contents and the sealed length together are the serialized capsule. */
    static lemma WholeSerial(mem: seq<byte>, dst: nat, c: Capsule)
      requires dst + Size(c) <= |mem|
      ensures |Serial(c)| == Size(c) >= HEADER
      ensures Put(Put(Put(mem, dst, LE32(|c.fields|) + LE32(Size(c))), dst + HEADER, Serial(c)[HEADER..]),
                  dst + 4, LE32(Size(c)))
           == Put(mem, dst, Serial(c))
    {
      SerialTail(c);
      hide LE32, Serial, Size;
      ghost var s, head := Serial(c), LE32(|c.fields|) + LE32(Size(c));
      assert s == head + s[HEADER..];
      PutAppend(mem, dst, head, s[HEADER..]);
      PutInside(mem, dst, s, 4, LE32(Size(c)));
      assert Put(s, 4, LE32(Size(c))) == s;
    }
  }

  method StringVectorSize(v: seq<seq<byte>>) returns (payloadSize: nat)
    ensures payloadSize == 8 + TextsSize(v)
  {
    payloadSize := 8;
    for i := 0 to |v|
      invariant payloadSize == 8 + TextsSize(v[..i])
    {
      payloadSize := payloadSize + (4 + |v[i]| + 7) / 8 * 8;
      assert v[..i + 1][..i] == v[..i];
    }
    assert v[..|v|] == v;
  }

  method CapsuleVectorSize(v: seq<Capsule>) returns (payloadSize: nat)
    ensures payloadSize == 8 + CapsulesSize(v)
  {
    hide Size;
    payloadSize := 8;
    for i := 0 to |v|
      invariant payloadSize == 8 + CapsulesSize(v[..i])
    {
      var size := ComputeStorageSize(v[i]);
      payloadSize := payloadSize + size;
      assert v[..i + 1][..i] == v[..i];
    }
    assert v[..|v|] == v;
  }
}
