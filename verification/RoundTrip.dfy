/** Decoding what the encoder wrote, under the writer's own schema or any compatible one. */
module RoundTrips {
  import opened Basics
  import opened Bytes
  import opened Values
  import opened FlatMaps
  import opened Decoders

  ghost predicate Holds(mem: seq<byte>, at: nat, xs: seq<byte>) {
    at + |xs| <= |mem| && mem[at..at + |xs|] == xs
  }

  lemma HoldsSplit(mem: seq<byte>, at: nat, a: seq<byte>, b: seq<byte>)
    requires Holds(mem, at, a + b)
    ensures Holds(mem, at, a) && Holds(mem, at + |a|, b)
  {
    var m := mem[at..at + |a| + |b|];
    assert mem[at..at + |a|] == m[..|a|] == a;
    assert mem[at + |a|..at + |a| + |b|] == m[|a|..] == b;
  }

  lemma HoldsPart(mem: seq<byte>, at: nat, a: seq<byte>, b: seq<byte>, c: seq<byte>)
    requires Holds(mem, at, a + b + c)
    ensures Holds(mem, at, a) && Holds(mem, at + |a|, b) && Holds(mem, at + |a| + |b|, c)
  {
    HoldsSplit(mem, at, a + b, c);
    HoldsSplit(mem, at, a, b);
  }

  // ---- What decoding means, on values alone ----

  ghost predicate Distinct(fs: seq<Field>) {
    forall i, j :: 0 <= i < j < |fs| ==> fs[i].hash != fs[j].hash
  }

  /** The value the writer stored under a hash. */
  function Stored(fs: seq<Field>, h: u32): Option<Value> {
    if fs == [] then None
    else if fs[|fs| - 1].hash == h then Some(fs[|fs| - 1].value)
    else Stored(fs[..|fs| - 1], h)
  }

  /** The value under the first of the first k hashes the writer used: the current name wins over former ones. */
  function FirstStored(fs: seq<Field>, hashes: seq<u32>, k: nat): Option<Value>
    requires k <= |hashes|
  {
    if k == 0 then None
    else
      var earlier := FirstStored(fs, hashes, k - 1);
      if earlier.Some? then earlier else Stored(fs, hashes[k - 1])
  }

  /** The writer's value is of the reader's type, all the way down. */
  ghost predicate Fits(ty: Ty, v: Value)
    decreases ty
  {
    match ty
    case TBool => v.Bool?
    case T8 => v.Int8?
    case T16 => v.Int16?
    case T32 => v.Int32?
    case T64 => v.Int64?
    case TText => v.Text?
    case TTexts => v.Texts?
    case TNested(s) => v.Nested? && Readable(s, v.capsule)
    case TMany(s) => v.Many? && forall c <- v.capsules :: Readable(s, c)
  }

  /** A writer's capsule whose hashes are distinct and whose fields, where the reader knows them, have its types. */
  ghost predicate Readable(s: Schema, c: Capsule)
    decreases s, 1
  {
    && Distinct(c.fields)
    && forall f <- s.fields :: FieldReadable(f, c.fields)
  }

  ghost predicate FieldReadable(f: FieldSpec, fs: seq<Field>)
    decreases f, 1
  {
    && f.hashes != []
    && var v := FirstStored(fs, f.hashes, |f.hashes|); v.Some? ==> Fits(f.ty, v.value)
  }

  /** What the reader should end up with: per field, the first stored value, else the default and no presence. */
  ghost function Expected(s: Schema, c: Capsule): Message
    requires Readable(s, c)
    decreases s, 1
  {
    Message(ExpectedFields(s.fields, c.fields))
  }

  ghost function ExpectedFields(fs: seq<FieldSpec>, w: seq<Field>): (r: seq<Got>)
    requires forall f <- fs :: FieldReadable(f, w)
    ensures |r| == |fs|
    decreases fs
  {
    if fs == [] then [] else ExpectedFields(fs[..|fs| - 1], w) + [ExpectedField(fs[|fs| - 1], w)]
  }

  ghost function ExpectedField(f: FieldSpec, w: seq<Field>): Got
    requires FieldReadable(f, w)
    decreases f, 1
  {
    match FirstStored(w, f.hashes, |f.hashes|)
    case None => Got(false, ExpectedAbsence(f.ty, f.default))
    case Some(v) => Got(true, ExpectedOut(f.ty, v))
  }

  /** What a field holds that the writer never wrote: scalars and strings the default, vectors nothing. */
  ghost function ExpectedAbsence(ty: Ty, default: Value): Out {
    match ty
    case TBool => Plain(default)
    case T8 => Plain(default)
    case T16 => Plain(default)
    case T32 => Plain(default)
    case T64 => Plain(default)
    case TText => Plain(default)
    case TTexts => Plain(Texts([]))
    case TNested(_) => Untouched
    case TMany(_) => Structs([])
  }

  ghost function ExpectedOut(ty: Ty, v: Value): Out
    requires Fits(ty, v)
    decreases ty
  {
    match ty
    case TNested(s) => Struct(Expected(s, v.capsule))
    case TMany(s) => Structs(ExpectedAll(s, v.capsules))
    case _ => Plain(v)
  }

  ghost function ExpectedAll(s: Schema, cs: seq<Capsule>): seq<Message>
    requires forall c <- cs :: Readable(s, c)
    decreases s, 2, |cs|
  {
    if cs == [] then [] else ExpectedAll(s, cs[..|cs| - 1]) + [Expected(s, cs[|cs| - 1])]
  }

  // ---- The decoder opens the encoded capsule ----

  /** Hash to table word, for the fields of a capsule. */
  function Slots(fs: seq<Field>, start: nat): map<u32, u32> {
    if fs == [] then map[]
    else
      var rest, f := fs[..|fs| - 1], fs[|fs| - 1];
      Slots(rest, start)[f.hash := Slot(f.value, start + FieldsSize(rest)) % WORD]
  }

  lemma {:induction false} SlotsKeys(fs: seq<Field>, start: nat, h: u32)
    ensures h in Slots(fs, start) <==> Stored(fs, h).Some?
    ensures h in Slots(fs, start) <==> exists i :: 0 <= i < |fs| && fs[i].hash == h
    decreases |fs|
  {
    hide FieldsSize, Slot;
    if fs != [] {
      SlotsKeys(fs[..|fs| - 1], start, h);
    }
  }

  lemma {:induction false} IndexOfTable(mem: seq<byte>, off: nat, fs: seq<Field>, start: nat)
    requires Holds(mem, off, Table(fs, start)) && Distinct(fs)
    requires start + FieldsSize(fs) < WORD
    ensures IndexTable(mem, off, |fs|) == Indexed(Slots(fs, start))
    decreases |fs|
  {
    hide LE32, Word32;
    if fs != [] {
      var rest, f, n := fs[..|fs| - 1], fs[|fs| - 1], |fs| - 1;
      var word := Slot(f.value, start + FieldsSize(rest));
      HoldsPart(mem, off, Table(rest, start), LE32(f.hash), LE32(word));
      assert Table(rest, start) + LE32(f.hash) + LE32(word) == Table(fs, start);
      IndexOfTable(mem, off, rest, start);
      SlotsKeys(rest, start, f.hash);
      WordOfLE32(f.hash);
      WordOfLE32(word);
      var at := off + 8 * n;
      assert mem[at..][..4] == mem[at..at + 4] == LE32(f.hash);
      assert mem[at + 4..][..4] == mem[at + 4..at + 8] == LE32(word);
    }
  }

  /** The view of an encoded capsule: its bytes in memory, its own length, its table as a map. */
  ghost predicate Sees(v: View, c: Capsule) {
    && Distinct(c.fields)
    && v.length == Size(c)
    && Holds(v.mem, v.base, Serial(c))
    && v.index == Slots(c.fields, HEADER + ENTRY * |c.fields|)
  }

  lemma SerialParts(mem: seq<byte>, base: nat, c: Capsule)
    requires Holds(mem, base, Serial(c))
    ensures |Serial(c)| == Size(c) == HEADER + ENTRY * |c.fields| + FieldsSize(c.fields) && Size(c) % 8 == 0
    ensures Holds(mem, base, LE32(|c.fields|)) && Holds(mem, base + 4, LE32(Size(c)))
    ensures Holds(mem, base + HEADER, Table(c.fields, HEADER + ENTRY * |c.fields|))
    ensures Holds(mem, base + HEADER + ENTRY * |c.fields|, Payloads(c.fields))
  {
    SerialLength(c);
    hide LE32, FieldsSize;
    var a, b := LE32(|c.fields|), LE32(Size(c));
    var t, p := Table(c.fields, HEADER + ENTRY * |c.fields|), Payloads(c.fields);
    HoldsPart(mem, base, a + b, t, p);
    HoldsSplit(mem, base, a, b);
  }

  /** Every check of Decoder::Build passes on an encoded capsule. */
  lemma Opens(mem: seq<byte>, base: nat, memoryLength: nat, c: Capsule)
    requires Holds(mem, base, Serial(c)) && Distinct(c.fields)
    requires Size(c) < WORD && Size(c) <= memoryLength && base + memoryLength <= |mem|
    ensures Open(mem, base, memoryLength).Opened?
    ensures var v := Open(mem, base, memoryLength).view; Sees(v, c) && v.mem == mem && v.base == base
  {
    hide LE32, Word32, FieldsSize, Table, Serial, Payloads;
    SerialParts(mem, base, c);
    WordOfLE32(|c.fields|);
    WordOfLE32(Size(c));
    IndexOfTable(mem, base + HEADER, c.fields, HEADER + ENTRY * |c.fields|);
  }

  /** Where field i's payload lies, and what its table entry says. */
  lemma FieldSeen(v: View, c: Capsule, i: nat)
    requires Sees(v, c) && i < |c.fields|
    ensures var f, off := c.fields[i], HEADER + ENTRY * |c.fields| + FieldsSize(c.fields[..i]);
            && f.hash in v.index && v.index[f.hash] == Slot(f.value, off)
            && Holds(v.mem, v.base + off, Payload(f.value))
            && |Payload(f.value)| == ValueSize(f.value)
            && off % 8 == 0 && off + ValueSize(f.value) <= Size(c)
  {
    hide LE32, Serial, Slot, ValueSize, Payload;
    var start := HEADER + ENTRY * |c.fields|;
    SerialParts(v.mem, v.base, c);
    FieldPlaced(v.mem, v.base + start, c.fields, i, start);
  }

  lemma {:induction false} FieldPlaced(mem: seq<byte>, at: nat, fs: seq<Field>, i: nat, start: nat)
    requires Holds(mem, at, Payloads(fs)) && i < |fs| && Distinct(fs)
    requires start + FieldsSize(fs) < WORD
    ensures var f, off := fs[i], FieldsSize(fs[..i]);
            && f.hash in Slots(fs, start) && Slots(fs, start)[f.hash] == Slot(f.value, start + off)
            && Holds(mem, at + off, Payload(f.value))
            && |Payload(f.value)| == ValueSize(f.value)
            && off % 8 == 0 && off + ValueSize(f.value) <= FieldsSize(fs)
    decreases |fs|
  {
    hide Holds, ValueSize, Payload, Slot;
    var n := |fs| - 1;
    var rest, f := fs[..n], fs[n];
    HoldsSplit(mem, at, Payloads(rest), Payload(f.value));
    PayloadsLength(rest);
    PayloadLength(f.value);
    if i < n {
      FieldPlaced(mem, at, rest, i, start);
      assert rest[..i] == fs[..i];
    } else {
      SlotBound(f.value, start + FieldsSize(rest));
    }
  }

  lemma SlotBound(v: Value, off: u32)
    ensures Slot(v, off) < WORD
  {
  }

  // ---- Each reader finds what was written ----

  /** The view lies in memory, and its table sends h to an aligned payload that lies within the capsule. */
  ghost predicate Points(v: View, h: u32, payload: seq<byte>) {
    && v.base + v.length <= |v.mem|
    && h in v.index && v.index[h] % 8 == 0
    && v.index[h] + |payload| <= v.length
    && Holds(v.mem, v.base + v.index[h], payload)
  }

  lemma TextHeld(mem: seq<byte>, at: nat, s: seq<byte>)
    requires Holds(mem, at, TextBytes(s)) && |s| < WORD
    ensures at + 4 + |s| <= |mem|
    ensures WordAt(mem, at) == |s| && mem[at + 4..at + 4 + |s|] == s
  {
    hide LE32, Word32, RoundUp8;
    WordOfLE32(|s|);
    HoldsPart(mem, at, LE32(|s|), s, Padding(RoundUp8(4 + |s|) - 4 - |s|));
  }

  lemma FindsText(v: View, h: u32, s: seq<byte>)
    requires Points(v, h, TextBytes(s))
    ensures FindText(v, h) == Here(Plain(Text(s)))
  {
    hide Holds, TextBytes, WordAt, RoundUp8;
    TextHeld(v.mem, v.base + v.index[h], s);
  }

  lemma Finds64(v: View, h: u32, x: u64)
    requires Points(v, h, LE64(x))
    ensures Find64(v, h) == Here(Plain(Int64(x)))
  {
    hide LE64, Word64;
    WordOfLE64(x);
  }

  lemma FindsScalar(v: View, h: u32, ty: Ty, x: Value, off: nat)
    requires (ty.TBool? || ty.T8? || ty.T16? || ty.T32?) && Fits(ty, x)
    requires h in v.index && v.index[h] == Slot(x, off)
    ensures FindScalar(v, ty, h) == Here(Plain(x))
  {
  }

  lemma VectorHeld(v: View, ptr: u32, n: nat, rest: seq<byte>)
    requires n < WORD && v.base + v.length <= |v.mem|
    requires Holds(v.mem, v.base + ptr, VectorHeader(n) + rest)
    requires ptr % 8 == 0 && ptr + 8 <= v.length
    ensures VectorAt(v, ptr) == Count(n)
    ensures Holds(v.mem, v.base + ptr + 8, rest)
  {
    hide LE32, Word32;
    WordOfLE32(n);
    WordOfLE32(PADDING);
    assert VectorHeader(n) + rest == LE32(n) + LE32(PADDING) + rest;
    HoldsPart(v.mem, v.base + ptr, LE32(n), LE32(PADDING), rest);
  }

  lemma TextElementHeld(v: View, ptr: nat, s: seq<byte>)
    requires v.base + v.length <= |v.mem| && ptr + RoundUp8(4 + |s|) <= v.length
    requires Holds(v.mem, v.base + ptr, TextBytes(s))
    ensures TextElement(v, ptr) == Element(s, ptr + RoundUp8(4 + |s|))
  {
    hide Holds, TextBytes, WordAt, RoundUp8;
    TextHeld(v.mem, v.base + ptr, s);
  }

  lemma {:induction false} TextsHeld(v: View, ptr: nat, ss: seq<seq<byte>>, bytes: seq<byte>)
    requires bytes == TextsBytes(ss) && Holds(v.mem, v.base + ptr, bytes)
    requires v.base + v.length <= |v.mem| && ptr + TextsSize(ss) <= v.length
    ensures TextElements(v, ptr, |ss|) == Elements(ss, ptr + TextsSize(ss))
    decreases |ss|
  {
    hide Holds, RoundUp8, TextBytes, TextElement;
    if ss != [] {
      hide TextElements;
      var rest, s := ss[..|ss| - 1], ss[|ss| - 1];
      var before, last := TextsBytes(rest), TextBytes(s);
      HoldsSplit(v.mem, v.base + ptr, before, last);
      TextsHeld(v, ptr, rest, before);
      TextElementHeld(v, ptr + TextsSize(rest), s);
      OneElementMore(v, ptr, |rest|, rest, ptr + TextsSize(rest), s, ptr + TextsSize(ss));
      assert rest + [s] == ss;
    }
  }

  lemma OneElementMore(v: View, ptr: u32, n: nat, ss: seq<seq<byte>>, next: u32, s: seq<byte>, after: u32)
    requires TextElements(v, ptr, n) == Elements(ss, next) && TextElement(v, next) == Element(s, after)
    ensures TextElements(v, ptr, n + 1) == Elements(ss + [s], after)
  {
    hide TextElement;
  }

  lemma FindsTexts(v: View, h: u32, ss: seq<seq<byte>>, bytes: seq<byte>)
    requires bytes == TextsBytes(ss) && Points(v, h, VectorHeader(|ss|) + bytes)
    ensures Decoders.FindTexts(v, h) == Here(Plain(Texts(ss)))
  {
    TextsCount(ss);
    hide Holds, VectorHeader, TextsBytes, TextsSize, TextElements, VectorAt;
    var ptr := v.index[h];
    VectorHeld(v, ptr, |ss|, bytes);
    TextsHeld(v, ptr + 8, ss, bytes);
    assert (ptr + 8) % WORD == ptr + 8;
  }

  lemma {:induction false} TextsCount(ss: seq<seq<byte>>)
    ensures |ss| <= TextsSize(ss)
  {
    if ss != [] {
      TextsCount(ss[..|ss| - 1]);
    }
  }

  lemma {:induction false} CapsulesCount(cs: seq<Capsule>)
    ensures |cs| <= CapsulesSize(cs)
  {
    hide FieldsSize;
    if cs != [] {
      CapsulesCount(cs[..|cs| - 1]);
    }
  }

  /** A serialized capsule in memory announces its own length, opens, and decodes. */
  lemma {:induction false} InnerDecodes(s: Schema, mem: seq<byte>, at: nat, c: Capsule)
    requires Holds(mem, at, Serial(c)) && Size(c) < WORD && Readable(s, c)
    ensures at + Size(c) <= |mem| && Size(c) >= 8
    ensures WordAt(mem, at + 4) == Size(c)
    ensures Open(mem, at, Size(c)).Opened?
    ensures DecodeStruct(s, Open(mem, at, Size(c)).view) == (Ok, Expected(s, c))
    decreases s, 2
  {
    SerialParts(mem, at, c);
    WordOfLE32(Size(c));
    Opens(mem, at, Size(c), c);
    hide LE32, Word32, Serial, Size, Open, Sees, DecodeStruct, Expected;
    Decodes(s, Open(mem, at, Size(c)).view, c);
  }

  lemma LessIs(length: nat, n: nat)
    requires n <= length < WORD
    ensures Less(length, n) == length - n
  {
  }

  lemma {:induction false} FindsNested(v: View, h: u32, s: Schema, c: Capsule)
    requires Points(v, h, Serial(c)) && |Serial(c)| == Size(c) && Readable(s, c)
    ensures FindNested(v, s, h) == Here(Struct(Expected(s, c)))
    decreases s, 3
  {
    hide Serial, Size, Open, DecodeStruct, Expected, Readable, Holds, WordAt, Less;
    var ptr := v.index[h];
    InnerDecodes(s, v.mem, v.base + ptr, c);
    LessIs(v.length, 8);
    LessIs(v.length, ptr);
  }

  lemma {:induction false} StructElementHeld(v: View, s: Schema, ptr: nat, c: Capsule)
    requires v.base + v.length <= |v.mem| && ptr + Size(c) <= v.length
    requires Holds(v.mem, v.base + ptr, Serial(c)) && Readable(s, c)
    ensures StructElement(v, s, ptr) == Element(Expected(s, c), ptr + Size(c))
    decreases s, 3
  {
    hide Serial, Size, Open, DecodeStruct, Expected, Readable, Holds, WordAt, Fits;
    var len := Size(c);
    InnerDecodes(s, v.mem, v.base + ptr, c);
    assert (ptr + len) % WORD == ptr + len;
  }

  lemma {:induction false} StructsHeld(v: View, s: Schema, ptr: nat, cs: seq<Capsule>)
    requires v.base + v.length <= |v.mem| && ptr + CapsulesSize(cs) <= v.length
    requires Holds(v.mem, v.base + ptr, CapsulesBytes(cs))
    requires forall c <- cs :: Readable(s, c)
    ensures StructElements(v, s, ptr, |cs|) == Elements(ExpectedAll(s, cs), ptr + CapsulesSize(cs))
    decreases s, 4, |cs|
  {
    hide Holds, Serial, Size, StructElement, Expected, Readable;
    if cs != [] {
      var rest, c := cs[..|cs| - 1], cs[|cs| - 1];
      CapsulesLength(rest);
      HoldsSplit(v.mem, v.base + ptr, CapsulesBytes(rest), Serial(c));
      StructsHeld(v, s, ptr, rest);
      StructElementHeld(v, s, ptr + CapsulesSize(rest), c);
    }
  }

  lemma {:induction false} FindsMany(v: View, h: u32, s: Schema, cs: seq<Capsule>)
    requires Points(v, h, VectorHeader(|cs|) + CapsulesBytes(cs))
    requires |CapsulesBytes(cs)| == CapsulesSize(cs)
    requires forall c <- cs :: Readable(s, c)
    ensures FindMany(v, s, h) == Here(Structs(ExpectedAll(s, cs)))
    decreases s, 5
  {
    CapsulesCount(cs);
    hide Holds, VectorHeader, CapsulesBytes, CapsulesSize, StructElements, VectorAt, Readable, ExpectedAll;
    VectorHeld(v, v.index[h], |cs|, CapsulesBytes(cs));
    StructsHeld(v, s, v.index[h] + 8, cs);
  }

  /** A lookup under the hash of any writer's field of the right type succeeds, with no check failing. */
  lemma {:induction false} Finds(v: View, c: Capsule, i: nat, ty: Ty)
    requires Sees(v, c) && i < |c.fields| && Fits(ty, c.fields[i].value)
    ensures FindOne(v, ty, c.fields[i].hash) == Here(ExpectedOut(ty, c.fields[i].value))
    decreases ty
  {
    hide Sees, FindNested, FindMany, Decoders.FindTexts, FindText, Find64, FindScalar, Points;
    var Field(h, x) := c.fields[i];
    FieldPoints(v, c, i);
    match ty
    case T64 => Finds64(v, h, x.v64);
    case TText => FindsText(v, h, x.text);
    case TTexts => FindsTexts(v, h, x.texts, TextsBytes(x.texts));
    case TNested(s) => SerialLength(x.capsule); FindsNested(v, h, s, x.capsule);
    case TMany(s) => CapsulesLength(x.capsules); FindsMany(v, h, s, x.capsules);
    case _ => FindsScalar(v, h, ty, x, HEADER + ENTRY * |c.fields| + FieldsSize(c.fields[..i]));
  }

  lemma FieldPoints(v: View, c: Capsule, i: nat)
    requires Sees(v, c) && i < |c.fields|
    ensures var Field(h, x) := c.fields[i];
            && h in v.index
            && v.index[h] == Slot(x, HEADER + ENTRY * |c.fields| + FieldsSize(c.fields[..i]))
            && (!x.Bool? && !x.Int8? && !x.Int16? && !x.Int32? ==> Points(v, h, Payload(x)))
  {
    FieldSeen(v, c, i);
    SerialLength(c);
    hide Size, Serial, FieldsSize, Holds, Payload, ValueSize;
  }

  lemma {:induction false} StoredAt(fs: seq<Field>, h: u32) returns (i: nat)
    requires Stored(fs, h).Some?
    ensures i < |fs| && fs[i].hash == h && fs[i].value == Stored(fs, h).value
    decreases |fs|
  {
    if fs[|fs| - 1].hash == h {
      i := |fs| - 1;
    } else {
      i := StoredAt(fs[..|fs| - 1], h);
    }
  }

  /** A lookup under a hash the writer never used finds nothing, whatever the type. */
  lemma FindsNothing(v: View, c: Capsule, h: u32, ty: Ty)
    requires Sees(v, c) && Stored(c.fields, h).None?
    ensures FindOne(v, ty, h) == Absent
  {
    SlotsKeys(c.fields, HEADER + ENTRY * |c.fields|, h);
  }

  lemma {:induction false} Tries(f: FieldSpec, v: View, c: Capsule, k: nat)
    requires Sees(v, c) && FieldReadable(f, c.fields) && k <= |f.hashes|
    ensures Try(f, v, k) == Trial(Ok,
      match FirstStored(c.fields, f.hashes, k)
      case None => Got(false, if k == 0 then Untouched else WhenAbsent(f, Untouched))
      case Some(x) => if Fits(f.ty, x) then Got(true, ExpectedOut(f.ty, x)) else Got(true, Untouched))
    decreases f, 2, k
  {
    hide Sees, FindOne, ExpectedOut, Fits;
    if k > 0 {
      Tries(f, v, c, k - 1);
      var h := f.hashes[k - 1];
      if FirstStored(c.fields, f.hashes, k - 1).None? {
        if Stored(c.fields, h).Some? {
          var i := StoredAt(c.fields, h);
          FirstStoredStays(c.fields, f.hashes, k, |f.hashes|);
          Finds(v, c, i, f.ty);
        } else {
          FindsNothing(v, c, h, f.ty);
        }
      }
    }
  }

  lemma {:induction false} FirstStoredStays(fs: seq<Field>, hashes: seq<u32>, j: nat, k: nat)
    requires j <= k <= |hashes| && FirstStored(fs, hashes, j).Some?
    ensures FirstStored(fs, hashes, k) == FirstStored(fs, hashes, j)
  {
    if j < k {
      FirstStoredStays(fs, hashes, j, k - 1);
    }
  }

  lemma {:induction false} DecodesField(f: FieldSpec, v: View, c: Capsule)
    requires Sees(v, c) && FieldReadable(f, c.fields)
    ensures DecodeField(f, v) == Trial(Ok, ExpectedField(f, c.fields))
    decreases f, 3
  {
    Tries(f, v, c, |f.hashes|);
  }

  lemma {:induction false} DecodesFields(fs: seq<FieldSpec>, v: View, c: Capsule)
    requires Sees(v, c) && forall f <- fs :: FieldReadable(f, c.fields)
    ensures DecodeFields(fs, v) == (Ok, ExpectedFields(fs, c.fields))
    decreases fs
  {
    hide Sees, DecodeField, ExpectedField;
    if fs != [] {
      DecodesFields(fs[..|fs| - 1], v, c);
      DecodesField(fs[|fs| - 1], v, c);
    }
  }

  /** Schema evolution: any compatible reader ends up with exactly what the writer's values say it should. */
  lemma {:induction false} Decodes(s: Schema, v: View, c: Capsule)
    requires Sees(v, c) && Readable(s, c)
    ensures DecodeStruct(s, v) == (Ok, Expected(s, c))
    decreases s, 1
  {
    hide Sees;
    DecodesFields(s.fields, v, c);
  }

  /** Slot i of a decoded struct, when the writer used none of the field's names: its presence bit and its contents. */
  lemma AbsentTakesDefault(s: Schema, v: View, c: Capsule, i: nat)
    requires Sees(v, c) && Readable(s, c) && i < |s.fields|
    requires forall k :: 0 <= k < |s.fields[i].hashes| ==> Stored(c.fields, s.fields[i].hashes[k]).None?
    ensures var (code, m) := DecodeStruct(s, v);
      && code == Ok && |m.slots| == |s.fields| && !m.slots[i].present
      && var f, out := s.fields[i], m.slots[i].out;
         match f.ty
         case TTexts => out == Plain(Texts([]))
         case TMany(_) => out == Structs([])
         case TNested(_) => out == Untouched
         case _ => out == Plain(f.default)
  {
    Decodes(s, v, c);
    SlotIs(s.fields, c.fields, i);
    NeverStored(c.fields, s.fields[i].hashes, |s.fields[i].hashes|);
    hide Sees, DecodeStruct, Readable;
    assert s.fields[i] in s.fields;
  }

  /** Slot i, when the writer used one of the field's names. */
  lemma PresentTakesFirst(s: Schema, v: View, c: Capsule, i: nat, k: nat)
    requires Sees(v, c) && Readable(s, c) && i < |s.fields| && k < |s.fields[i].hashes|
    requires forall j :: 0 <= j < k ==> Stored(c.fields, s.fields[i].hashes[j]).None?
    requires Stored(c.fields, s.fields[i].hashes[k]).Some?
    ensures var (code, m) := DecodeStruct(s, v);
      && code == Ok && |m.slots| == |s.fields| && m.slots[i].present
      && var value := Stored(c.fields, s.fields[i].hashes[k]).value;
         (!s.fields[i].ty.TNested? && !s.fields[i].ty.TMany? ==> m.slots[i].out == Plain(value))
  {
    Decodes(s, v, c);
    SlotIs(s.fields, c.fields, i);
    NeverStored(c.fields, s.fields[i].hashes, k);
    FirstStoredStays(c.fields, s.fields[i].hashes, k + 1, |s.fields[i].hashes|);
    hide Sees, DecodeStruct, Readable;
    assert s.fields[i] in s.fields;
  }

  lemma {:induction false} NeverStored(w: seq<Field>, hashes: seq<u32>, k: nat)
    requires k <= |hashes| && forall j :: 0 <= j < k ==> Stored(w, hashes[j]).None?
    ensures FirstStored(w, hashes, k).None?
  {
    hide Stored;
    if k > 0 {
      NeverStored(w, hashes, k - 1);
    }
  }

  lemma {:induction false} SlotIs(fs: seq<FieldSpec>, w: seq<Field>, i: nat)
    requires (forall f <- fs :: FieldReadable(f, w)) && i < |fs|
    ensures fs[i] in fs && ExpectedFields(fs, w)[i] == ExpectedField(fs[i], w)
    decreases |fs|
  {
    hide FieldReadable, ExpectedField;
    if i < |fs| - 1 {
      SlotIs(fs[..|fs| - 1], w, i);
    }
  }

  ghost predicate FirstError(fs: seq<FieldSpec>, v: View, i: nat)
    requires i < |fs|
  {
    DecodeField(fs[i], v).code != Ok && forall j :: 0 <= j < i ==> DecodeField(fs[j], v).code == Ok
  }

  /** The code a struct's Decode returns is the first one a field's was not Ok. */
  lemma {:induction false} FirstErrorKept(fs: seq<FieldSpec>, v: View)
    ensures DecodeFields(fs, v).0 == Ok <==> forall i :: 0 <= i < |fs| ==> DecodeField(fs[i], v).code == Ok
    ensures forall i :: 0 <= i < |fs| && FirstError(fs, v, i) ==> DecodeFields(fs, v).0 == DecodeField(fs[i], v).code
    decreases |fs|
  {
    hide DecodeField;
    if fs != [] {
      var init := fs[..|fs| - 1];
      FirstErrorKept(init, v);
      assert forall i :: 0 <= i < |init| ==> init[i] == fs[i];
      forall i | 0 <= i < |fs| && FirstError(fs, v, i) ensures DecodeFields(fs, v).0 == DecodeField(fs[i], v).code {
        assert i < |init| ==> FirstError(init, v, i);
      }
    }
  }

  // ---- Under the writer's own schema, decoding is the inverse of encoding ----

  /** Every field has a name, and no two fields share a current name's hash. */
  ghost predicate DistinctHashes(fs: seq<FieldSpec>) {
    && (forall i :: 0 <= i < |fs| ==> fs[i].hashes != [])
    && (forall i, j :: 0 <= i < j < |fs| ==> fs[i].hashes[0] != fs[j].hashes[0])
  }

  /** c is a value of the capsule type s: its fields, in order, under their current names. */
  ghost predicate Instance(s: Schema, c: Capsule)
    decreases s, 1
  {
    && DistinctHashes(s.fields)
    && |c.fields| == |s.fields|
    && forall i :: 0 <= i < |s.fields| ==> FieldInstance(s.fields[i], c.fields[i])
  }

  ghost predicate FieldInstance(f: FieldSpec, w: Field)
    requires f.hashes != []
    decreases f, 1
  {
    w.hash == f.hashes[0] && ValueInstance(f.ty, w.value)
  }

  ghost predicate ValueInstance(ty: Ty, v: Value)
    decreases ty
  {
    match ty
    case TNested(s) => v.Nested? && Instance(s, v.capsule)
    case TMany(s) => v.Many? && forall c <- v.capsules :: Instance(s, c)
    case _ => Fits(ty, v)
  }

  /** The capsule value a decoded struct of type s holds. */
  ghost function Rebuild(s: Schema, m: Message): Capsule
    decreases s, 1
  {
    Capsule(RebuildFields(s.fields, m.slots))
  }

  ghost function RebuildFields(fs: seq<FieldSpec>, slots: seq<Got>): seq<Field>
    decreases fs
  {
    if fs == [] || |slots| != |fs| then []
    else RebuildFields(fs[..|fs| - 1], slots[..|fs| - 1]) + [RebuildField(fs[|fs| - 1], slots[|fs| - 1])]
  }

  ghost function RebuildField(f: FieldSpec, got: Got): Field
    decreases f, 1
  {
    Field(if f.hashes == [] then 0 else f.hashes[0], RebuildValue(f.ty, got.out))
  }

  ghost function RebuildValue(ty: Ty, out: Out): Value
    decreases ty
  {
    match out
    case Plain(v) => v
    case Struct(m) => if ty.TNested? then Nested(Rebuild(ty.schema, m)) else Bool(false)
    case Structs(ms) => if ty.TMany? then Many(RebuildAll(ty.element, ms)) else Bool(false)
    case Untouched => Bool(false)
  }

  ghost function RebuildAll(s: Schema, ms: seq<Message>): seq<Capsule>
    decreases s, 2, |ms|
  {
    if ms == [] then [] else RebuildAll(s, ms[..|ms| - 1]) + [Rebuild(s, ms[|ms| - 1])]
  }

  lemma {:induction false} StoredUnique(fs: seq<Field>, i: nat)
    requires Distinct(fs) && i < |fs|
    ensures Stored(fs, fs[i].hash) == Some(fs[i].value)
    decreases |fs|
  {
    if i < |fs| - 1 {
      StoredUnique(fs[..|fs| - 1], i);
    }
  }

  lemma FirstNameWins(w: seq<Field>, hashes: seq<u32>)
    requires hashes != [] && Stored(w, hashes[0]).Some?
    ensures FirstStored(w, hashes, |hashes|) == Stored(w, hashes[0])
  {
    assert FirstStored(w, hashes, 1) == Stored(w, hashes[0]);
    FirstStoredStays(w, hashes, 1, |hashes|);
  }

  lemma {:induction false} InstanceReadable(s: Schema, c: Capsule)
    requires Instance(s, c)
    ensures Readable(s, c)
    ensures Rebuild(s, Expected(s, c)) == c
    ensures forall i :: 0 <= i < |s.fields| ==> Expected(s, c).slots[i].present
    decreases s, 1
  {
    var fs, w := s.fields, c.fields;
    forall i, j | 0 <= i < j < |w| ensures w[i].hash != w[j].hash {
      assert FieldInstance(fs[i], w[i]) && FieldInstance(fs[j], w[j]);
    }
    forall i | 0 <= i < |fs| ensures FieldReadable(fs[i], w) {
      FieldComesBack(fs[i], w, i);
    }
    FieldsComeBack(fs, w, |fs|);
    assert fs[..|fs|] == fs && w[..|fs|] == w;
  }

  lemma {:induction false} FieldsComeBack(fs: seq<FieldSpec>, w: seq<Field>, n: nat)
    requires DistinctHashes(fs) && Distinct(w) && n <= |fs| == |w|
    requires forall i :: 0 <= i < |fs| ==> FieldInstance(fs[i], w[i])
    requires forall f <- fs :: FieldReadable(f, w)
    ensures var slots := ExpectedFields(fs[..n], w);
            && RebuildFields(fs[..n], slots) == w[..n]
            && forall i :: 0 <= i < n ==> slots[i].present
    decreases fs, 0, n
  {
    hide FieldReadable, FieldInstance, ExpectedField, RebuildField;
    if n > 0 {
      FieldsComeBack(fs, w, n - 1);
      assert fs[..n][..n - 1] == fs[..n - 1] && w[..n] == w[..n - 1] + [w[n - 1]];
      assert fs[n - 1] in fs;
      FieldComesBack(fs[n - 1], w, n - 1);
      var slots := ExpectedFields(fs[..n], w);
      assert slots[..n - 1] == ExpectedFields(fs[..n - 1], w);
    }
  }

  lemma {:induction false} FieldComesBack(f: FieldSpec, w: seq<Field>, i: nat)
    requires Distinct(w) && i < |w| && f.hashes != [] && FieldInstance(f, w[i])
    ensures FieldReadable(f, w)
    ensures ExpectedField(f, w).present
    ensures RebuildField(f, ExpectedField(f, w)) == w[i]
    decreases f, 1
  {
    StoredUnique(w, i);
    FirstNameWins(w, f.hashes);
    ValueComesBack(f.ty, w[i].value);
  }

  lemma {:induction false} ValueComesBack(ty: Ty, v: Value)
    requires ValueInstance(ty, v)
    ensures Fits(ty, v)
    ensures RebuildValue(ty, ExpectedOut(ty, v)) == v
    decreases ty
  {
    hide Instance, Readable, Rebuild, RebuildAll, Expected, ExpectedAll;
    match ty
    case TNested(s) => InstanceReadable(s, v.capsule);
    case TMany(s) => AllComeBack(s, v.capsules);
    case _ =>
  }

  lemma {:induction false} AllComeBack(s: Schema, cs: seq<Capsule>)
    requires forall c <- cs :: Instance(s, c)
    ensures forall c <- cs :: Readable(s, c)
    ensures RebuildAll(s, ExpectedAll(s, cs)) == cs
    decreases s, 3
  {
    hide *;
    forall c | c in cs ensures Readable(s, c) {
      InstanceReadable(s, c);
    }
    CapsulesComeBack(s, cs);
  }

  lemma {:induction false} CapsulesComeBack(s: Schema, cs: seq<Capsule>)
    requires forall c <- cs :: Instance(s, c) && Readable(s, c)
    ensures RebuildAll(s, ExpectedAll(s, cs)) == cs
    decreases s, 2, |cs|
  {
    hide Instance, Readable, Rebuild, Expected;
    if cs != [] {
      var rest, c := cs[..|cs| - 1], cs[|cs| - 1];
      CapsulesComeBack(s, rest);
      InstanceReadable(s, c);
      var ms := ExpectedAll(s, cs);
      assert ms[..|ms| - 1] == ExpectedAll(s, rest);
    }
  }

  /** Decode after encode, in any memory, at any offset: no check fails, every field is present, the value is back. */
  lemma RoundTrip(s: Schema, c: Capsule, mem: seq<byte>, base: nat, memoryLength: nat)
    requires Instance(s, c) && Size(c) < WORD
    requires Holds(mem, base, Serial(c)) && Size(c) <= memoryLength && base + memoryLength <= |mem|
    ensures Open(mem, base, memoryLength).Opened?
    ensures var (code, m) := DecodeStruct(s, Open(mem, base, memoryLength).view);
            && code == Ok
            && Rebuild(s, m) == c
            && |m.slots| == |s.fields| && forall i :: 0 <= i < |m.slots| ==> m.slots[i].present
  {
    InstanceReadable(s, c);
    Opens(mem, base, memoryLength, c);
    Decodes(s, Open(mem, base, memoryLength).view, c);
    hide Instance, Open, Sees, Rebuild, Size, Serial;
  }

  /** Nested capsule types have values: the round trip's hypothesis is met. */
  lemma InstanceExample(inner: Schema, outer: Schema, c: Capsule, d: Capsule)
    requires inner == Schema([FieldSpec([7, 70], T32, Int32(1))]) && c == Capsule([Field(7, Int32(55))])
    requires outer == Schema([FieldSpec([3], TText, Text([])), FieldSpec([5], TNested(inner), Nested(c)),
                              FieldSpec([6], TMany(inner), Many([]))])
    requires d == Capsule([Field(3, Text([0x68])), Field(5, Nested(c)), Field(6, Many([c, c]))])
    ensures Instance(inner, c) && Instance(outer, d)
  {
    assert Instance(inner, c);
    hide Instance;
    forall i | 0 <= i < 3 ensures FieldInstance(outer.fields[i], d.fields[i]) {
    }
    hide FieldInstance;
    InstanceOf(outer, d);
  }

  lemma InstanceOf(s: Schema, c: Capsule)
    requires DistinctHashes(s.fields) && |c.fields| == |s.fields|
    requires forall i :: 0 <= i < |s.fields| ==> FieldInstance(s.fields[i], c.fields[i])
    ensures Instance(s, c)
  {
    hide FieldInstance;
  }
}
