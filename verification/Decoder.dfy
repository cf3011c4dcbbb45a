/** capsule/decoder.h, capsule/decoder.cc and the generated Decode: reading a capsule under a reader's schema. */
module Decoders {
  import opened Bytes
  import opened Values
  import opened FlatMaps

  /** A reader's field: the hash of its name, then those of its former names; its type; its default. */
  datatype FieldSpec = FieldSpec(hashes: seq<u32>, ty: Ty, default: Value)

  datatype Schema = Schema(fields: seq<FieldSpec>)

  datatype Ty = TBool | T8 | T16 | T32 | T64 | TText | TTexts | TNested(schema: Schema) | TMany(element: Schema)

  /** A decoded struct: each field's presence bit and its contents. */
  datatype Message = Message(slots: seq<Got>)

  datatype Got = Got(present: bool, out: Out)

  datatype Out =
    | Untouched
    | Plain(value: Value)
    | Struct(message: Message)
    | Structs(messages: seq<Message>)

  const WORD: nat := 0x1_0000_0000

  // ---- What each reader computes, as functions of the bytes ----

  /** What a decoder sees: length bytes of mem from base, and the offset table as a map. */
  datatype View = View(mem: seq<byte>, base: nat, length: u32, index: map<u32, u32>)

  datatype Built = Opened(view: View) | Refused(code: Code)

  function WordAt(mem: seq<byte>, at: nat): u32
    requires at + 4 <= |mem|
  {
    Word32(mem[at..at + 4])
  }

  /** Decoder::Build. The implied length is truncated to 32 bits, as in the source. */
  function Open(mem: seq<byte>, base: nat, memoryLength: nat): Built
    requires base + memoryLength <= |mem|
  {
    if memoryLength < HEADER then Refused(Error)
    else
      var otes, length := WordAt(mem, base), WordAt(mem, base + 4);
      if length > memoryLength then Refused(Error)
      else if (otes * ENTRY + HEADER) % WORD > length then Refused(Error)
      else
        match IndexTable(mem, base + HEADER, otes)
        case Failed(e) => Refused(e)
        case Indexed(index) => Opened(View(mem, base, length, index))
  }

  /** The result of one Find: absent, a value, or an error code (and whether the presence bit was set on the way). */
  datatype Found = Absent | Here(out: Out) | Broken(code: Code, present: bool)

  /** size_t subtraction: wraps below zero. */
  function Less(length: nat, n: nat): nat {
    (length - n) % 0x1_0000_0000_0000_0000
  }

  function FindScalar(v: View, ty: Ty, h: u32): Found
    requires ty.TBool? || ty.T8? || ty.T16? || ty.T32?
  {
    if h !in v.index then Absent
    else
      var w := v.index[h];
      match ty
      case TBool => if w - w % 2 != 0xBBBB_BBB0 then Broken(CapsuleFatal, false) else Here(Plain(Bool(w % 2 == 1)))
      case T8 => if w - w % 0x100 != 0x8888_8800 then Broken(CapsuleFatal, false) else Here(Plain(Int8(w % 0x100)))
      case T16 =>
        if w - w % 0x1_0000 != 0x1616_0000 then Broken(CapsuleFatal, false) else Here(Plain(Int16(w % 0x1_0000)))
      case T32 => Here(Plain(Int32(w)))
  }

  function Find64(v: View, h: u32): Found {
    if h !in v.index then Absent
    else
      var ptr := v.index[h];
      if ptr > Less(v.length, 8) || ptr % 8 != 0 then Broken(CapsuleFatal, false)
      else if v.base + ptr + 8 > |v.mem| then Broken(Unreadable, false)
      else Here(Plain(Int64(Word64(v.mem[v.base + ptr..v.base + ptr + 8]))))
  }

  function FindText(v: View, h: u32): Found {
    if h !in v.index then Absent
    else
      var ptr := v.index[h];
      if ptr > Less(v.length, 4) then Broken(CapsuleFatal, false)
      else if v.base + ptr + 4 > |v.mem| then Broken(Unreadable, false)
      else
        var len := WordAt(v.mem, v.base + ptr);
        if len > v.length || (ptr + 4 + len) % WORD > v.length then Broken(CapsuleFatal, false)
        else if v.base + ptr + 4 + len > |v.mem| then Broken(Unreadable, false)
        else Here(Plain(Text(v.mem[v.base + ptr + 4..v.base + ptr + 4 + len])))
  }

  /** The vector header's checks; the element count when they pass. */
  datatype Header = Count(n: u32) | BadHeader(code: Code)

  function VectorAt(v: View, ptr: u32): Header {
    if ptr > Less(v.length, 8) || ptr % 8 != 0 then BadHeader(CapsuleFatal)
    else if v.base + ptr + 8 > |v.mem| then BadHeader(Unreadable)
    else if WordAt(v.mem, v.base + ptr + 4) != PADDING then BadHeader(CapsuleFatal)
    else Count(WordAt(v.mem, v.base + ptr))
  }

  datatype Element<T> = Element(value: T, next: u32) | BadElement(code: Code)

  function TextElement(v: View, ptr: u32): Element<seq<byte>> {
    if v.base + ptr + 4 > |v.mem| then BadElement(Unreadable)
    else
      var len, at := WordAt(v.mem, v.base + ptr), (ptr + 4) % WORD;
      if len > v.length || at > v.length - len then BadElement(CapsuleFatal)
      else if v.base + at + len > |v.mem| then BadElement(Unreadable)
      else Element(v.mem[v.base + at..v.base + at + len], (ptr + RoundUp8(len + 4)) % WORD)
  }

  datatype Elements<T> = Elements(values: seq<T>, next: u32) | BadElements(code: Code)

  /** The first n elements from ptr. */
  function TextElements(v: View, ptr: u32, n: nat): Elements<seq<byte>> {
    if n == 0 then Elements([], ptr)
    else
      match TextElements(v, ptr, n - 1)
      case BadElements(e) => BadElements(e)
      case Elements(ss, next) =>
        match TextElement(v, next)
        case BadElement(e) => BadElements(e)
        case Element(s, after) => Elements(ss + [s], after)
  }

  function FindTexts(v: View, h: u32): Found {
    if h !in v.index then Absent
    else
      var ptr := v.index[h];
      match VectorAt(v, ptr)
      case BadHeader(e) => Broken(e, false)
      case Count(n) =>
        match TextElements(v, (ptr + 8) % WORD, n)
        case BadElements(e) => Broken(e, true)
        case Elements(ss, _) => Here(Plain(Texts(ss)))
  }

  function FindNested(v: View, s: Schema, h: u32): Found
    decreases s, 2
  {
    if h !in v.index then Absent
    else
      var ptr := v.index[h];
      if ptr > Less(v.length, 8) || ptr % 8 != 0 then Broken(CapsuleFatal, false)
      else if v.base + ptr + 8 > |v.mem| then Broken(Unreadable, false)
      else
        var len := WordAt(v.mem, v.base + ptr + 4);
        if len > Less(v.length, ptr) then Broken(CapsuleFatal, false)
        else if v.base + ptr + len > |v.mem| then Broken(Unreadable, false)
        else
          match Open(v.mem, v.base + ptr, len)
          case Refused(e) => Broken(e, false)
          case Opened(inner) =>
            var (code, m) := DecodeStruct(s, inner);
            if code.Ok? then Here(Struct(m)) else Broken(code, true)
  }

  function StructElement(v: View, s: Schema, ptr: u32): Element<Message>
    decreases s, 2
  {
    if v.base + ptr + 8 > |v.mem| then BadElement(Unreadable)
    else
      var len := WordAt(v.mem, v.base + ptr + 4);
      if len > v.length || ptr > v.length - len then BadElement(CapsuleFatal)
      else if v.base + ptr + len > |v.mem| then BadElement(Unreadable)
      else
        match Open(v.mem, v.base + ptr, len)
        case Refused(e) => BadElement(e)
        case Opened(inner) =>
          var (code, m) := DecodeStruct(s, inner);
          if code.Ok? then Element(m, (ptr + len) % WORD) else BadElement(code)
  }

  function StructElements(v: View, s: Schema, ptr: u32, n: nat): Elements<Message>
    decreases s, 3, n
  {
    if n == 0 then Elements([], ptr)
    else
      match StructElements(v, s, ptr, n - 1)
      case BadElements(e) => BadElements(e)
      case Elements(ms, next) =>
        match StructElement(v, s, next)
        case BadElement(e) => BadElements(e)
        case Element(m, after) => Elements(ms + [m], after)
  }

  function FindMany(v: View, s: Schema, h: u32): Found
    decreases s, 4
  {
    if h !in v.index then Absent
    else
      var ptr := v.index[h];
      match VectorAt(v, ptr)
      case BadHeader(e) => Broken(e, false)
      case Count(n) =>
        match StructElements(v, s, (ptr + 8) % WORD, n)
        case BadElements(e) => Broken(e, true)
        case Elements(ms, _) => Here(Structs(ms))
  }

  function FindOne(v: View, ty: Ty, h: u32): Found
    decreases ty
  {
    match ty
    case T64 => Find64(v, h)
    case TText => FindText(v, h)
    case TTexts => FindTexts(v, h)
    case TNested(s) => FindNested(v, s, h)
    case TMany(s) => FindMany(v, s, h)
    case _ => FindScalar(v, ty, h)
  }

  /** A field while its hashes are being tried. */
  datatype Trial = Trial(code: Code, got: Got)

  /** What an absent field is set to; a nested struct is left alone. */
  function WhenAbsent(f: FieldSpec, out: Out): Out {
    match f.ty
    case TTexts => Plain(Texts([]))
    case TMany(_) => Structs([])
    case TNested(_) => out
    case _ => Plain(f.default)
  }

  function Take(f: FieldSpec, t: Trial, found: Found): Trial {
    match found
    case Absent => Trial(t.code, Got(false, WhenAbsent(f, t.got.out)))
    case Here(out) => Trial(t.code, Got(true, out))
    case Broken(e, present) => Trial(t.code.Incorporate(e), Got(present, Untouched))
  }

  /** The first k hashes tried in order, stopping at the first that makes the field present. */
  function Try(f: FieldSpec, v: View, k: nat): Trial
    requires k <= |f.hashes|
    decreases f, 1, k
  {
    if k == 0 then Trial(Ok, Got(false, Untouched))
    else
      var t := Try(f, v, k - 1);
      if t.got.present then t else Take(f, t, FindOne(v, f.ty, f.hashes[k - 1]))
  }

  function DecodeFields(fs: seq<FieldSpec>, v: View): (Code, seq<Got>)
    decreases fs
  {
    if fs == [] then (Ok, [])
    else
      var (code, slots) := DecodeFields(fs[..|fs| - 1], v);
      var t := DecodeField(fs[|fs| - 1], v);
      (code.Incorporate(t.code), slots + [t.got])
  }

  function DecodeField(f: FieldSpec, v: View): Trial
    decreases f, 2
  {
    Try(f, v, |f.hashes|)
  }

  /** The generated Decode. */
  function DecodeStruct(s: Schema, v: View): (Code, Message)
    decreases s, 1
  {
    var (code, slots) := DecodeFields(s.fields, v);
    (code, Message(slots))
  }

  // ---- The readers themselves ----

  class Decoder {
    const mem: seq<byte>
    const base: nat
    const length: u32
    const vm: ViewMapper

    ghost predicate Valid()
      reads vm.map_
    {
      vm.Valid() && base + length <= |mem|
    }

    ghost function Seen(): View
      requires Valid()
      reads vm.map_
    {
      View(mem, base, length, vm.Contents())
    }

    constructor (mem: seq<byte>, base: nat, length: u32, vm: ViewMapper)
      requires vm.Valid() && base + length <= |mem|
      ensures Valid() && this.vm == vm
      ensures Seen() == View(mem, base, length, vm.Contents())
    {
      this.mem, this.base, this.length, this.vm := mem, base, length, vm;
    }

    static method Build(mem: seq<byte>, base: nat, memoryLength: nat) returns (code: Code, d: Decoder?)
      requires base + memoryLength <= |mem|
      ensures match Open(mem, base, memoryLength)
              case Refused(e) => code == e && code != Ok
              case Opened(v) => code == Ok && d != null && fresh(d) && fresh(d.vm.map_) && d.Valid() && d.Seen() == v
    {
      hide Word32, IndexTable;
      d := null;
      if memoryLength < HEADER {
        return Error, d;
      }
      var otes, length := WordAt(mem, base), WordAt(mem, base + 4);
      if length > memoryLength {
        return Error, d;
      }
      var impliedLength := (otes * ENTRY + HEADER) % WORD;
      if impliedLength > length {
        return Error, d;
      }
      IndexErrors(mem, base + HEADER, otes);
      var built, vm := ViewMapper.Build(mem, base + HEADER, otes);
      if built != Ok {
        return built, d;
      }
      code := Ok;
      d := new Decoder(mem, base, length, vm);
    }

    method FindBoolean(h: u32) returns (found: Found)
      requires Valid()
      ensures found == FindScalar(Seen(), TBool, h)
    {
      var code, v := vm.Lookup(h);
      if code != Ok {
        return Absent;
      }
      if v - v % 2 != 0xBBBB_BBB0 {
        return Broken(CapsuleFatal, false);
      }
      return Here(Plain(Bool(v % 2 == 1)));
    }

    method Find8bPrimitive(h: u32) returns (found: Found)
      requires Valid()
      ensures found == FindScalar(Seen(), T8, h)
    {
      var code, v := vm.Lookup(h);
      if code != Ok {
        return Absent;
      }
      if v - v % 0x100 != 0x8888_8800 {
        return Broken(CapsuleFatal, false);
      }
      return Here(Plain(Int8(v % 0x100)));
    }

    method Find16bPrimitive(h: u32) returns (found: Found)
      requires Valid()
      ensures found == FindScalar(Seen(), T16, h)
    {
      var code, v := vm.Lookup(h);
      if code != Ok {
        return Absent;
      }
      if v - v % 0x1_0000 != 0x1616_0000 {
        return Broken(CapsuleFatal, false);
      }
      return Here(Plain(Int16(v % 0x1_0000)));
    }

    method Find32bPrimitive(h: u32) returns (found: Found)
      requires Valid()
      ensures found == FindScalar(Seen(), T32, h)
    {
      var code, v := vm.Lookup(h);
      if code != Ok {
        return Absent;
      }
      return Here(Plain(Int32(v)));
    }

    method Find64bPrimitive(h: u32) returns (found: Found)
      requires Valid()
      ensures found == Find64(Seen(), h)
    {
      hide Word64;
      var code, ptr := vm.Lookup(h);
      if code != Ok {
        return Absent;
      }
      if ptr > Less(length, 8) {
        return Broken(CapsuleFatal, false);
      }
      if ptr % 8 != 0 {
        return Broken(CapsuleFatal, false);
      }
      if base + ptr + 8 > |mem| {
        return Broken(Unreadable, false);
      }
      return Here(Plain(Int64(Word64(mem[base + ptr..base + ptr + 8]))));
    }

    method FindString(h: u32) returns (found: Found)
      requires Valid()
      ensures found == FindText(Seen(), h)
    {
      hide Word32;
      var code, ptr := vm.Lookup(h);
      if code != Ok {
        return Absent;
      }
      if ptr > Less(length, 4) {
        return Broken(CapsuleFatal, false);
      }
      if base + ptr + 4 > |mem| {
        return Broken(Unreadable, false);
      }
      var strLen := WordAt(mem, base + ptr);
      if strLen > length {
        return Broken(CapsuleFatal, false);
      }
      if (ptr + 4 + strLen) % WORD > length {
        return Broken(CapsuleFatal, false);
      }
      if base + ptr + 4 + strLen > |mem| {
        return Broken(Unreadable, false);
      }
      return Here(Plain(Text(mem[base + ptr + 4..base + ptr + 4 + strLen])));
    }

    /** The checks both vector readers begin with. */
    method CheckVector(ptr: u32) returns (header: Header)
      requires Valid()
      ensures header == VectorAt(Seen(), ptr)
    {
      hide Word32;
      if ptr > Less(length, 8) {
        return BadHeader(CapsuleFatal);
      }
      if ptr % 8 != 0 {
        return BadHeader(CapsuleFatal);
      }
      if base + ptr + 8 > |mem| {
        return BadHeader(Unreadable);
      }
      if WordAt(mem, base + ptr + 4) != PADDING {
        return BadHeader(CapsuleFatal);
      }
      return Count(WordAt(mem, base + ptr));
    }

    method FindStringVector(h: u32) returns (found: Found)
      requires Valid()
      ensures found == FindTexts(Seen(), h)
    {
      hide WordAt, VectorAt, RoundUp8;
      var code, ptr := vm.Lookup(h);
      if code != Ok {
        return Absent;
      }
      var header := CheckVector(ptr);
      if header.BadHeader? {
        return Broken(header.code, false);
      }
      var out: seq<seq<byte>> := [];
      ghost var first := (ptr + 8) % WORD;
      ptr := (ptr + 8) % WORD;
      for i := 0 to header.n
        invariant 0 <= ptr < WORD
        invariant TextElements(Seen(), first, i) == Elements(out, ptr)
      {
        var e := ReadString(ptr);
        if e.BadElement? {
          TextsFail(Seen(), first, i + 1, header.n);
          return Broken(e.code, true);
        }
        out, ptr := out + [e.value], e.next;
      }
      return Here(Plain(Texts(out)));
    }

    method ReadString(ptr: u32) returns (e: Element<seq<byte>>)
      requires Valid()
      ensures e == TextElement(Seen(), ptr)
    {
      hide Word32, RoundUp8;
      if base + ptr + 4 > |mem| {
        return BadElement(Unreadable);
      }
      var stringLength, strPtr := WordAt(mem, base + ptr), (ptr + 4) % WORD;
      if stringLength > length {
        return BadElement(CapsuleFatal);
      }
      if strPtr > length - stringLength {
        return BadElement(CapsuleFatal);
      }
      if base + strPtr + stringLength > |mem| {
        return BadElement(Unreadable);
      }
      return Element(mem[base + strPtr..base + strPtr + stringLength], (ptr + RoundUp8(stringLength + 4)) % WORD);
    }

    method FindCapsule(h: u32, s: Schema) returns (found: Found)
      requires Valid()
      ensures found == FindNested(Seen(), s, h)
      decreases s, 2
    {
      hide Word32, Open, DecodeStruct;
      var code, ptr := vm.Lookup(h);
      if code != Ok {
        return Absent;
      }
      if ptr > Less(length, 8) {
        return Broken(CapsuleFatal, false);
      }
      if ptr % 8 != 0 {
        return Broken(CapsuleFatal, false);
      }
      if base + ptr + 8 > |mem| {
        return Broken(Unreadable, false);
      }
      var capsuleLength := WordAt(mem, base + ptr + 4);
      if capsuleLength > Less(length, ptr) {
        return Broken(CapsuleFatal, false);
      }
      if base + ptr + capsuleLength > |mem| {
        return Broken(Unreadable, false);
      }
      var built, d := Build(mem, base + ptr, capsuleLength);
      if built != Ok {
        return Broken(built, false);
      }
      var inner, m := d.Decode(s);
      return if inner == Ok then Here(Struct(m)) else Broken(inner, true);
    }

    method FindCapsuleVector(h: u32, s: Schema) returns (found: Found)
      requires Valid()
      ensures found == FindMany(Seen(), s, h)
      decreases s, 4
    {
      hide WordAt, VectorAt, StructElement;
      var code, ptr := vm.Lookup(h);
      if code != Ok {
        return Absent;
      }
      var header := CheckVector(ptr);
      if header.BadHeader? {
        return Broken(header.code, false);
      }
      var out: seq<Message> := [];
      ghost var first := (ptr + 8) % WORD;
      ptr := (ptr + 8) % WORD;
      for i := 0 to header.n
        invariant 0 <= ptr < WORD
        invariant StructElements(Seen(), s, first, i) == Elements(out, ptr)
      {
        var e := ReadCapsule(s, ptr);
        if e.BadElement? {
          StructsFail(Seen(), s, first, i + 1, header.n);
          return Broken(e.code, true);
        }
        out, ptr := out + [e.value], e.next;
      }
      return Here(Structs(out));
    }

    method ReadCapsule(s: Schema, ptr: u32) returns (e: Element<Message>)
      requires Valid()
      ensures e == StructElement(Seen(), s, ptr)
      decreases s, 2
    {
      hide Word32, Open, DecodeStruct;
      if base + ptr + 8 > |mem| {
        return BadElement(Unreadable);
      }
      var subcapsuleLength := WordAt(mem, base + ptr + 4);
      if subcapsuleLength > length {
        return BadElement(CapsuleFatal);
      }
      if ptr > length - subcapsuleLength {
        return BadElement(CapsuleFatal);
      }
      if base + ptr + subcapsuleLength > |mem| {
        return BadElement(Unreadable);
      }
      var built, d := Build(mem, base + ptr, subcapsuleLength);
      if built != Ok {
        return BadElement(built);
      }
      var inner, m := d.Decode(s);
      if inner != Ok {
        return BadElement(inner);
      }
      return Element(m, (ptr + subcapsuleLength) % WORD);
    }

    method Find(h: u32, ty: Ty) returns (found: Found)
      requires Valid()
      ensures found == FindOne(Seen(), ty, h)
      decreases ty
    {
      hide FindScalar, Find64, FindText, FindTexts, FindNested, FindMany;
      match ty {
        case TBool => found := FindBoolean(h);
        case T8 => found := Find8bPrimitive(h);
        case T16 => found := Find16bPrimitive(h);
        case T32 => found := Find32bPrimitive(h);
        case T64 => found := Find64bPrimitive(h);
        case TText => found := FindString(h);
        case TTexts => found := FindStringVector(h);
        case TNested(s) => found := FindCapsule(h, s);
        case TMany(s) => found := FindCapsuleVector(h, s);
      }
    }

    /** One field of the generated Decode: the current name first, then, while absent, each former name. */
    method FindField(f: FieldSpec) returns (t: Trial)
      requires Valid()
      ensures t == DecodeField(f, Seen())
      decreases f, 2
    {
      hide FindOne;
      t := Trial(Ok, Got(false, Untouched));
      for k := 0 to |f.hashes|
        invariant t == Try(f, Seen(), k)
      {
        if !t.got.present {
          var found := Find(f.hashes[k], f.ty);
          t := Take(f, t, found);
        }
      }
    }

    /** The generated Decode. */
    method Decode(s: Schema) returns (code: Code, m: Message)
      requires Valid()
      ensures (code, m) == DecodeStruct(s, Seen())
      decreases s, 1
    {
      hide DecodeField;
      code := Ok;
      var slots: seq<Got> := [];
      for i := 0 to |s.fields|
        invariant DecodeFields(s.fields[..i], Seen()) == (code, slots)
      {
        var t := FindField(s.fields[i]);
        code, slots := code.Incorporate(t.code), slots + [t.got];
        assert s.fields[..i + 1][..i] == s.fields[..i];
      }
      assert s.fields[..|s.fields|] == s.fields;
      m := Message(slots);
    }
  }

  lemma {:induction false} IndexErrors(mem: seq<byte>, off: nat, n: nat)
    ensures IndexTable(mem, off, n).Failed? ==> IndexTable(mem, off, n).code != Ok
  {
    if n > 0 {
      IndexErrors(mem, off, n - 1);
    }
  }

  lemma {:induction false} TextsFail(v: View, ptr: u32, k: nat, n: nat)
    requires k <= n && TextElements(v, ptr, k).BadElements?
    ensures TextElements(v, ptr, n) == TextElements(v, ptr, k)
  {
    hide TextElement;
    if k < n {
      TextsFail(v, ptr, k, n - 1);
    }
  }

  lemma {:induction false} StructsFail(v: View, s: Schema, ptr: u32, k: nat, n: nat)
    requires k <= n && StructElements(v, s, ptr, k).BadElements?
    ensures StructElements(v, s, ptr, n) == StructElements(v, s, ptr, k)
    decreases n
  {
    hide StructElement;
    if k < n {
      StructsFail(v, s, ptr, k, n - 1);
    }
  }
}
