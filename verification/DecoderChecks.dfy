/**
 * capsule/decoder.h on any bytes at all: what each reader accepts, said about the memory and not about the reader.
 * A view is inside when its capsule lies within the memory; lengths are below 2^31, where 32-bit sums do not wrap.
 */
module DecoderChecks {
  import opened Basics
  import opened Bytes
  import opened Values
  import opened FlatMaps
  import opened Decoders
  import opened RoundTrips

  ghost predicate Inside(v: View) {
    8 <= v.length < 0x8000_0000 && v.base + v.length <= |v.mem|
  }

  /** A word is a tag plus a value below the tag's unit exactly when it splits that way. */
  lemma TagSplits(w: nat, tag: nat, unit: nat, x: nat)
    requires unit > 0 && tag % unit == 0 && x < unit
    ensures w == tag + x <==> w - w % unit == tag && w % unit == x
  {
    if w == tag + x {
      var q := tag / unit;
      assert tag == q * unit;
      WholeBlocks(w / unit - q, unit);
      assert w == (w / unit) * unit + w % unit;
    }
  }

  /** A scalar is accepted exactly when its table word is the tagged value; nothing else is read. */
  lemma BoolAccepted(v: View, h: u32, b: bool)
    requires h in v.index
    ensures FindScalar(v, TBool, h) == Here(Plain(Bool(b))) <==> v.index[h] == if b then 0xBBBB_BBB1 else 0xBBBB_BBB0
  {
    TagSplits(v.index[h], 0xBBBB_BBB0, 2, if b then 1 else 0);
  }

  lemma Int8Accepted(v: View, h: u32, x: byte)
    requires h in v.index
    ensures FindScalar(v, T8, h) == Here(Plain(Int8(x))) <==> v.index[h] == 0x8888_8800 + x as int
  {
    TagSplits(v.index[h], 0x8888_8800, 0x100, x);
  }

  lemma Int16Accepted(v: View, h: u32, x: u16)
    requires h in v.index
    ensures FindScalar(v, T16, h) == Here(Plain(Int16(x))) <==> v.index[h] == 0x1616_0000 + x as int
  {
    TagSplits(v.index[h], 0x1616_0000, 0x1_0000, x);
  }

  lemma Int32Accepted(v: View, h: u32)
    requires h in v.index
    ensures FindScalar(v, T32, h) == Here(Plain(Int32(v.index[h])))
  {
  }

  /** A scalar that is not accepted makes the capsule broken, and the presence bit stays clear. */
  lemma ScalarsRefused(v: View, ty: Ty, h: u32)
    requires ty.TBool? || ty.T8? || ty.T16? || ty.T32?
    ensures h in v.index ==> FindScalar(v, ty, h).Here? || FindScalar(v, ty, h) == Broken(CapsuleFatal, false)
    ensures h !in v.index <==> FindScalar(v, ty, h) == Absent
  {
  }

  lemma LessOf(length: nat, n: nat)
    requires n <= length < 0x8000_0000
    ensures Less(length, n) == length - n
  {
  }

  /** A 64-bit scalar is accepted exactly when its pointer is aligned and its eight bytes lie within the capsule. */
  lemma Accepts64(v: View, h: u32, x: u64)
    requires Inside(v) && h in v.index
    ensures var ptr := v.index[h];
      Find64(v, h) == Here(Plain(Int64(x))) <==> ptr % 8 == 0 && ptr + 8 <= v.length && Holds(v.mem, v.base + ptr, LE64(x))
    ensures Find64(v, h).Here? || Find64(v, h) == Broken(CapsuleFatal, false)
  {
    LessOf(v.length, 8);
    var ptr := v.index[h];
    if ptr + 8 <= v.length {
      var b := v.mem[v.base + ptr..v.base + ptr + 8];
      LE64OfWord(b);
      WordOfLE64(x);
    }
    hide LE64, Word64, Less;
  }

  lemma LE64OfWord(b: seq<byte>)
    requires |b| == 8
    ensures LE64(Word64(b)) == b
  {
    LE32OfWord(b[..4]);
    LE32OfWord(b[4..]);
    Halves(Word32(b[..4]), Word32(b[4..]));
    hide LE32, Word32;
    assert b == b[..4] + b[4..];
  }

  lemma Halves(low: u32, high: u32)
    ensures (low + 0x1_0000_0000 * high as int) % 0x1_0000_0000 == low
    ensures (low + 0x1_0000_0000 * high as int) / 0x1_0000_0000 == high
  {
  }

  /** A string in memory: its length, then its bytes. */
  ghost predicate HoldsText(mem: seq<byte>, at: nat, s: seq<byte>) {
    |s| < 0x1_0000_0000 && Holds(mem, at, LE32(|s|) + s)
  }

  lemma HoldsTextMeans(mem: seq<byte>, at: nat, s: seq<byte>)
    ensures HoldsText(mem, at, s) <==>
      at + 4 + |s| <= |mem| && |s| < 0x1_0000_0000 && WordAt(mem, at) == |s| && mem[at + 4..at + 4 + |s|] == s
  {
    if at + 4 + |s| <= |mem| && |s| < 0x1_0000_0000 {
      var m, w := mem[at..at + 4 + |s|], mem[at..at + 4];
      assert m == w + mem[at + 4..at + 4 + |s|];
      LE32OfWord(w);
      WordOfLE32(|s|);
      if m == LE32(|s|) + s {
        assert m[..4] == w && (LE32(|s|) + s)[..4] == LE32(|s|);
        assert m[4..] == mem[at + 4..at + 4 + |s|] && (LE32(|s|) + s)[4..] == s;
      }
    }
    hide LE32, Word32;
  }

  lemma TextPlain(v: View, h: u32)
    requires Inside(v) && h in v.index && v.index[h] + 4 <= v.length as int
    ensures FindText(v, h) ==
      var ptr := v.index[h];
      var len := WordAt(v.mem, v.base + ptr);
      if ptr + 4 + len > v.length then Broken(CapsuleFatal, false)
      else Here(Plain(Text(v.mem[v.base + ptr + 4..v.base + ptr + 4 + len])))
  {
    LessOf(v.length, 4);
    hide WordAt, Less;
  }

  /** A string is accepted exactly when it lies within the capsule. */
  lemma AcceptsText(v: View, h: u32, s: seq<byte>)
    requires Inside(v) && h in v.index
    ensures FindText(v, h) == Here(Plain(Text(s))) <==>
      v.index[h] + 4 + |s| <= v.length && HoldsText(v.mem, v.base + v.index[h], s)
    ensures FindText(v, h).Here? || FindText(v, h) == Broken(CapsuleFatal, false)
  {
    LessOf(v.length, 4);
    HoldsTextMeans(v.mem, v.base + v.index[h], s);
    if (v.index[h] as int) + 4 <= v.length {
      TextPlain(v, h);
      hide HoldsText, Less, WordAt, FindText;
    }
  }

  lemma ElementPlain(v: View, ptr: u32)
    requires Inside(v) && ptr <= v.length + 8 && v.base + ptr + 4 <= |v.mem|
    ensures TextElement(v, ptr) ==
      var len := WordAt(v.mem, v.base + ptr);
      if ptr + 4 + len > v.length then BadElement(CapsuleFatal)
      else Element(v.mem[v.base + ptr + 4..v.base + ptr + 4 + len], ptr + RoundUp8(4 + len))
  {
    hide WordAt;
  }

  /** So is an element of a string vector; the next one starts at the next multiple of eight. */
  lemma AcceptsElement(v: View, ptr: u32, s: seq<byte>)
    requires Inside(v) && ptr <= v.length + 8
    ensures TextElement(v, ptr).Element? && TextElement(v, ptr).value == s <==>
      ptr + 4 + |s| <= v.length && HoldsText(v.mem, v.base + ptr, s)
    ensures TextElement(v, ptr).Element? ==>
      TextElement(v, ptr).next == ptr + RoundUp8(4 + |TextElement(v, ptr).value|) <= v.length + 8
  {
    HoldsTextMeans(v.mem, v.base + ptr, s);
    if v.base + ptr + 4 <= |v.mem| {
      ElementPlain(v, ptr);
      hide HoldsText, WordAt, TextElement, RoundUp8;
    }
  }

  /** The elements lie within the capsule one after another from start on, each padded to a multiple of eight. */
  ghost predicate ElementsHeld(v: View, ss: seq<seq<byte>>, start: nat) {
    ss == [] ||
    var init, s := ss[..|ss| - 1], ss[|ss| - 1];
    && ElementsHeld(v, init, start)
    && start + TextsSize(init) + 4 + |s| <= v.length
    && HoldsText(v.mem, v.base + start + TextsSize(init), s)
  }

  /** The elements a vector's loop reads are exactly those. */
  lemma {:induction false} AcceptsElements(v: View, start: u32, ss: seq<seq<byte>>)
    requires Inside(v) && start <= v.length
    ensures var r := TextElements(v, start, |ss|);
      && (r.Elements? && r.values == ss <==> ElementsHeld(v, ss, start))
      && (r.Elements? && r.values == ss ==> r.next == start + TextsSize(ss) <= v.length + 8)
    decreases |ss|
  {
    hide TextElement, HoldsText;
    if ss != [] {
      var n := |ss| - 1;
      var init := ss[..n];
      AcceptsElements(v, start, init);
      var r := TextElements(v, start, n);
      LastElement(v, start, ss, r);
      if r.Elements? && r.values == init {
        AcceptsElement(v, r.next, ss[n]);
      }
    }
  }

  lemma LastElement(v: View, start: u32, ss: seq<seq<byte>>, r: Elements<seq<byte>>)
    requires ss != [] && r == TextElements(v, start, |ss| - 1)
    ensures var all, n := TextElements(v, start, |ss|), |ss| - 1;
      && (all.Elements? && all.values == ss <==>
           r.Elements? && r.values == ss[..n] && TextElement(v, r.next).Element? && TextElement(v, r.next).value == ss[n])
      && (all.Elements? && all.values == ss ==> all.next == TextElement(v, r.next).next)
  {
    hide TextElement;
    ValuesCount(v, start, |ss| - 1);
    assert ss == ss[..|ss| - 1] + [ss[|ss| - 1]];
  }

  lemma {:induction false} ValuesCount(v: View, start: u32, n: nat)
    ensures TextElements(v, start, n).Elements? ==> |TextElements(v, start, n).values| == n
  {
    hide TextElement;
    if n > 0 {
      ValuesCount(v, start, n - 1);
    }
  }

  lemma AcceptsHeader(v: View, ptr: u32, n: u32)
    requires Inside(v)
    ensures VectorAt(v, ptr) == Count(n) <==>
      && ptr % 8 == 0 && ptr + 8 <= v.length
      && WordAt(v.mem, v.base + ptr) == n && WordAt(v.mem, v.base + ptr + 4) == 0xda4e_da4e
  {
    LessOf(v.length, 8);
    hide WordAt, Less;
  }

  lemma TextsPlain(v: View, h: u32, n: u32)
    requires h in v.index && v.index[h] < 0xFFFF_FFF8 && VectorAt(v, v.index[h]) == Count(n)
    ensures Decoders.FindTexts(v, h) ==
      match TextElements(v, v.index[h] + 8, n)
      case BadElements(e) => Broken(e, true)
      case Elements(ss, _) => Here(Plain(Texts(ss)))
  {
    hide VectorAt, TextElements;
  }

  lemma TextsBroken(v: View, h: u32)
    requires h in v.index && VectorAt(v, v.index[h]).BadHeader?
    ensures Decoders.FindTexts(v, h) == Broken(VectorAt(v, v.index[h]).code, false)
  {
    hide VectorAt, TextElements;
  }

  /** A string vector is accepted exactly when its header is right and its elements lie within the capsule. */
  lemma AcceptsTexts(v: View, h: u32, ss: seq<seq<byte>>)
    requires Inside(v) && h in v.index && |ss| < 0x1_0000_0000
    ensures var ptr := v.index[h];
      Decoders.FindTexts(v, h) == Here(Plain(Texts(ss))) <==>
        && ptr % 8 == 0 && ptr + 8 <= v.length
        && WordAt(v.mem, v.base + ptr) == |ss| && WordAt(v.mem, v.base + ptr + 4) == 0xda4e_da4e
        && ElementsHeld(v, ss, ptr + 8)
  {
    var ptr := v.index[h];
    AcceptsHeader(v, ptr, |ss|);
    hide WordAt, TextElements, ElementsHeld, VectorAt, Decoders.FindTexts;
    match VectorAt(v, ptr)
    case BadHeader(_) => TextsBroken(v, h);
    case Count(n) => AcceptsCounted(v, h, ss, n);
  }

  lemma AcceptsCounted(v: View, h: u32, ss: seq<seq<byte>>, n: u32)
    requires Inside(v) && h in v.index && VectorAt(v, v.index[h]) == Count(n)
    ensures v.index[h] % 8 == 0 && v.index[h] + 8 <= v.length as int
    ensures Decoders.FindTexts(v, h) == Here(Plain(Texts(ss))) <==> n == |ss| && ElementsHeld(v, ss, v.index[h] + 8)
    ensures VectorAt(v, v.index[h]) == Count(n)
  {
    var ptr := v.index[h];
    AcceptsHeader(v, ptr, n);
    hide WordAt, TextElements, ElementsHeld, VectorAt, Decoders.FindTexts;
    TextsPlain(v, h, n);
    ValuesCount(v, ptr + 8, n);
    if n == |ss| {
      AcceptsElements(v, ptr + 8, ss);
    }
    Counted(Decoders.FindTexts(v, h), TextElements(v, ptr + 8, n), ss, n, ElementsHeld(v, ss, ptr + 8));
  }

  lemma Counted(found: Found, r: Elements<seq<byte>>, ss: seq<seq<byte>>, n: nat, held: bool)
    requires found == match r case BadElements(e) => Broken(e, true) case Elements(values, _) => Here(Plain(Texts(values)))
    requires r.Elements? ==> |r.values| == n
    requires n == |ss| ==> (r.Elements? && r.values == ss <==> held)
    ensures found == Here(Plain(Texts(ss))) <==> n == |ss| && held
  {
  }

  // ---- Nested capsules ----

  /** A view of a part of the memory that another view sees. */
  ghost predicate Part(inner: View, v: View) {
    inner.mem == v.mem && v.base <= inner.base && inner.base + inner.length <= v.base + v.length
  }

  /** An accepted nested capsule is decoded from a view of its own within its parent's, at the aligned pointer. */
  lemma NestedStaysInside(v: View, s: Schema, h: u32) returns (inner: View)
    requires Inside(v) && h in v.index && FindNested(v, s, h).Here?
    ensures Part(inner, v) && inner.base == v.base + v.index[h] && v.index[h] % 8 == 0
    ensures DecodeStruct(s, inner).0 == Ok && FindNested(v, s, h) == Here(Struct(DecodeStruct(s, inner).1))
  {
    LessOf(v.length, 8);
    var ptr := v.index[h];
    LessOf(v.length, ptr);
    var len := WordAt(v.mem, v.base + ptr + 4);
    hide Less, WordAt, DecodeStruct, IndexTable;
    inner := Open(v.mem, v.base + ptr, len).view;
    OpenStaysInside(v.mem, v.base + ptr, len);
  }

  /** Decoder::Build never sees more than the memory it was given, and its table is the one behind the header. */
  lemma OpenStaysInside(mem: seq<byte>, base: nat, memoryLength: nat)
    requires base + memoryLength <= |mem|
    ensures var b := Open(mem, base, memoryLength); b.Opened? ==>
      && b.view.mem == mem && b.view.base == base && memoryLength >= 8
      && b.view.length == WordAt(mem, base + 4) <= memoryLength
      && IndexTable(mem, base + 8, WordAt(mem, base)) == Indexed(b.view.index)
  {
    hide WordAt, IndexTable;
  }

  /** Build accepts exactly when the announced length fits the memory, the table fits it, and no hash repeats. */
  lemma OpenAccepts(mem: seq<byte>, base: nat, memoryLength: nat)
    requires base + memoryLength <= |mem|
    requires memoryLength >= 8 ==> WordAt(mem, base) < 0x1FFF_FFFF
    ensures Open(mem, base, memoryLength).Opened? <==>
      && memoryLength >= 8
      && 8 + 8 * WordAt(mem, base) <= WordAt(mem, base + 4) <= memoryLength
      && IndexTable(mem, base + 8, WordAt(mem, base)).Indexed?
  {
    hide WordAt, IndexTable;
  }

  function EntryHash(mem: seq<byte>, off: nat, i: nat): u32
    requires off + 8 * i + 8 <= |mem|
  {
    WordAt(mem, off + 8 * i)
  }

  function EntryWord(mem: seq<byte>, off: nat, i: nat): u32
    requires off + 8 * i + 8 <= |mem|
  {
    WordAt(mem, off + 8 * i + 4)
  }

  lemma EntryRead(mem: seq<byte>, off: nat, n: nat)
    requires n > 0 && off + 8 * n <= |mem|
    ensures IndexTable(mem, off, n) ==
      match IndexTable(mem, off, n - 1)
      case Failed(e) => Failed(e)
      case Indexed(m) =>
        var h := EntryHash(mem, off, n - 1);
        if h in m then Failed(Precondition) else Indexed(m[h := EntryWord(mem, off, n - 1)])
  {
    var at := off + 8 * (n - 1);
    assert mem[at..][..4] == mem[at..at + 4];
    assert mem[at + 4..][..4] == mem[at + 4..at + 4 + 4];
    hide Word32;
  }

  /** The table as a map: every entry's word under its hash, and a repeated hash refused. */
  lemma {:induction false} TableIsMap(mem: seq<byte>, off: nat, n: nat)
    requires off + 8 * n <= |mem|
    ensures IndexTable(mem, off, n).Indexed? <==>
      forall i, j :: 0 <= i < j < n ==> EntryHash(mem, off, i) != EntryHash(mem, off, j)
    ensures IndexTable(mem, off, n).Indexed? ==> var m := IndexTable(mem, off, n).index;
      && (forall i :: 0 <= i < n ==> EntryHash(mem, off, i) in m && m[EntryHash(mem, off, i)] == EntryWord(mem, off, i))
      && forall h <- m :: exists i :: 0 <= i < n && EntryHash(mem, off, i) == h
  {
    if n > 0 {
      EntryRead(mem, off, n);
      hide IndexTable, EntryHash, EntryWord;
      TableIsMap(mem, off, n - 1);
    }
  }
}
