/** The wire format's constants and layout, byte for byte (capsule/encoder.h, capsule/abi.h). */
module WireExamples {
  import opened Bytes
  import opened Values

  lemma Words()
    ensures LE32(0x0403_0201) == [1, 2, 3, 4]
    ensures LE64(0x0807_0605_0403_0201) == [1, 2, 3, 4, 5, 6, 7, 8]
  {
    assert LE32(0x0807_0605) == [5, 6, 7, 8];
    assert 0x0807_0605_0403_0201 % 0x1_0000_0000 == 0x0403_0201 && 0x0807_0605_0403_0201 / 0x1_0000_0000 == 0x0807_0605;
    hide LE32;
  }

  /** Small scalars live in the table entry, tagged by their width. */
  lemma Tags(offset: nat)
    ensures Slot(Bool(false), offset) == 0xBBBB_BBB0 && Slot(Bool(true), offset) == 0xBBBB_BBB1
    ensures Slot(Int8(0x5A), offset) == 0x8888_885A
    ensures Slot(Int16(0x5555), offset) == 0x1616_5555
    ensures Slot(Int32(55), offset) == 55
    ensures Slot(Int64(7), offset) == Slot(Text([1]), offset) == Slot(Texts([]), offset) == offset
    ensures Slot(Nested(Capsule([])), offset) == Slot(Many([]), offset) == offset
  {
  }

  /** A string: length, bytes, 0xda up to a multiple of eight. */
  lemma TextForm()
    ensures Payload(Text([0x68, 0x69])) == [2, 0, 0, 0, 0x68, 0x69, 0xda, 0xda]
    ensures Payload(Text([])) == [0, 0, 0, 0, 0xda, 0xda, 0xda, 0xda]
  {
    assert LE32(2) == [2, 0, 0, 0] && LE32(0) == [0, 0, 0, 0];
    assert Padding(2) == [0xda, 0xda] && Padding(4) == [0xda, 0xda, 0xda, 0xda];
  }

  lemma Numbers()
    ensures LE32(0) == [0, 0, 0, 0] && LE32(1) == [1, 0, 0, 0] && LE32(2) == [2, 0, 0, 0] && LE32(3) == [3, 0, 0, 0]
    ensures LE32(7) == [7, 0, 0, 0] && LE32(16) == [16, 0, 0, 0] && LE32(32) == [32, 0, 0, 0] && LE32(40) == [40, 0, 0, 0]
    ensures LE32(44) == [44, 0, 0, 0] && LE32(48) == [48, 0, 0, 0] && LE32(55) == [55, 0, 0, 0]
    ensures LE32(0xBBBB_BBB1) == [0xB1, 0xBB, 0xBB, 0xBB] && LE32(PADDING) == [0x4e, 0xda, 0x4e, 0xda]
    ensures LE64(7) == [7, 0, 0, 0, 0, 0, 0, 0]
  {
  }

  lemma OneByteText(b: byte)
    ensures TextBytes([b]) == [1, 0, 0, 0, b, 0xda, 0xda, 0xda]
  {
    assert LE32(1) == [1, 0, 0, 0] && Padding(3) == [0xda, 0xda, 0xda];
  }

  /** A vector: element count, the padding word, the elements in order. */
  lemma VectorForm()
    ensures Payload(Texts([[0x61], [0x62]]))
         == [2, 0, 0, 0] + [0x4e, 0xda, 0x4e, 0xda] + [1, 0, 0, 0, 0x61, 0xda, 0xda, 0xda] + [1, 0, 0, 0, 0x62, 0xda, 0xda, 0xda]
  {
    Numbers();
    OneByteText(0x61);
    OneByteText(0x62);
    var ss: seq<seq<byte>> := [[0x61], [0x62]];
    TextsAppended([], [0x61], ss[..1]);
    TextsAppended(ss[..1], [0x62], ss);
    hide LE32, TextBytes, TextsBytes;
  }

  lemma TextsAppended(init: seq<seq<byte>>, s: seq<byte>, ss: seq<seq<byte>>)
    requires ss == init + [s]
    ensures TextsBytes(ss) == TextsBytes(init) + TextBytes(s) && TextsBytes([]) == []
  {
    assert ss[..|ss| - 1] == init;
    hide TextBytes;
  }

  /** One more field: its entry at the end of the table, its payload at the end of the payloads. */
  lemma Appended(init: seq<Field>, f: Field, fs: seq<Field>, start: nat, entry: seq<byte>, payload: seq<byte>)
    requires fs == init + [f]
    requires entry == LE32(f.hash) + LE32(Slot(f.value, start + FieldsSize(init))) && payload == Payload(f.value)
    ensures Table(fs, start) == Table(init, start) + entry && Payloads(fs) == Payloads(init) + payload
    ensures FieldsSize(fs) == FieldsSize(init) + ValueSize(f.value)
    ensures Table([], start) == [] && Payloads([]) == [] && FieldsSize([]) == 0
  {
    assert fs[..|fs| - 1] == init && fs[|fs| - 1] == f;
    AppendedPayload(fs);
    AppendedSize(fs);
    hide LE32, Slot, Payload, Payloads, FieldsSize, ValueSize;
  }

  lemma AppendedPayload(fs: seq<Field>)
    requires fs != []
    ensures Payloads(fs) == Payloads(fs[..|fs| - 1]) + Payload(fs[|fs| - 1].value) && Payloads([]) == []
  {
    hide Payload;
  }

  lemma AppendedSize(fs: seq<Field>)
    requires fs != []
    ensures FieldsSize(fs) == FieldsSize(fs[..|fs| - 1]) + ValueSize(fs[|fs| - 1].value) && FieldsSize([]) == 0
  {
    hide ValueSize;
  }

  /** Header, table, payloads: here a single literal. */
  lemma OneField()
    ensures Serial(Capsule([Field(44, Int32(55))])) == [1, 0, 0, 0] + [16, 0, 0, 0] + ([44, 0, 0, 0] + [55, 0, 0, 0])
  {
    var fs := [Field(44, Int32(55))];
    Numbers();
    hide LE32, Table, Payloads, FieldsSize;
    Appended([], fs[0], fs, 16, [44, 0, 0, 0] + [55, 0, 0, 0], []);
  }

  /** The fields' entries in order, and their payloads in the same order, each where its entry says. */
  lemma ThreeFields()
    ensures Serial(Capsule([Field(1, Int64(7)), Field(2, Bool(true)), Field(3, Text([0x68]))]))
         == [3, 0, 0, 0] + [48, 0, 0, 0]
            + (([1, 0, 0, 0] + [32, 0, 0, 0]) + ([2, 0, 0, 0] + [0xB1, 0xBB, 0xBB, 0xBB]) + ([3, 0, 0, 0] + [40, 0, 0, 0]))
            + ([7, 0, 0, 0, 0, 0, 0, 0] + [1, 0, 0, 0, 0x68, 0xda, 0xda, 0xda])
  {
    var f1, f2, f3 := Field(1, Int64(7)), Field(2, Bool(true)), Field(3, Text([0x68]));
    var fs := [f1, f2, f3];
    Numbers();
    OneByteText(0x68);
    hide LE32, LE64, Table, Payloads, FieldsSize, TextBytes;
    Appended([], f1, [f1], 32, [1, 0, 0, 0] + [32, 0, 0, 0], [7, 0, 0, 0, 0, 0, 0, 0]);
    Appended([f1], f2, [f1, f2], 32, [2, 0, 0, 0] + [0xB1, 0xBB, 0xBB, 0xBB], []);
    Appended([f1, f2], f3, fs, 32, [3, 0, 0, 0] + [40, 0, 0, 0], [1, 0, 0, 0, 0x68, 0xda, 0xda, 0xda]);
  }
}
