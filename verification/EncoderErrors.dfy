/** What a caller of the encoder sees when something does not fit (capsule/encoder.h:97-150, capsule/encoder.cc:20-42). */
module EncoderErrors {
  import opened Bytes
  import opened Values
  import E = Encoders

  /** A table without room: the field is reported as a slot overflow, which later errors do not replace. */
  method SlotOverflow(buf: array<byte>, hash: u32, word: u32) returns (first: E.Outcome, second: E.Outcome)
    requires buf.Length >= 8
    modifies buf
    ensures first == second == E.SlotOverflow
    ensures buf[..] == Put(old(buf[..]), 0, LE32(0) + LE32(8))
  {
    hide LE32, Put;
    var e := new E.Encoder(buf, 0, 8, 0, null);
    e.AddU32(hash, word);
    first := e.result;
    e.AddU64(hash, 7);
    second := e.result;
  }

  /** A payload without room: a space overflow, and neither a table entry nor a byte is written. */
  method SpaceOverflow(buf: array<byte>, hash: u32) returns (result: E.Outcome, slots: nat)
    requires buf.Length >= 16
    modifies buf
    ensures result == E.SpaceOverflow && slots == 0
  {
    hide LE32, Put;
    var e := new E.Encoder(buf, 0, 16, 1, null);
    e.AddU64(hash, 7);
    result, slots := e.result, e.fieldCursor;
  }

  /** A child's error is its parent's and its grandparent's too. */
  method ErrorReachesRoot(buf: array<byte>, hash: u32) returns (result: E.Outcome, parents: E.Outcome, roots: E.Outcome)
    requires buf.Length >= 24
    modifies buf
    ensures result == parents == roots == E.SlotOverflow
  {
    hide LE32, Put;
    var root := new E.Encoder(buf, 0, 8, 0, null);
    var parent := new E.Encoder(buf, 8, 8, 0, root);
    var child := new E.Encoder(buf, 16, 8, 0, parent);
    child.AddU32(hash, 1);
    result, parents, roots := child.result, parent.result, root.result;
  }

  /** Two fields that fit: each has its entry in turn, and the string its padded bytes behind the table. */
  method TwoFields(buf: array<byte>) returns (result: E.Outcome, sealed: nat)
    requires buf.Length >= 32
    modifies buf
    ensures result == E.Ok && sealed == 32
    ensures buf[..32] == Serial(Capsule([Field(44, Int32(55)), Field(3, Text([0x68]))]))
  {
    var c := Capsule([Field(44, Int32(55)), Field(3, Text([0x68]))]);
    assert Size(c) == 32 by {
      assert c.fields[..1] == [Field(44, Int32(55))] && c.fields[..1][..0] == [];
      assert FieldsSize([]) == 0 && FieldsSize(c.fields[..1]) == 0;
    }
    hide LE32, Put, Serial, Size;
    ghost var mem := buf[..];
    var e := new E.Encoder(buf, 0, 32, 2, null);
    e.Encode(c);
    sealed := e.Seal();
    E.Encoder.WholeSerial(mem, 0, c);
    result := e.result;
    PutStart(mem, Serial(c));
  }

  lemma PutStart(mem: seq<byte>, xs: seq<byte>)
    requires |xs| <= |mem|
    ensures Put(mem, 0, xs)[..|xs|] == xs
  {
  }
}
