/** capsule/size_builder.h: predicting a capsule's size, field by field. */
module SizeBuilders {
  import opened Bytes
  import opened Values

  class SizeBuilder {
    var oteCount: nat
    var payloadBytes: nat

    constructor ()
      ensures oteCount == 0 && payloadBytes == 0
    {
      oteCount, payloadBytes := 0, 0;
    }

    function Build(): nat
      reads this
    {
      payloadBytes + oteCount * ENTRY + HEADER
    }

    method AddSmallField()
      modifies this
      ensures oteCount == old(oteCount) + 1 && payloadBytes == old(payloadBytes)
    {
      oteCount := oteCount + 1;
    }

    method Add64bField()
      modifies this
      ensures oteCount == old(oteCount) + 1 && payloadBytes == old(payloadBytes) + 8
    {
      oteCount := oteCount + 1;
      payloadBytes := payloadBytes + 8;
    }

    method AddVariableLengthField(payload: nat)
      modifies this
      ensures oteCount == old(oteCount) + 1 && payloadBytes == old(payloadBytes) + RoundUp8(payload)
    {
      oteCount := oteCount + 1;
      payloadBytes := payloadBytes + (payload + 7) / 8 * 8;
    }

    /** Whatever the field's type, the builder grows by one table entry and the field's payload. */
    method Add(v: Value)
      modifies this
      ensures oteCount == old(oteCount) + 1
      ensures payloadBytes == old(payloadBytes) + ValueSize(v)
      decreases v
    {
      hide Size, TextsSize, CapsulesSize, RoundUp8;
      match v {
        case Int64(_) => Add64bField();
        case Text(s) => AddVariableLengthField(|s| + 4);
        case Texts(ss) => AddStringVector(ss);
        case Nested(c) =>
          AddSmallField();
          var size := ComputeStorageSize(c);
          payloadBytes := payloadBytes + size;
        case Many(cs) => AddCapsuleVector(cs);
        case _ => AddSmallField();
      }
    }

    method AddStringVector(ss: seq<seq<byte>>)
      modifies this
      ensures oteCount == old(oteCount) + 1
      ensures payloadBytes == old(payloadBytes) + 8 + TextsSize(ss)
    {
      var bytes := 8;
      for i := 0 to |ss|
        modifies {}
        invariant bytes == 8 + TextsSize(ss[..i])
      {
        bytes := bytes + (4 + |ss[i]| + 7) / 8 * 8;
        assert ss[..i + 1][..i] == ss[..i];
      }
      assert ss[..|ss|] == ss;
      TextsAligned(ss);
      AddVariableLengthField(bytes);
    }

    method AddCapsuleVector(cs: seq<Capsule>)
      modifies this
      ensures oteCount == old(oteCount) + 1
      ensures payloadBytes == old(payloadBytes) + 8 + CapsulesSize(cs)
      decreases cs
    {
      hide Size;
      AddSmallField();
      payloadBytes := payloadBytes + 8;
      for i := 0 to |cs|
        invariant oteCount == old(oteCount) + 1
        invariant payloadBytes == old(payloadBytes) + 8 + CapsulesSize(cs[..i])
      {
        var size := ComputeStorageSize(cs[i]);
        payloadBytes := payloadBytes + size;
        assert cs[..i + 1][..i] == cs[..i];
      }
      assert cs[..|cs|] == cs;
    }
  }

  /** The generated ComputeStorageSize: the prediction is exactly the number of bytes of the serialized capsule. */
  method ComputeStorageSize(c: Capsule) returns (size: nat)
    ensures size == Size(c) == |Serial(c)| && size % 8 == 0
    decreases c
  {
    var sb := new SizeBuilder();
    for i := 0 to |c.fields|
      invariant fresh(sb)
      invariant sb.oteCount == i && sb.payloadBytes == FieldsSize(c.fields[..i])
    {
      sb.Add(c.fields[i].value);
      assert c.fields[..i + 1][..i] == c.fields[..i];
    }
    assert c.fields[..|c.fields|] == c.fields;
    SerialLength(c);
    size := sb.Build();
  }
}
