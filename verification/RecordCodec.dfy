/** The value layout of the cache bucket: two length bytes, the data type, the payload. */
module RecordCodec {
  import opened ByteStrings

  /** What decodeValue does: `OutOfRange` is Go's slice-bounds panic. */
  datatype Decoded = Value(dataType: Bytes, payload: Bytes) | Invalid | OutOfRange

  const MAX_NAME := 0xffff
  /** The longest name for which the 16-bit sum 2 + length does not wrap. */
  const MAX_READABLE_NAME := 0xfffd

  function EncodeValue(dataType: Bytes, payload: Bytes): Bytes
    requires |dataType| <= MAX_NAME
  {
    assert Pow256(2) == 0x10000;
    PutBigEndian(|dataType|, 2) + dataType + payload
  }

  function DecodeValue(v: Bytes): Decoded {
    if |v| < 2 then Invalid
    else
      var dl := BigEndian(v[..2]);
      var end := (2 + dl) % 0x10000;  // uint16 arithmetic
      if end > |v| then Invalid
      else if end < 2 then OutOfRange
      else Value(v[2..end], v[end..])
  }

  lemma TwoByteLength(v: Bytes)
    requires |v| >= 2
    ensures BigEndian(v[..2]) <= MAX_NAME
    ensures PutBigEndian(BigEndian(v[..2]), 2) == v[..2]
  {
    assert Pow256(2) == 0x10000;
    BigEndianBound(v[..2]);
    BigEndianInjective(PutBigEndian(BigEndian(v[..2]), 2), v[..2]);
  }

  /** What Save writes is read back intact exactly for names of at most 65533 bytes; the two
      longer lengths that Save still admits make the reader panic. */
  lemma DecodeEncode(dataType: Bytes, payload: Bytes)
    requires |dataType| <= MAX_NAME
    ensures DecodeValue(EncodeValue(dataType, payload)) == Value(dataType, payload)
            <==> |dataType| <= MAX_READABLE_NAME
    ensures DecodeValue(EncodeValue(dataType, payload)) == OutOfRange
            <==> |dataType| > MAX_READABLE_NAME
  {
    var v := EncodeValue(dataType, payload);
    assert v[..2] == PutBigEndian(|dataType|, 2);
    assert BigEndian(v[..2]) == |dataType|;
    var end := 2 + |dataType|;
    if end < 0x10000 {
      assert v[2..end] == dataType;
      assert v[end..] == payload;
    }
  }

  /** Every value the reader accepts is the encoding of what it returned. */
  lemma EncodeDecode(v: Bytes)
    requires DecodeValue(v).Value?
    ensures |DecodeValue(v).dataType| <= MAX_READABLE_NAME
    ensures EncodeValue(DecodeValue(v).dataType, DecodeValue(v).payload) == v
  {
    TwoByteLength(v);
    var end := 2 + BigEndian(v[..2]);
    assert v == v[..2] + v[2..end] + v[end..];
  }

  /** The reader panics exactly when the length field is one of the two that wrap. */
  lemma PanicsExactlyOnWrap(v: Bytes)
    ensures DecodeValue(v).OutOfRange? <==> |v| >= 2 && BigEndian(v[..2]) > MAX_READABLE_NAME
  {
    if |v| >= 2 {
      TwoByteLength(v);
    }
  }

  /** The layout, byte by byte: the length in two bytes, high byte first, the name, the payload. */
  lemma EncodedLayout(dataType: Bytes, payload: Bytes)
    requires |dataType| <= 65535
    ensures var v := EncodeValue(dataType, payload);
      && |v| == 2 + |dataType| + |payload| && v[0] as int * 256 + v[1] as int == |dataType|
      && v[2..2 + |dataType|] == dataType && v[2 + |dataType|..] == payload
  {
    var v := EncodeValue(dataType, payload);
    assert v[..2] == PutBigEndian(|dataType|, 2);
    assert BigEndian(v[..2]) == v[0] as int * 256 + v[1] as int by {
      assert v[..2][1..] == [v[1]] && Pow256(1) == 256;
    }
  }
}
