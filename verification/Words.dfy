// Bytes, 32-bit words and the two byte orders of encoding/binary.
module Words {

  const TWO_8 := 256
  const TWO_16 := 65536
  const TWO_24 := 16777216
  const TWO_31 := 2147483648
  const TWO_32 := 4294967296

  type Byte = x: int | 0 <= x < 256
  type Bytes = seq<Byte>
  type U32 = x: int | 0 <= x < 4294967296
  type I32 = x: int | -2147483648 <= x < 2147483648

  datatype ByteOrder = BigEndian | LittleEndian

  /** The conversion uint32(i): two's complement, no change of bits. */
  function ToU32(i: I32): (u: U32)
    ensures ToI32(u) == i
  {
    if i < 0 then i + TWO_32 else i
  }

  /** The conversion int32(u): values from 2^31 up become negative. */
  function ToI32(u: U32): (i: I32) {
    if u < TWO_31 then u else u - TWO_32
  }

  /** The conversion int32(n) of a wider integer: the low 32 bits. */
  function WrapI32(n: int): (i: I32)
    ensures (i - n) % TWO_32 == 0
    ensures -TWO_31 <= n < TWO_31 ==> i == n
  {
    var u := n % TWO_32;
    WrapCongruent(n);
    ToI32(u)
  }

  lemma WrapCongruent(n: int)
    ensures (n % TWO_32 - n) % TWO_32 == 0
    ensures (n % TWO_32 - TWO_32 - n) % TWO_32 == 0
  {}

  /** ByteOrder.PutUint32. */
  function PutU32(o: ByteOrder, v: U32): (b: Bytes)
    ensures |b| == 4
  {
    var b3, b2, b1, b0 := v / TWO_24, v / TWO_16 % TWO_8, v / TWO_8 % TWO_8, v % TWO_8;
    match o
    case BigEndian => [b3, b2, b1, b0]
    case LittleEndian => [b0, b1, b2, b3]
  }

  /** ByteOrder.Uint32. */
  function GetU32(o: ByteOrder, b: Bytes): (v: U32)
    requires |b| == 4
  {
    match o
    case BigEndian => b[0] * TWO_24 + b[1] * TWO_16 + b[2] * TWO_8 + b[3]
    case LittleEndian => b[3] * TWO_24 + b[2] * TWO_16 + b[1] * TWO_8 + b[0]
  }

  /** Reading back what was put gives the same word, in either order. */
  lemma GetPut(o: ByteOrder, v: U32)
    ensures GetU32(o, PutU32(o, v)) == v
  {
    var q1, q2 := v / TWO_8, v / TWO_16;
    assert v == q1 * TWO_8 + v % TWO_8;
    assert q1 / TWO_8 == q2 && q1 == q2 * TWO_8 + q1 % TWO_8;
    assert q2 / TWO_8 == v / TWO_24 && q2 == v / TWO_24 * TWO_8 + q2 % TWO_8;
  }

  /** Putting back what was read gives the same four bytes, in either order. */
  lemma PutGet(o: ByteOrder, b: Bytes)
    requires |b| == 4
    ensures PutU32(o, GetU32(o, b)) == b
  {
    match o
    case BigEndian => Digits(b[0], b[1], b[2], b[3]);
    case LittleEndian => Digits(b[3], b[2], b[1], b[0]);
  }

  lemma Digits(b3: Byte, b2: Byte, b1: Byte, b0: Byte)
    ensures var v := b3 * TWO_24 + b2 * TWO_16 + b1 * TWO_8 + b0;
            v / TWO_24 == b3 && v / TWO_16 % TWO_8 == b2 && v / TWO_8 % TWO_8 == b1 && v % TWO_8 == b0
  {
    var v := b3 * TWO_24 + b2 * TWO_16 + b1 * TWO_8 + b0;
    assert v / TWO_16 == b3 * TWO_8 + b2;
    assert v / TWO_8 == b3 * TWO_16 + b2 * TWO_8 + b1;
  }
}
