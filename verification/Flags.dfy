// message/flag.go

module Bits {
  lemma IntOfBits(b: int)
    requires 0 <= b < 256
    ensures (b as bv8) as int == b
  {}
}

// The conversions between the flag and its byte on the wire.
module FlagWire {
  import opened Words
  import Bits

  function ToByte(f: bv8): Byte {
    f as int
  }

  function FromByte(b: Byte): bv8 {
    b as bv8
  }

  lemma FlagByte(b: Byte)
    ensures ToByte(FromByte(b)) == b
  {
    Bits.IntOfBits(b);
  }

  lemma ByteFlag(f: bv8)
    ensures FromByte(ToByte(f)) == f
  {}
}

module Flags {

  type Flag = bv8

  const NO_FLAGS: Flag := 0
  const CONFIRM: Flag := 1
  const NOREPLY: Flag := 2
  const HEARTBEAT: Flag := 4
  const BROADCAST: Flag := 8
  const COMPRESSED: Flag := 16
  const ENCRYPTED: Flag := 32
  const FRAGMENTED: Flag := 64

  predicate Has(f: Flag, t: Flag) {
    f & t > 0
  }

  function Set(f: Flag, t: Flag): Flag {
    f | t
  }

  function Delete(f: Flag, t: Flag): Flag {
    f & !t
  }

  lemma SetHas(f: Flag, t: Flag, u: Flag)
    ensures Has(Set(f, t), u) <==> Has(f, u) || Has(t, u)
  {}

  const MARKS := [CONFIRM, NOREPLY, HEARTBEAT, BROADCAST, COMPRESSED, ENCRYPTED, FRAGMENTED]

  /** The marks are seven different bits, the i-th one the i-th bit: setting one sets no other. */
  lemma MarksApart()
    ensures |MARKS| == 7 && forall i :: 0 <= i < 7 ==> MARKS[i] == 1 << i
    ensures forall i, j :: 0 <= i < 7 && 0 <= j < 7 ==> (Has(MARKS[i], MARKS[j]) <==> i == j)
  {}

  /** Deleting a bit clears it and no other bit. */
  lemma DeleteHas(f: Flag, t: Flag, u: Flag)
    ensures !Has(Delete(f, t), t)
    ensures u & t == 0 ==> (Has(Delete(f, t), u) <==> Has(f, u))
  {}

  /** The compression mark, set on the wire and deleted by the receiver, leaves the flag as it was
      exactly when it was not there before. */
  lemma DeleteSet(f: Flag, t: Flag)
    ensures Delete(Set(f, t), t) == f <==> !Has(f, t)
  {}
}
