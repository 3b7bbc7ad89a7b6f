/** The C++ integer types that the driver computes with, as range-checked
    newtypes: every operation on them carries the proof obligation that it
    neither overflows nor goes below zero. */
module MachineInts {
  newtype int32 = x: int | -0x8000_0000 <= x < 0x8000_0000
  newtype uint32 = x: int | 0 <= x < 0x1_0000_0000

  const INT32_MAX: int := 0x7fff_ffff
  const INT32_MIN: int := -0x8000_0000

  /** C++ integer division by one of the positive constants that the driver divides
      an int by: rounds toward zero. */
  function TruncDiv400(a: int32): int32 {
    if a >= 0 then a / 400 else (-(-(a as int) / 400)) as int32
  }

  function TruncDiv146097(a: int32): int32 {
    if a >= 0 then a / 146097 else (-(-(a as int) / 146097)) as int32
  }

  /** Conversion of a signed value to `unsigned`: modulo 2^32. */
  function ToUnsigned(x: int32): uint32 {
    if x >= 0 then x as uint32 else (x as int + 0x1_0000_0000) as uint32
  }

  /** Conversion of an `unsigned` value to `int`: the two's complement reading. */
  function ToSigned(u: uint32): int32 {
    if u < 0x8000_0000 then u as int32 else (u as int - 0x1_0000_0000) as int32
  }

  /** Both conversions keep the value modulo 2^32, and non-negative ints altogether. */
  lemma ConversionsAreModular(x: int32, u: uint32)
    ensures (ToUnsigned(x) as int - x as int) % 0x1_0000_0000 == 0 && (x >= 0 ==> ToUnsigned(x) as int == x as int)
    ensures (ToSigned(u) as int - u as int) % 0x1_0000_0000 == 0
    ensures u <= 0x7fff_ffff ==> ToSigned(u) as int == u as int
  {}

  /** A year before 1 is stored as a wrapped unsigned and comes back unharmed. */
  lemma UnsignedRoundTrip(x: int32)
    ensures ToSigned(ToUnsigned(x)) == x
  {}
}
