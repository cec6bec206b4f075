/** Fixed-width unsigned integers of the C# runtime and the narrowing casts
    the equip-item code applies to them. A C# `(ushort)x`, `(byte)x` or
    `(uint)x` on a `ulong` keeps the low bits and drops the rest; the
    helpers below say exactly that. */
module Bits {

  /** C# `ulong`, `uint`, `ushort` and `byte`. */
  type ULong = bv64
  type UInt = bv32
  type UShort = bv16
  type Byte = bv8

  /** `(uint)x`: the low 32 bits. */
  function LowUInt(x: ULong): UInt
  {
    (x & 0xFFFF_FFFF) as UInt
  }

  /** `(ushort)x`: the low 16 bits. */
  function LowShort(x: ULong): UShort
  {
    (x & 0xFFFF) as UShort
  }

  /** `(byte)x`: the low 8 bits. */
  function LowByte(x: ULong): Byte
  {
    (x & 0xFF) as Byte
  }

  /** Bit `k` of `x`, bit 0 being the least significant. */
  predicate BitSet(x: ULong, k: nat)
    requires k < 64
  {
    (x >> k) & 1 == 1
  }
}
