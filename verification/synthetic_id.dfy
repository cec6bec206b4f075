/** The 64-bit identity made up for an item that has no catalog row: model
    set in bits 0-15, weapon type in bits 16-31, variant in bits 32-39,
    equip-category ordinal in bits 40-47, a marker in bit 48 and zeros
    above. Genuine catalog ids are 32-bit row ids and never reach bit 48. */
module SyntheticId {
  import opened Bits
  import opened GameTypes

  /** The fields a 64-bit id is read as. */
  datatype Fields = Fields(model: SetId, weapon: WeaponType, variant: Byte, category: FullEquipType)

  /** The marker bit and everything above it hold exactly 1. */
  predicate IsSynthetic(id: ULong)
  {
    id >> 48 == 1
  }

  /** Packs the four fields and sets the marker bit. */
  function Encode(f: Fields): (id: ULong)
    ensures IsSynthetic(id) && BitSet(id, 48)
    ensures id & 0xFFFF == f.model as ULong
    ensures (id >> 16) & 0xFFFF == f.weapon as ULong
    ensures (id >> 32) & 0xFF == f.variant as ULong
    ensures (id >> 40) & 0xFF == f.category as ULong
  {
    f.model as ULong
    | ((f.weapon as ULong) << 16)
    | ((f.variant as ULong) << 32)
    | ((f.category as ULong) << 40)
    | ((1 as ULong) << 48)
  }

  /** The identity of an item: a nonzero catalog id is kept as it is, and
      only a zero id is replaced by a synthesized one. */
  function BuildIdentity(itemId: UInt, f: Fields): (id: ULong)
    ensures itemId != 0 ==> id == itemId as ULong
    ensures itemId != 0 ==> id >> 32 == 0 && !BitSet(id, 48)
    ensures itemId == 0 ==> Decode(id) == f
    ensures IsSynthetic(id) <==> itemId == 0
  {
    if itemId == 0 then Encode(f) else itemId as ULong
  }

  /** Reads any id as the four fields, whatever its marker bit says. */
  function Decode(id: ULong): (f: Fields)
    ensures f.model as ULong == id & 0xFFFF
    ensures f.weapon as ULong == (id & 0xFFFF_0000) >> 16
    ensures f.variant as ULong == (id & 0xFF_0000_0000) >> 32
    ensures f.category as ULong == (id & 0xFF00_0000_0000) >> 40
  {
    Fields(LowShort(id), LowShort(id >> 16), LowByte(id >> 32), LowByte(id >> 40))
  }

  /** Decoding a synthesized id gives back the packed fields. */
  lemma DecodeOfEncode(f: Fields)
    ensures Decode(Encode(f)) == f
  {
  }

  /** Re-encoding a decoded id gives the id back exactly when the id has the
      synthetic shape; any other id is not a synthesized one. */
  lemma EncodeOfDecode(id: ULong)
    ensures Encode(Decode(id)) == id <==> IsSynthetic(id)
  {
  }

  /** Distinct field tuples get distinct synthesized ids. */
  lemma EncodeInjective(f: Fields, g: Fields)
    ensures Encode(f) == Encode(g) <==> f == g
  {
    DecodeOfEncode(f);
    DecodeOfEncode(g);
  }

  /** A kept catalog id never coincides with a synthesized one. */
  lemma MarkerSeparation(itemId: UInt, f: Fields, g: Fields)
    requires itemId != 0
    ensures BuildIdentity(itemId, f) != BuildIdentity(0, g)
  {
  }
}
