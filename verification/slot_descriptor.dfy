/** The catalog's packed 64-bit model descriptor. Armor packs the model set
    in bits 0-15 and the variant in bits 16-23; weapons pack the model set in
    bits 0-15, the weapon type in bits 16-31 and the variant in bits 32-39.
    Higher bits are ignored. */
module SlotDescriptor {
  import opened Bits
  import opened GameTypes

  /** The visual fields a descriptor selects. */
  datatype Visual = Visual(model: SetId, weapon: WeaponType, variant: Byte)

  /** Armor layout: the model set is `(SetId)raw`, the weapon type is 0 and
      the variant is `(byte)(raw >> 16)`. */
  function DecodeArmor(raw: ULong): (d: Visual)
    ensures d.weapon == 0
    ensures d.model as ULong == raw & 0xFFFF
    ensures d.variant as ULong == (raw & 0xFF_0000) >> 16
  {
    Visual(LowShort(raw), 0, LowByte(raw >> 16))
  }

  /** Weapon layout, used for the main hand and the off hand alike: the
      model set is `(SetId)raw`, the weapon type `(WeaponType)(raw >> 16)`
      and the variant `(byte)(raw >> 32)`. */
  function DecodeWeapon(raw: ULong): (d: Visual)
    ensures d.model as ULong == raw & 0xFFFF
    ensures d.weapon as ULong == (raw & 0xFFFF_0000) >> 16
    ensures d.variant as ULong == (raw & 0xFF_0000_0000) >> 32
  {
    Visual(LowShort(raw), LowShort(raw >> 16), LowByte(raw >> 32))
  }

  /** The armor descriptor holding a model set and a variant. */
  function EncodeArmor(model: SetId, variant: Byte): ULong
  {
    model as ULong | ((variant as ULong) << 16)
  }

  /** The weapon descriptor holding the given visual fields. */
  function EncodeWeapon(d: Visual): ULong
  {
    d.model as ULong | ((d.weapon as ULong) << 16) | ((d.variant as ULong) << 32)
  }

  /** Decoding an armor descriptor recovers what was packed into it. */
  lemma DecodeArmorOfEncode(model: SetId, variant: Byte)
    ensures DecodeArmor(EncodeArmor(model, variant)) == Visual(model, 0, variant)
  {
  }

  /** Re-packing a decoded armor descriptor gives back its low 24 bits:
      nothing in bits 0-23 is lost and nothing above them is read. */
  lemma EncodeArmorOfDecode(raw: ULong)
    ensures EncodeArmor(DecodeArmor(raw).model, DecodeArmor(raw).variant) == raw & 0xFF_FFFF
  {
  }

  /** Two armor descriptors decode alike exactly when they agree on bits
      0-23. */
  lemma DecodeArmorSeesLow24(raw: ULong, raw': ULong)
    ensures DecodeArmor(raw) == DecodeArmor(raw') <==> raw & 0xFF_FFFF == raw' & 0xFF_FFFF
  {
    if raw & 0xFF_FFFF != raw' & 0xFF_FFFF {
      EncodeArmorOfDecode(raw);
      EncodeArmorOfDecode(raw');
    } else {
      assert LowShort(raw) == LowShort(raw');
      assert LowByte(raw >> 16) == LowByte(raw' >> 16);
    }
  }

  /** Decoding a weapon descriptor recovers what was packed into it. */
  lemma DecodeWeaponOfEncode(d: Visual)
    ensures DecodeWeapon(EncodeWeapon(d)) == d
  {
  }

  /** Re-packing a decoded weapon descriptor gives back its low 40 bits. */
  lemma EncodeWeaponOfDecode(raw: ULong)
    ensures EncodeWeapon(DecodeWeapon(raw)) == raw & 0xFF_FFFF_FFFF
  {
  }

  /** Two weapon descriptors decode alike exactly when they agree on bits
      0-39. */
  lemma DecodeWeaponSeesLow40(raw: ULong, raw': ULong)
    ensures DecodeWeapon(raw) == DecodeWeapon(raw') <==> raw & 0xFF_FFFF_FFFF == raw' & 0xFF_FFFF_FFFF
  {
    if raw & 0xFF_FFFF_FFFF != raw' & 0xFF_FFFF_FFFF {
      EncodeWeaponOfDecode(raw);
      EncodeWeaponOfDecode(raw');
    } else {
      assert LowShort(raw) == LowShort(raw');
      assert LowShort(raw >> 16) == LowShort(raw' >> 16);
      assert LowByte(raw >> 32) == LowByte(raw' >> 32);
    }
  }
}
