/** The equip item: an immutable value combining a display name, a 64-bit
    identity, an icon id and the visual fields (model set, weapon type,
    variant, equip category). Items are made from catalog rows (armor, main
    hand, off hand), from explicit fields, or from an identity alone, and
    travel as a flat seven-field tuple. */
module EquipItems {
  import opened Bits
  import opened Options
  import opened GameTypes
  import Decimal
  import Naming
  import SlotDescriptor
  import SyntheticId

  datatype EquipItem = EquipItem(
    name: string,
    id: ULong,
    iconId: UShort,
    modelId: SetId,
    weaponType: WeaponType,
    variant: Byte,
    equipType: FullEquipType)

  /** The flat interchange form: name, id, icon, model set, weapon type,
      variant and category ordinal, in that order. */
  type PseudoEquipItem = (string, ULong, UShort, UShort, UShort, Byte, Byte)

  /** The default value: empty name and every number zero. */
  function Empty(): (it: EquipItem)
    ensures it.name == [] && it.id == 0 && ItemId(it) == 0
    ensures it.iconId == 0 && it.equipType == 0
    ensures ModelString(it) == "0-0"
  {
    EquipItem([], 0, 0, 0, 0, 0, 0)
  }

  /** The catalog id an item carries: the low 32 bits of its identity. */
  function ItemId(it: EquipItem): (r: UInt)
    ensures r as ULong == it.id & 0xFFFF_FFFF
    ensures r as ULong == it.id <==> it.id < 0x1_0000_0000
  {
    LowUInt(it.id)
  }

  /** An item is valid when its category is known. */
  predicate Valid(it: EquipItem)
  {
    it.equipType != Unknown
  }

  /** The armor look of the item, with a dye. */
  function ArmorView(it: EquipItem, stain: StainId): (SetId, Byte, StainId)
  {
    (it.modelId, it.variant, stain)
  }

  /** The armor look of the item, undyed. */
  function Armor(it: EquipItem): (SetId, Byte, StainId)
  {
    ArmorView(it, 0)
  }

  /** The weapon look of the item, with a dye. */
  function WeaponView(it: EquipItem, stain: StainId): (SetId, WeaponType, Byte, StainId)
  {
    (it.modelId, it.weaponType, it.variant, stain)
  }

  /** The weapon look of the item, undyed. */
  function Weapon(it: EquipItem): (SetId, WeaponType, Byte, StainId)
  {
    WeaponView(it, 0)
  }

  /** `model-variant` for a non-weapon, `model-weapon-variant` otherwise. */
  function ModelString(it: EquipItem): string
  {
    Naming.ModelText(it.modelId as nat, it.weaponType as nat, it.variant as nat)
  }

  /** The text form of an item is its name. */
  function ToString(it: EquipItem): string
  {
    it.name
  }

  /** The model string reads back as the item's visual fields. */
  lemma ModelStringDeterminesVisual(it: EquipItem)
    ensures Naming.ParseModelText(ModelString(it))
         == Some((it.modelId as nat, it.weaponType as nat, it.variant as nat))
  {
    Naming.ParseModelTextOfModelText(it.modelId as nat, it.weaponType as nat, it.variant as nat);
  }

  /** The model string has a weapon-type segment exactly when the 16-bit
      weapon type is nonzero. */
  lemma ModelStringSegments(it: EquipItem)
    ensures it.weaponType == 0
        ==> ModelString(it) == Decimal.Render(it.modelId as nat) + "-" + Decimal.Render(it.variant as nat)
    ensures it.weaponType != 0
        ==> ModelString(it) == Decimal.Render(it.modelId as nat) + "-" + Decimal.Render(it.weaponType as nat)
                               + "-" + Decimal.Render(it.variant as nat)
  {
    var w := it.weaponType as nat;
    if it.weaponType == 0 {
      assert w == 0;
    } else {
      NonzeroAsNat(it.weaponType);
    }
  }

  /** A nonzero 16-bit value has a nonzero numeric value. */
  lemma NonzeroAsNat(w: WeaponType)
    requires w != 0
    ensures w as nat != 0
  {
  }

  /** Items whose visual fields differ have different model strings. */
  lemma ModelStringInjective(a: EquipItem, b: EquipItem)
    requires ModelString(a) == ModelString(b)
    ensures a.modelId == b.modelId && a.weaponType == b.weaponType && a.variant == b.variant
  {
    ModelStringDeterminesVisual(a);
    ModelStringDeterminesVisual(b);
    ShortOfNat(a.modelId, b.modelId);
    ShortOfNat(a.weaponType, b.weaponType);
    ByteOfNat(a.variant, b.variant);
  }

  /** Two 16-bit values with the same numeric value are equal. */
  lemma ShortOfNat(a: UShort, b: UShort)
    requires a as nat == b as nat
    ensures a == b
  {
    assert a == (a as nat) as UShort;
    assert b == (b as nat) as UShort;
  }

  /** Two 8-bit values with the same numeric value are equal. */
  lemma ByteOfNat(a: Byte, b: Byte)
    requires a as nat == b as nat
    ensures a == b
  {
    assert a == (a as nat) as Byte;
    assert b == (b as nat) as Byte;
  }

  /** Implicit conversion from the tuple form. Every slot becomes the
      matching field; the 64-bit id slot is kept whole, so the cut to
      32 bits happens only on the way out, in `ToPseudo`. */
  function FromPseudo(t: PseudoEquipItem): (it: EquipItem)
    ensures it.id == t.1
    ensures it.name == t.0 && it.iconId == t.2 && it.modelId == t.3
    ensures it.weaponType == t.4 && it.variant == t.5 && it.equipType == t.6
    ensures ItemId(it) as ULong == t.1 & 0xFFFF_FFFF
    ensures Valid(it) <==> t.6 != Unknown
  {
    EquipItem(t.0, t.1, t.2, t.3, t.4, t.5, t.6)
  }

  /** Explicit conversion to the tuple form. The id slot receives
      `ItemId`, the identity cut to 32 bits. */
  function ToPseudo(it: EquipItem): (t: PseudoEquipItem)
    ensures t.1 == it.id & 0xFFFF_FFFF
  {
    var id := ItemId(it) as ULong;
    assert id == it.id & 0xFFFF_FFFF;
    (it.name, id, it.iconId, it.modelId, it.weaponType, it.variant, it.equipType)
  }

  /** Through the tuple and back, every field but the identity survives,
      and the identity comes back cut to its low 32 bits. */
  lemma PseudoRoundTrip(it: EquipItem)
    ensures FromPseudo(ToPseudo(it)) == it.(id := it.id & 0xFFFF_FFFF)
  {
  }

  /** The trip through the tuple is lossless exactly for identities below
      2^32. */
  lemma PseudoRoundTripExact(it: EquipItem)
    ensures FromPseudo(ToPseudo(it)) == it <==> it.id < 0x1_0000_0000
  {
    PseudoRoundTrip(it);
    if it.id >= 0x1_0000_0000 {
      assert FromPseudo(ToPseudo(it)).id != it.id;
    }
  }

  /** From the tuple to an item and back, the tuple is kept except for its
      id slot, which is cut to 32 bits. */
  lemma PseudoOfFromPseudo(t: PseudoEquipItem)
    ensures ToPseudo(FromPseudo(t)) == (t.0, t.1 & 0xFFFF_FFFF, t.2, t.3, t.4, t.5, t.6)
  {
  }

  /** Armor from a catalog row: the layout of the row's main descriptor is
      the armor one and the identity is the row id. */
  function FromArmor(catalog: Catalog, row: CatalogRow): (it: EquipItem)
    ensures it.name == row.name && it.iconId == row.icon
    ensures it.id == row.rowId as ULong
    ensures it.equipType == catalog.toEquipType(row)
    ensures it.weaponType == 0
    ensures it.modelId as ULong == row.modelMain & 0xFFFF
    ensures it.variant as ULong == (row.modelMain >> 16) & 0xFF
  {
    var d := SlotDescriptor.DecodeArmor(row.modelMain);
    EquipItem(row.name, row.rowId as ULong, row.icon, d.model, d.weapon, d.variant, catalog.toEquipType(row))
  }

  /** Weapon fields of a catalog item, read from the given descriptor. */
  function FromWeaponDescriptor(name: string, row: CatalogRow, raw: ULong, equipType: FullEquipType): (it: EquipItem)
    ensures it.name == name && it.iconId == row.icon && it.equipType == equipType
    ensures it.id == row.rowId as ULong
    ensures it.modelId as ULong == raw & 0xFFFF
    ensures it.weaponType as ULong == (raw >> 16) & 0xFFFF
    ensures it.variant as ULong == (raw >> 32) & 0xFF
  {
    var d := SlotDescriptor.DecodeWeapon(raw);
    EquipItem(name, row.rowId as ULong, row.icon, d.model, d.weapon, d.variant, equipType)
  }

  /** Main-hand weapon from a catalog row: weapon layout of the main
      descriptor. */
  function FromMainhand(catalog: Catalog, row: CatalogRow): (it: EquipItem)
    ensures it.name == row.name && it.iconId == row.icon
    ensures it.id == row.rowId as ULong
    ensures it.equipType == catalog.toEquipType(row)
    ensures SlotDescriptor.EncodeWeapon(SlotDescriptor.Visual(it.modelId, it.weaponType, it.variant))
         == row.modelMain & 0xFF_FFFF_FFFF
  {
    SlotDescriptor.EncodeWeaponOfDecode(row.modelMain);
    FromWeaponDescriptor(row.name, row, row.modelMain, catalog.toEquipType(row))
  }

  /** Off-hand weapon from a catalog row: weapon layout of the secondary
      descriptor, the category mapped to its off-hand counterpart, and that
      category's suffix appended to the name. */
  function FromOffhand(catalog: Catalog, row: CatalogRow): (it: EquipItem)
    ensures var t := catalog.validOffhand(catalog.toEquipType(row));
      it.equipType == t && it.name == row.name + catalog.offhandTypeSuffix(t)
    ensures it.id == row.rowId as ULong && it.iconId == row.icon
    ensures SlotDescriptor.EncodeWeapon(SlotDescriptor.Visual(it.modelId, it.weaponType, it.variant))
         == row.modelSub & 0xFF_FFFF_FFFF
  {
    var t := catalog.validOffhand(catalog.toEquipType(row));
    SlotDescriptor.EncodeWeaponOfDecode(row.modelSub);
    FromWeaponDescriptor(row.name + catalog.offhandTypeSuffix(t), row, row.modelSub, t)
  }

  /** The armor look of an armor item re-packs to the low 24 bits of the
      row's descriptor. */
  lemma ArmorOfFromArmor(catalog: Catalog, row: CatalogRow, stain: StainId)
    ensures var a := ArmorView(FromArmor(catalog, row), stain);
      a.2 == stain && SlotDescriptor.EncodeArmor(a.0, a.1) == row.modelMain & 0xFF_FFFF
  {
    SlotDescriptor.EncodeArmorOfDecode(row.modelMain);
  }

  /** The weapon look of a main-hand item re-packs to the low 40 bits of the
      row's main descriptor. */
  lemma WeaponOfFromMainhand(catalog: Catalog, row: CatalogRow, stain: StainId)
    ensures var w := WeaponView(FromMainhand(catalog, row), stain);
      w.3 == stain
      && SlotDescriptor.EncodeWeapon(SlotDescriptor.Visual(w.0, w.1, w.2)) == row.modelMain & 0xFF_FFFF_FFFF
  {
  }

  /** The off hand reads the secondary descriptor with the main-hand layout:
      its visual fields are those of a main-hand item whose main descriptor
      is the row's secondary one. */
  lemma OffhandIsMainhandOfSub(catalog: Catalog, row: CatalogRow)
    ensures var off, main := FromOffhand(catalog, row), FromMainhand(catalog, row.(modelMain := row.modelSub));
      && off.modelId == main.modelId && off.weaponType == main.weaponType && off.variant == main.variant
      && off.id == main.id && off.iconId == main.iconId
      && off.name[..|row.name|] == row.name
  {
  }

  /** Catalog items carry 32-bit identities, so the tuple form keeps them
      whole. */
  lemma CatalogItemsSurvivePseudo(catalog: Catalog, row: CatalogRow)
    ensures FromPseudo(ToPseudo(FromArmor(catalog, row))) == FromArmor(catalog, row)
    ensures FromPseudo(ToPseudo(FromMainhand(catalog, row))) == FromMainhand(catalog, row)
    ensures FromPseudo(ToPseudo(FromOffhand(catalog, row))) == FromOffhand(catalog, row)
  {
    PseudoRoundTripExact(FromArmor(catalog, row));
    PseudoRoundTripExact(FromMainhand(catalog, row));
    PseudoRoundTripExact(FromOffhand(catalog, row));
  }

  /** An item from explicit fields. A nonzero catalog id is kept as the
      identity; a zero one is replaced by the synthesized identity of the
      fields. A missing name becomes the placeholder name of the fields. */
  function FromIds(itemId: UInt, iconId: UShort, modelId: SetId, weaponType: WeaponType, variant: Byte,
                   equipType: FullEquipType, name: Option<string>): (it: EquipItem)
    ensures it.iconId == iconId && it.modelId == modelId && it.weaponType == weaponType
    ensures it.variant == variant && it.equipType == equipType
    ensures itemId != 0 ==> it.id == itemId as ULong
    ensures itemId == 0 ==> SyntheticId.IsSynthetic(it.id)
    ensures itemId == 0 ==> SyntheticId.Decode(it.id) == SyntheticId.Fields(modelId, weaponType, variant, equipType)
    ensures name.Some? ==> it.name == name.value
    ensures name.None? ==> Naming.ParseDefaultName(it.name) == Some((modelId as nat, weaponType as nat, variant as nat))
  {
    var fields := SyntheticId.Fields(modelId, weaponType, variant, equipType);
    var given := name.GetOr(Naming.DefaultName(modelId as nat, weaponType as nat, variant as nat));
    SyntheticId.DecodeOfEncode(fields);
    Naming.ParseDefaultNameOfDefaultName(modelId as nat, weaponType as nat, variant as nat);
    EquipItem(given, SyntheticId.BuildIdentity(itemId, fields), iconId, modelId, weaponType, variant, equipType)
  }

  /** An item from an identity alone: the fields are read from the
      identity's bits whatever its marker says, the icon is 0 and the name
      is the placeholder name. */
  function FromId(id: ULong): (it: EquipItem)
    ensures it.id == id && it.iconId == 0
    ensures it.modelId as ULong == id & 0xFFFF
    ensures it.weaponType as ULong == (id >> 16) & 0xFFFF
    ensures it.variant as ULong == (id >> 32) & 0xFF
    ensures it.equipType as ULong == (id >> 40) & 0xFF
    ensures Naming.ParseDefaultName(it.name) == Some((it.modelId as nat, it.weaponType as nat, it.variant as nat))
  {
    var f := SyntheticId.Decode(id);
    Naming.ParseDefaultNameOfDefaultName(f.model as nat, f.weapon as nat, f.variant as nat);
    EquipItem(Naming.DefaultName(f.model as nat, f.weapon as nat, f.variant as nat), id, 0, f.model, f.weapon, f.variant, f.category)
  }

  /** Decoding a synthesized identity gives back the identity, the visual
      fields and the category; the icon comes back as 0, and the name comes
      back too when it was the placeholder. */
  lemma SyntheticRoundTrip(iconId: UShort, modelId: SetId, weaponType: WeaponType, variant: Byte,
                           equipType: FullEquipType, name: Option<string>)
    ensures var a := FromIds(0, iconId, modelId, weaponType, variant, equipType, name);
      var b := FromId(a.id);
      && b.id == a.id && b.iconId == 0
      && b.modelId == modelId && b.weaponType == weaponType && b.variant == variant && b.equipType == equipType
      && (name.None? ==> b.name == a.name)
  {
    var a := FromIds(0, iconId, modelId, weaponType, variant, equipType, name);
    SyntheticId.DecodeOfEncode(SyntheticId.Fields(modelId, weaponType, variant, equipType));
  }

  /** Conversely, an item decoded from an identity is rebuilt by `FromIds`
      from its own fields exactly when the identity has the synthetic shape. */
  lemma FromIdsOfFromId(id: ULong)
    ensures var b := FromId(id);
      FromIds(0, 0, b.modelId, b.weaponType, b.variant, b.equipType, None) == b <==> SyntheticId.IsSynthetic(id)
  {
    SyntheticId.EncodeOfDecode(id);
  }

  /** An item made with a nonzero catalog id keeps it, has bit 48 clear, and
      shares its identity with no item made from a zero id. */
  lemma GenuineIdPassthrough(itemId: UInt, iconId: UShort, modelId: SetId, weaponType: WeaponType, variant: Byte,
                             equipType: FullEquipType, name: Option<string>,
                             iconId': UShort, modelId': SetId, weaponType': WeaponType, variant': Byte,
                             equipType': FullEquipType, name': Option<string>)
    requires itemId != 0
    ensures var a := FromIds(itemId, iconId, modelId, weaponType, variant, equipType, name);
      && a.id == itemId as ULong && !BitSet(a.id, 48) && ItemId(a) == itemId
      && a.id != FromIds(0, iconId', modelId', weaponType', variant', equipType', name').id
  {
  }

  /** In the tuple form a synthesized identity loses everything above bit
      31: its variant, category and marker do not come back. */
  lemma SyntheticIdentityCutByPseudo(iconId: UShort, modelId: SetId, weaponType: WeaponType, variant: Byte,
                                     equipType: FullEquipType, name: Option<string>)
    ensures var a := FromIds(0, iconId, modelId, weaponType, variant, equipType, name);
      var b := FromPseudo(ToPseudo(a));
      && b.id != a.id
      && !SyntheticId.IsSynthetic(b.id)
      && SyntheticId.Decode(b.id) == SyntheticId.Fields(modelId, weaponType, 0, 0)
  {
  }

  /** Validity on each construction path: it is decided by the category
      alone; catalog items are valid when the catalog's category (for the
      off hand, its off-hand counterpart) is known; the default category of
      `FromIds` is never valid; and an item decoded from an identity is
      valid when bits 40-47 are not the unknown ordinal. */
  lemma ValidOnEveryPath(catalog: Catalog, row: CatalogRow,
                         itemId: UInt, iconId: UShort, modelId: SetId, weaponType: WeaponType, variant: Byte,
                         equipType: FullEquipType, name: Option<string>, id: ULong, t: PseudoEquipItem)
    ensures Valid(FromArmor(catalog, row)) <==> catalog.toEquipType(row) != Unknown
    ensures Valid(FromMainhand(catalog, row)) <==> catalog.toEquipType(row) != Unknown
    ensures Valid(FromOffhand(catalog, row)) <==> catalog.validOffhand(catalog.toEquipType(row)) != Unknown
    ensures Valid(FromIds(itemId, iconId, modelId, weaponType, variant, equipType, name)) <==> equipType != Unknown
    ensures !Valid(FromIds(itemId, iconId, modelId, weaponType, variant, Unknown, name))
    ensures Valid(FromId(id)) <==> (id >> 40) & 0xFF != Unknown as ULong
    ensures Valid(FromPseudo(t)) <==> t.6 != Unknown
  {
  }

  /** The name of an item decoded from an identity is its placeholder name,
      which reads back as the decoded fields and is the model string in
      `Unknown (…)`. */
  lemma ToStringOfFromId(id: ULong)
    ensures var it := FromId(id);
      && Naming.ParseDefaultName(ToString(it)) == Some((it.modelId as nat, it.weaponType as nat, it.variant as nat))
      && ToString(it) == Naming.Wrap(ModelString(it))
  {
    var it := FromId(id);
    Naming.DefaultNameWrapsModelText(it.modelId as nat, it.weaponType as nat, it.variant as nat);
  }
}
