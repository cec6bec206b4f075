/** The small game-data types the equip item is built from, and the
    catalog collaborators it consumes without reimplementing them. */
module GameTypes {
  import opened Bits

  /** Model-set id and weapon-type id: 16-bit values. */
  type SetId = UShort
  type WeaponType = UShort

  /** Dye id carried by the armor and weapon views; it is only passed
      through. */
  type StainId = UShort

  /** The equip category, held as its 8-bit ordinal: the tuple form stores
      it as a `byte` and the synthetic id gives it eight bits. */
  type FullEquipType = Byte

  /** The ordinal of the "unknown" category. Its value is not fixed here:
      nothing below depends on which ordinal it is. */
  const Unknown: FullEquipType

  /** A catalog row, reduced to the fields the item constructors read; the
      name is already resolved to plain text. */
  datatype CatalogRow = CatalogRow(
    name: string,
    rowId: UInt,
    icon: UShort,
    modelMain: ULong,
    modelSub: ULong)

  /** The catalog helpers the constructors call: the row's equip category,
      the offhand counterpart of a category, and the name suffix shown on
      offhand items. */
  datatype Catalog = Catalog(
    toEquipType: CatalogRow -> FullEquipType,
    validOffhand: FullEquipType -> FullEquipType,
    offhandTypeSuffix: FullEquipType -> string)
}
