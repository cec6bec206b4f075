# EquipItem bit-packing model

A Dafny model of the `EquipItem` value type of Penumbra.GameData
(`Structs/EquipItem.cs`). An equip item names one visual piece of armor or
one weapon. It holds:

- a display name;
- a 64-bit identity;
- a 16-bit icon id;
- the visual fields: model-set id (16 bits), weapon type (16 bits, 0 for
  armor), variant (8 bits) and equip category.

The model covers four parts of the source:

1. **Slot descriptors.** A catalog row's packed 64-bit `ModelMain` /
   `ModelSub` field is decoded with a layout that depends on the slot.
   Armor reads model bits 0-15 and variant bits 16-23, with weapon type 0.
   Main hand and off hand read model bits 0-15, weapon type bits 16-31 and
   variant bits 32-39. The off hand reads `ModelSub`.
2. **Synthetic identities.** `FromIds` with catalog id 0 packs model, weapon
   type, variant and category into bits 0-47 and sets marker bit 48. A
   nonzero 32-bit catalog id is kept unchanged. `FromId` reads the four
   fields back from any 64-bit id, whatever its marker bit says.
3. **Text forms.** `ModelString` is `m-v` or `m-w-v`. The placeholder name
   is `Unknown (m-v)` or `Unknown (m-w-v)`. The weapon-type segment is
   omitted when the weapon type is 0. Each form has a reader, and the
   model proves that the text determines the visual identity.
4. **Tuple form.** An item converts to and from a flat seven-field tuple.
   The tuple stores `ItemId`, the identity cut to its low 32 bits. So the
   trip through the tuple is exact only for identities below 2^32. A
   synthesized identity loses its variant, category and marker.

Files and modules:

- `bits.dfy` (`Bits`): C# `ulong`/`uint`/`ushort`/`byte` as `bv64`/`bv32`/
  `bv16`/`bv8`, and the narrowing casts.
- `options.dfy` (`Options`): an optional value.
- `decimal.dfy` (`Decimal`): decimal rendering of unsigned numbers and the
  matching reader.
- `naming.dfy` (`Naming`): model string and placeholder name, with readers.
- `game_types.dfy` (`GameTypes`): id types, the catalog row and the catalog
  helpers.
- `slot_descriptor.dfy` (`SlotDescriptor`): descriptor decoding and
  re-encoding.
- `synthetic_id.dfy` (`SyntheticId`): identity synthesis and decoding.
- `equip_item.dfy` (`EquipItems`): the item, its constructors, views and
  tuple conversion.

The tuple's 64-bit id slot receives the 32-bit `ItemId`
(`Structs/EquipItem.cs:20-21`, `:59`). So an item whose identity is 2^32 or
more comes back from the tuple form with a different identity.
`EquipItems.PseudoRoundTripExact` and
`EquipItems.SyntheticIdentityCutByPseudo` state this.

## Model

| member | source | states |
|---|---|---|
| Decimal.Render | Structs/EquipItem.cs:53 | a number is printed as a canonical decimal numeral: only digits, at least one, no leading zero; one digit exactly for numbers below 10 |
| Decimal.ValueOfRender | Structs/EquipItem.cs:53 | reading the printed numeral gives the number back |
| Decimal.RenderOfValue | Structs/EquipItem.cs:53 | every canonical numeral is the printed form of its value |
| Decimal.DigitSpan | Structs/EquipItem.cs:53 | a helper of the reader that inverts the decimal printing at line 53 (nothing in the source parses text): its scan stops exactly at the end of the longest all-digit prefix |
| Decimal.TakeNumberOfRender | Structs/EquipItem.cs:53 | a printed number followed by a non-digit is read back whole, leaving the rest |
| Decimal.TakeNumberSplits | Structs/EquipItem.cs:53 | whatever the reader accepts is a printed number followed by a non-digit |
| Naming.ParseModelTextOfModelText | Structs/EquipItem.cs:52-53 | the model string reads back as the model set, weapon type and variant it was written from |
| Naming.ParseModelTextSound | Structs/EquipItem.cs:52-53 | every string the model-string reader accepts is the model string of what it returns |
| Naming.ModelTextInjective | Structs/EquipItem.cs:52-53 | different visual identities never share a model string |
| Naming.DefaultNameWrapsModelText | Structs/EquipItem.cs:100 | the placeholder name is the model string inside `Unknown (` and `)` |
| Naming.ParseDefaultNameOfDefaultName | Structs/EquipItem.cs:100 | the placeholder name reads back as the identity it was made from |
| Naming.ParseDefaultNameSound | Structs/EquipItem.cs:114 | every string the placeholder reader accepts is the placeholder name of what it returns |
| Naming.DefaultNameInjective | Structs/EquipItem.cs:100 | different visual identities never share a placeholder name |
| Naming.ModelText | Structs/EquipItem.cs:53 | `m-v` when the weapon type is 0, `m-w-v` otherwise; its reader and injectivity are stated by `Naming.ParseModelTextOfModelText`, `Naming.ParseModelTextSound` and `Naming.ModelTextInjective` |
| Naming.DefaultName | Structs/EquipItem.cs:100 | line 100's interpolation, with the `w-` piece only for a nonzero weapon type (line 114 uses the same formula); `Naming.DefaultNameWrapsModelText` ties it to the model string, and `Naming.ParseDefaultNameOfDefaultName` and `Naming.ParseDefaultNameSound` show it determines the identity |
| Naming.Examples | Structs/EquipItem.cs:100 | model 1200 with variant 1 gives `1200-1` and `Unknown (1200-1)`; with weapon type 3 it gives `1200-3-1` and `Unknown (1200-3-1)` |
| SlotDescriptor.DecodeArmor | Structs/EquipItem.cs:67-69 | armor: the model is bits 0-15, the weapon type is 0 and the variant is bits 16-23 of the descriptor |
| SlotDescriptor.DecodeWeapon | Structs/EquipItem.cs:79-81 | weapons: the model is bits 0-15, the weapon type bits 16-31 and the variant bits 32-39 |
| SlotDescriptor.DecodeArmorOfEncode | Structs/EquipItem.cs:67-69 | decoding a packed armor descriptor recovers the model and the variant |
| SlotDescriptor.EncodeArmorOfDecode | Structs/EquipItem.cs:67-69 | re-packing a decoded armor descriptor gives its low 24 bits |
| SlotDescriptor.DecodeArmorSeesLow24 | Structs/EquipItem.cs:67-69 | two armor descriptors decode alike if and only if they agree on bits 0-23 |
| SlotDescriptor.DecodeWeaponOfEncode | Structs/EquipItem.cs:79-81 | decoding a packed weapon descriptor recovers its three fields |
| SlotDescriptor.EncodeWeaponOfDecode | Structs/EquipItem.cs:79-81 | re-packing a decoded weapon descriptor gives its low 40 bits |
| SlotDescriptor.DecodeWeaponSeesLow40 | Structs/EquipItem.cs:91-93 | two weapon descriptors decode alike if and only if they agree on bits 0-39 |
| SyntheticId.Encode | Structs/EquipItem.cs:102 | bits 0-15, 16-31, 32-39 and 40-47 of a synthesized id hold model, weapon type, variant and category; bit 48 is set and bits 49-63 are clear |
| SyntheticId.BuildIdentity | Structs/EquipItem.cs:101-103 | a nonzero catalog id is kept as it is, stays below 2^32 with bit 48 clear; with catalog id 0 the result decodes to exactly the given fields; the result has the synthetic shape if and only if the catalog id is 0 |
| SyntheticId.Decode | Structs/EquipItem.cs:110-113 | any id is read as its bits 0-15, 16-31, 32-39 and 40-47, whatever bit 48 holds |
| SyntheticId.DecodeOfEncode | Structs/EquipItem.cs:101-113 | decoding a synthesized id gives back the packed fields |
| SyntheticId.EncodeOfDecode | Structs/EquipItem.cs:101-113 | re-encoding the decoded fields gives an id back if and only if that id has the synthetic shape |
| SyntheticId.EncodeInjective | Structs/EquipItem.cs:102 | two field tuples get the same synthesized id if and only if they are equal |
| SyntheticId.MarkerSeparation | Structs/EquipItem.cs:97-103 | a kept nonzero catalog id never equals a synthesized id |
| EquipItems.Empty | Structs/EquipItem.cs:38-39 | the default item has an empty name, identity 0, icon 0, category ordinal 0 and model string `0-0` |
| EquipItems.ItemId | Structs/EquipItem.cs:20-21 | the catalog id is the identity modulo 2^32; it equals the identity if and only if the identity is below 2^32 |
| EquipItems.Valid | Structs/EquipItem.cs:23-24 | an item is valid when its category is not the unknown ordinal; its value on every construction path is stated by `EquipItems.ValidOnEveryPath` |
| EquipItems.ModelString | Structs/EquipItem.cs:52-53 | the item's model string; its two formats are stated by `EquipItems.ModelStringSegments`, and that it determines the visual fields by `EquipItems.ModelStringDeterminesVisual` and `EquipItems.ModelStringInjective` |
| EquipItems.ToString | Structs/EquipItem.cs:118-119 | the item's text is its name; for an item decoded from an id, `EquipItems.ToStringOfFromId` shows it is the placeholder name |
| EquipItems.ArmorView | Structs/EquipItem.cs:29-30 | the armor look is (model, variant, dye); `EquipItems.ArmorOfFromArmor` shows that for an armor item it re-packs to the row's descriptor |
| EquipItems.Armor | Structs/EquipItem.cs:26-27 | the undyed armor look, which is the armor look with dye 0 |
| EquipItems.WeaponView | Structs/EquipItem.cs:35-36 | the weapon look is (model, weapon type, variant, dye); `EquipItems.WeaponOfFromMainhand` shows that for a main-hand item it re-packs to the row's descriptor |
| EquipItems.Weapon | Structs/EquipItem.cs:32-33 | the undyed weapon look, which is the weapon look with dye 0 |
| EquipItems.ModelStringDeterminesVisual | Structs/EquipItem.cs:52-53 | an item's model string reads back as its model, weapon type and variant |
| EquipItems.ModelStringSegments | Structs/EquipItem.cs:52-53 | the model string is `m-v` when the 16-bit weapon type is 0 and `m-w-v` otherwise |
| EquipItems.ModelStringInjective | Structs/EquipItem.cs:52-53 | items with the same model string have equal 16-bit model ids, equal 16-bit weapon types and equal 8-bit variants |
| EquipItems.ToPseudo | Structs/EquipItem.cs:58-59 | the tuple's id slot holds `ItemId`, the identity's low 32 bits, and not the identity itself; the other slots are the item's fields, as `EquipItems.PseudoRoundTrip` and `EquipItems.PseudoOfFromPseudo` state |
| EquipItems.FromPseudo | Structs/EquipItem.cs:55-56 | every slot becomes the matching field, and the 64-bit id slot is kept whole (a synthesized id survives the way in); the catalog id is therefore that slot modulo 2^32, and the item is valid exactly when the category slot is not the unknown ordinal |
| EquipItems.PseudoRoundTrip | Structs/EquipItem.cs:55-59 | through the tuple and back, name, icon, model, weapon type, variant and category are kept, and the identity comes back modulo 2^32 |
| EquipItems.PseudoRoundTripExact | Structs/EquipItem.cs:55-59 | the trip through the tuple is an identity if and only if the identity is below 2^32 |
| EquipItems.PseudoOfFromPseudo | Structs/EquipItem.cs:55-59 | tuple to item to tuple keeps every slot except the id slot, which is cut to 32 bits |
| EquipItems.FromArmor | Structs/EquipItem.cs:61-71 | an armor item has the row's name, icon and id, the row's category, weapon type 0, and model and variant from bits 0-15 and 16-23 of `ModelMain` |
| EquipItems.FromWeaponDescriptor | Structs/EquipItem.cs:79-81 | a weapon item has the row's id and icon, and model, weapon type and variant from bits 0-15, 16-31 and 32-39 of the given descriptor |
| EquipItems.FromMainhand | Structs/EquipItem.cs:73-83 | a main-hand item has the row's name, icon, id and category; its visual fields re-pack to the low 40 bits of `ModelMain` |
| EquipItems.FromOffhand | Structs/EquipItem.cs:85-95 | an off-hand item has the off-hand category of the row's category, the row name with that category's suffix, the row's id and icon; its visual fields re-pack to the low 40 bits of `ModelSub` |
| EquipItems.ArmorOfFromArmor | Structs/EquipItem.cs:26-30 | the armor look of an armor item carries the given dye and re-packs to the low 24 bits of `ModelMain` |
| EquipItems.WeaponOfFromMainhand | Structs/EquipItem.cs:32-36 | the weapon look of a main-hand item carries the given dye and re-packs to the low 40 bits of `ModelMain` |
| EquipItems.OffhandIsMainhandOfSub | Structs/EquipItem.cs:85-95 | an off-hand item has the visual fields, id and icon of a main-hand item whose `ModelMain` is the row's `ModelSub`; its name starts with the row's name |
| EquipItems.CatalogItemsSurvivePseudo | Structs/EquipItem.cs:55-95 | armor, main-hand and off-hand items come back unchanged through the tuple form |
| EquipItems.FromIds | Structs/EquipItem.cs:97-105 | the fields are kept; a nonzero catalog id is the identity; with catalog id 0 the identity has the synthetic shape and decodes to the fields; a given name is kept, and a missing one becomes a placeholder that reads back as the fields |
| EquipItems.FromId | Structs/EquipItem.cs:108-116 | the identity is kept, the icon is 0, the fields are bits 0-15, 16-31, 32-39 and 40-47 of the id, and the name reads back as the visual fields |
| EquipItems.SyntheticRoundTrip | Structs/EquipItem.cs:97-116 | decoding a synthesized identity gives the same identity, fields and category, icon 0, and the same name when none was given |
| EquipItems.FromIdsOfFromId | Structs/EquipItem.cs:97-116 | an item decoded from an id is rebuilt by `FromIds` from its own fields if and only if the id has the synthetic shape |
| EquipItems.GenuineIdPassthrough | Structs/EquipItem.cs:97-104 | with a nonzero catalog id, the identity is that id, bit 48 is clear, `ItemId` gives the id back, and no item made from catalog id 0 has that identity |
| EquipItems.SyntheticIdentityCutByPseudo | Structs/EquipItem.cs:58-59 | a synthesized identity does not survive the tuple: it comes back without marker, variant or category |
| EquipItems.ValidOnEveryPath | Structs/EquipItem.cs:23-24 | validity means a known category on every path: armor and main-hand items are valid when the row's category is known, off-hand items when its off-hand counterpart is; the default category of `FromIds` is never valid; `FromId` is valid when bits 40-47 are not the unknown ordinal; a tuple gives a valid item when its category slot is known |
| EquipItems.ToStringOfFromId | Structs/EquipItem.cs:114-119 | the text of an item decoded from an id is its model string inside `Unknown (` and `)`, and reads back as its visual fields |

## Left out

- `string.Intern` (line 43) is a process-wide string cache. It does not
  change any value, so names are plain strings. `string.Intern(null)` throws,
  and the tuple conversion (line 56) would reach that with a null name; the
  model has no null strings, matching the source's nullable annotations, under
  which `Name` is a non-nullable `string` (only the optional name at line 98
  is `string?`).
- The Lumina catalog row and its name resolution are foreign library code.
  They become `GameTypes.CatalogRow`, which has a name already resolved to
  text, a 32-bit row id, a 16-bit icon and the two 64-bit descriptors.
- `ToEquipType`, `ValidOffhand` and `OffhandTypeSuffix` (lines 63, 75, 87-88)
  are defined elsewhere. They are the function-valued fields of
  `GameTypes.Catalog`, passed to the constructors, and nothing is assumed
  about them.
- `CharacterArmor` and `CharacterWeapon` (lines 26-36) are defined
  elsewhere. The armor and weapon looks are plain tuples `(model, variant,
  stain)` and `(model, weapon type, variant, stain)`. `SetId`, `WeaponType`
  and `StainId` are 16-bit values. The dye is only passed through, so its
  width does not matter.
- `FullEquipType` is not visible. It is modelled by its 8-bit ordinal,
  which assumes a `byte` underlying type. This matches the `(byte)` cast in
  the tuple form and the eight bits the synthetic id gives it. The ordinal
  of `Unknown` is left unspecified (`GameTypes.Unknown`).
- The default arguments of `FromIds` become ordinary parameters: the
  category (default `Unknown`) and the name (default null, here `None`).
- The `[StructLayout]` attribute and the memory layout of the
  parameterless constructor have no meaning in this model.
