/**
 * FabricSerializer.Inventory: a player inventory is a root compound holding the item
 * container under ITEMS_TAG and the selected hotbar slot under HELD_ITEM_SLOT_TAG.
 * The root is taken as a parsed tag; the text form is not part of this model.
 */
module InventorySerializer {
  import opened Wrappers
  import opened Nbt
  import opened Platform
  import opened ItemDeserializer

  /** INVENTORY_SLOT_COUNT: 36 main slots, 4 armour slots and the off-hand. */
  const InventorySlotCount := 41
  /** HELD_ITEM_SLOT_TAG. */
  const HeldItemSlotKey := "selected_slot"

  /** FabricData.Items.Inventory: the contents and the held item slot. */
  datatype Inventory = Inventory(contents: Contents, heldItemSlot: int32)

  /** deserialize(serialized, dataMcVersion). A root that is not a compound stands for a string
      readCompound cannot read; a failure of getItems propagates as it is. */
  function Deserialize(p: Host, root: Tag, version: Version): (r: Result<Inventory, DeserializationError>)
    ensures !root.Compound? ==> r == Failure(StringUnreadable(None))
    ensures root.Compound? && ItemsKey !in root.entries ==> r.Success? && r.value.contents == Nulls(InventorySlotCount)
    ensures root.Compound? && r.Success? ==> r.value.heldItemSlot == GetInt(root.entries, HeldItemSlotKey, 0)
    ensures root.Compound? && HeldItemSlotKey !in root.entries && r.Success? ==> r.value.heldItemSlot == 0
    ensures root.Compound? && ItemsKey in root.entries ==>
              match ReadItems(p, GetCompoundOrEmpty(root.entries, ItemsKey), version)
              case Failure(f) => r == Failure(ItemsUnreadable(f))
              case Success(c) => r.Success? && r.value.contents == c
  {
    if !root.Compound? then Failure(StringUnreadable(None))
    else
      var items := if ItemsKey in root.entries then Some(GetCompoundOrEmpty(root.entries, ItemsKey)) else None;
      var contents := if items.Some? then ReadItems(p, items.value, version) else Success(Nulls(InventorySlotCount));
      match contents
      case Failure(f) => Failure(ItemsUnreadable(f))
      case Success(c) => Success(Inventory(c, GetInt(root.entries, HeldItemSlotKey, 0)))
  }

  /** deserialize(serialized): at the running version, which never takes the upgrade path. */
  function DeserializeAtRunning(p: Host, root: Tag): (r: Result<Inventory, DeserializationError>)
    ensures p.compare(p.running, p.running) >= 0 && root.Compound? && ItemsKey in root.entries ==>
              match ReadCurrent(p, GetCompoundOrEmpty(root.entries, ItemsKey))
              case Failure(f) => r == Failure(ItemsUnreadable(f))
              case Success(c) => r.Success? && r.value.contents == c
  {
    Deserialize(p, root, p.running)
  }

  /** serialize: the container under ITEMS_TAG and the held slot stored as it is. */
  function Serialize(p: Host, data: Inventory): (r: Tag)
    requires |data.contents| <= MaxArrayLength
    ensures r.Compound? && GetInt(r.entries, HeldItemSlotKey, 0) == data.heldItemSlot
    ensures HeldItemSlotKey in r.entries && r.entries[HeldItemSlotKey] == Int(data.heldItemSlot)
    ensures GetCompoundOrEmpty(r.entries, ItemsKey) == Container(p, data.contents).entries
  {
    Compound(map[ItemsKey := Container(p, data.contents), HeldItemSlotKey := Int(data.heldItemSlot)])
  }

  /** Serializing an inventory and reading it back at the running version keeps the held slot
      and every kept stack at its index, with null wherever a stack was left out. */
  lemma RoundTrip(p: Host, data: Inventory)
    requires |data.contents| <= MaxArrayLength
    requires CodecRoundTrip(p)
    requires p.compare(p.running, p.running) >= 0
    ensures DeserializeAtRunning(p, Serialize(p, data)) == Success(Inventory(Kept(p, data.contents), data.heldItemSlot))
  {
    ItemDeserializer.RoundTrip(p, data.contents);
    RunningVersionReadsCurrent(p, Container(p, data.contents).entries);
  }
}
