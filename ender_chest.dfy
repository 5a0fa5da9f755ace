/**
 * FabricSerializer.EnderChest: an ender chest is the item container itself. Every failure,
 * of reading or of getItems, is wrapped in one "Failed to read item NBT from string".
 */
module EnderChestSerializer {
  import opened Wrappers
  import opened Nbt
  import opened Platform
  import opened ItemDeserializer

  /** FabricData.Items.EnderChest. */
  datatype EnderChest = EnderChest(contents: Contents)

  /** deserialize(serialized, dataMcVersion). */
  function Deserialize(p: Host, root: Tag, version: Version): (r: Result<EnderChest, DeserializationError>)
    ensures !root.Compound? ==> r == Failure(StringUnreadable(None))
    ensures root.Compound? ==>
              match ReadItems(p, root.entries, version)
              case Failure(f) => r == Failure(StringUnreadable(Some(ItemsUnreadable(f))))
              case Success(c) => r == Success(EnderChest(c))
  {
    if !root.Compound? then Failure(StringUnreadable(None))
    else
      match ReadItems(p, root.entries, version)
      case Failure(f) => Failure(StringUnreadable(Some(ItemsUnreadable(f))))
      case Success(c) => Success(EnderChest(c))
  }

  /** deserialize(serialized): at the running version, which never takes the upgrade path. */
  function DeserializeAtRunning(p: Host, root: Tag): (r: Result<EnderChest, DeserializationError>)
    ensures p.compare(p.running, p.running) >= 0 && root.Compound? ==>
              match ReadCurrent(p, root.entries)
              case Failure(f) => r == Failure(StringUnreadable(Some(ItemsUnreadable(f))))
              case Success(c) => r == Success(EnderChest(c))
  {
    Deserialize(p, root, p.running)
  }

  /** serialize: the container compound of the contents. */
  function Serialize(p: Host, data: EnderChest): (r: Tag)
    requires |data.contents| <= MaxArrayLength
    ensures r.Compound? && GetInt(r.entries, SizeKey, 0) == |data.contents|
    ensures GetListOrEmpty(r.entries, ItemsKey) == Entries(p, data.contents, |data.contents|)
  {
    ContainerEntries(p, data.contents);
    Container(p, data.contents)
  }

  /** Serializing an ender chest and reading it back at the running version keeps every kept
      stack at its index, with null wherever a stack was left out. */
  lemma RoundTrip(p: Host, data: EnderChest)
    requires |data.contents| <= MaxArrayLength
    requires CodecRoundTrip(p)
    requires p.compare(p.running, p.running) >= 0
    ensures DeserializeAtRunning(p, Serialize(p, data)) == Success(EnderChest(Kept(p, data.contents)))
  {
    ItemDeserializer.RoundTrip(p, data.contents);
    RunningVersionReadsCurrent(p, Container(p, data.contents).entries);
  }
}
