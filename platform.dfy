/**
 * What the running game server supplies to the serializer: item stacks, versions,
 * the item codec, the data fixer and version comparison. The codec, the fixer and
 * the comparison are parameters, not definitions: the model proves its properties
 * for every choice of them.
 */
module Platform {
  import opened Wrappers
  import opened Nbt

  const Air := "minecraft:air"

  /** An item stack: the item's identifier, its count and its data components. */
  datatype ItemStack = ItemStack(item: string, count: int32, components: map<string, Tag>) {
    /** ItemStack.isEmpty: air, or a count of zero or less. */
    predicate IsEmpty() {
      item == Air || count <= 0
    }
  }

  /** ItemStack.EMPTY. */
  const Empty := ItemStack(Air, 0, map[])

  /** A game version, such as "1.21.5". */
  datatype Version = Version(name: string)

  /**
   * The host pieces the serializer drives.
   * - encode: ItemStack.CODEC.encodeStart(...).getOrThrow(); None when it fails.
   * - decode: ItemStack.CODEC.decode(...).getOrThrow().getFirst(); None when it fails or gives null.
   * - upgrade: the data fixer's update of an item tag from the given version to the running one.
   * - compare: Version.compareTo.
   * - running: the version the server runs.
   */
  datatype Host = Host(
    encode: ItemStack -> Option<Tag>,
    decode: Tag -> Option<ItemStack>,
    upgrade: (Tag, Version) -> Tag,
    compare: (Version, Version) -> int,
    running: Version)
}
