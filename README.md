# HuskSync Fabric item-array serialization, modelled in Dafny

HuskSync keeps a player's state in step across the servers of a network. On Fabric,
`FabricSerializer` turns a player's inventory and ender chest into NBT and back. Both use one
encoding for item arrays, the slot-indexed sparse encoding of `ItemDeserializer`:

- `serializeItemArray` writes a container compound. It holds the array's length under
  `size` and a list under `items`.
- The list has one compound per kept stack, tagged with its index under `Slot`.
- A stack is kept when it is non-null, not empty, has a count in 1..99, and the item codec
  encodes it. Any other stack is skipped, and serialization goes on.
- `getItems` reads the container back at the same or a newer game version. It builds a
  null-filled array of the stored size and puts each decoded entry at its slot.
- When the data's version is older than the running one, `getItems` calls
  `upgradeItemStacks` instead. That routine prefills the array with `EMPTY`, scans only the
  first `size` list positions, and passes each entry through the data fixer before decoding it.
- `Inventory` and `EnderChest` wrap this encoding. It comes with defaults: a missing items
  tag, a missing held slot, and dispatch at the running version.

Layout:

- `wrappers.dfy`: `Option` and `Result`.
- `nbt.dfy`: the tag tree and the `NbtCompound`/`NbtList` accessors the code calls.
  These are `getInt(key, fallback)`, `getListOrEmpty`, `getCompoundOrEmpty` and
  `NbtList.getCompoundOrEmpty(i)`.
- `platform.dfy`: item stacks, versions, and `Host`. `Host` is the server's item codec,
  data fixer, version comparison and running version, passed as function values. Each
  property is proved for every choice of them that meets the premises the property states
  (see below). Item stacks themselves, `isEmpty` and `EMPTY` are fixed definitions here, not
  parameters.
- `item_deserializer.dfy`: the three routines. Each is an `array` method, proved equal to a
  specification function over `seq`. The properties are lemmas about those functions.
- `inventory.dfy`, `ender_chest.dfy`: the two serializers, as pure compositions of the
  specification functions.

`ITEMS_TAG`, `HELD_ITEM_SLOT_TAG` and `INVENTORY_SLOT_COUNT` are declared in `Data.java`,
which is not part of this model. The model takes them to be `"items"`, `"selected_slot"` and
41. The round trip depends on `ITEMS_TAG` being `"items"`: `serializeItemArray` writes the list
under `ITEMS_TAG`, while `getItems` reads the literal `"items"`.

A Java array store `contents[i] = decodeNbt(...)` evaluates the right-hand side before it
checks the index (section 15.26.1 of the Java Language Specification). So when an entry has
an out-of-range slot and also fails to decode, the model reports the decode failure. All
failures inside `getItems` become one `DeserializationException`. `Inventory.deserialize` lets
it through as it is; `EnderChest.deserialize` wraps it again (`DeserializationError`).

The round trip at the item-array level, `ItemDeserializer.RoundTrip`, has one premise,
`CodecRoundTrip`: decoding a compound the codec produced gives back the original stack, even
after `Slot` has been added to it. The inventory and ender-chest round trips, and
`RunningVersionReadsCurrent`, have a second premise: `compare(running, running) >= 0`, that is,
`compareTo` does not call the running version older than itself. The one-argument
`deserialize` passes the running version, and only this premise keeps it on the current-version
reader.

## Model

| member | source | states |
|---|---|---|
| ItemDeserializer.EncodeNbt | fabric/src/main/java/net/william278/husksync/data/FabricSerializer.java:274-291 | gives a compound exactly when the codec succeeds and its result is a compound, and then that very compound; a codec failure or a failed cast gives null instead of an exception |
| ItemDeserializer.EntryAt | fabric/src/main/java/net/william278/husksync/data/FabricSerializer.java:206-218 | index i gets an entry exactly when its stack is non-null, non-empty, has a count in 1..99 and encodes to a compound; that entry's `Slot` is i |
| ItemDeserializer.Container | fabric/src/main/java/net/william278/husksync/data/FabricSerializer.java:200-225 | the container is a compound whose `size` is the array's length, whatever was filtered out; it exists for every input, so one bad item never makes serialization fail |
| ItemDeserializer.EntriesShape | fabric/src/main/java/net/william278/husksync/data/FabricSerializer.java:206-219 | each emitted entry is the encoding of the stack at its slot; slots increase strictly and stay below the length; every keepable index has its entry |
| ItemDeserializer.ContainerEntries | fabric/src/main/java/net/william278/husksync/data/FabricSerializer.java:203-223 | the container's `items` list is exactly the emitted entries |
| ItemDeserializer.SkippedShape | fabric/src/main/java/net/william278/husksync/data/FabricSerializer.java:205-216 | the skipped list holds exactly the stacks that pass the filter but fail to encode |
| ItemDeserializer.SerializeItemArray | fabric/src/main/java/net/william278/husksync/data/FabricSerializer.java:200-225 | the loop over the array returns the container and the skipped stacks that the specification functions define |
| ItemDeserializer.PlaceEntries | fabric/src/main/java/net/william278/husksync/data/FabricSerializer.java:181-189 | a successful pass over the list leaves an array of exactly the stored size |
| ItemDeserializer.PlaceEntriesSucceedsIff | fabric/src/main/java/net/william278/husksync/data/FabricSerializer.java:183-189 | the list pass succeeds exactly when every element is acceptable (see ReadCurrentSucceedsIff) |
| ItemDeserializer.ReadCurrentSucceedsIff | fabric/src/main/java/net/william278/husksync/data/FabricSerializer.java:181-194 | reading succeeds exactly when `size` (default 0) is non-negative and every element is a compound whose slot, if non-negative, is below `size` and decodes; otherwise the whole read fails, with no partial array |
| ItemDeserializer.PlaceEntriesSlots | fabric/src/main/java/net/william278/husksync/data/FabricSerializer.java:183-189 | after the list pass, unclaimed slots are null and each claimed slot holds the decode of its last claimant |
| ItemDeserializer.ReadCurrentSlots | fabric/src/main/java/net/william278/husksync/data/FabricSerializer.java:181-189 | the result has length `size`; a slot no entry claims stays null; a claimed slot holds the decoded stack of the last entry claiming it, so a later duplicate overwrites an earlier one; a missing or negative `Slot` claims nothing |
| ItemDeserializer.PlaceEntriesFailureSticks | fabric/src/main/java/net/william278/husksync/data/FabricSerializer.java:183-194 | a failure on one element aborts the whole pass with that failure |
| ItemDeserializer.UpgradeItemData | fabric/src/main/java/net/william278/husksync/data/FabricSerializer.java:264-272 | gives a compound exactly when the data fixer's result is a compound, and then that very compound; any other result is a failed cast |
| ItemDeserializer.UpgradeLoop | fabric/src/main/java/net/william278/husksync/data/FabricSerializer.java:247-259 | a successful upgrade loop leaves an array of exactly the stored size |
| ItemDeserializer.UpgradeLoopSucceedsIff | fabric/src/main/java/net/william278/husksync/data/FabricSerializer.java:250-258 | the first n passes succeed exactly when each of the first n positions is acceptable |
| ItemDeserializer.UpgradedSucceedsIff | fabric/src/main/java/net/william278/husksync/data/FabricSerializer.java:245-272 | the upgrade path succeeds exactly when `size` is non-negative and each of the first `size` positions is missing, empty or untagged, or has a slot below `size` whose upgraded form is a compound that decodes; non-compound elements are skipped here rather than failing |
| ItemDeserializer.UpgradeLoopSlots | fabric/src/main/java/net/william278/husksync/data/FabricSerializer.java:249-258 | after n passes, no slot is null, unclaimed slots are EMPTY, and claimed slots hold the last claimant's upgraded stack |
| ItemDeserializer.UpgradedSlots | fabric/src/main/java/net/william278/husksync/data/FabricSerializer.java:245-259 | the result has length `size` and no null; a slot none of the first `size` positions claims is EMPTY; a claimed slot holds the upgraded, decoded stack of the last claiming position; empty compounds and negative slots claim nothing |
| ItemDeserializer.UpgradeLoopReadsPrefix | fabric/src/main/java/net/william278/husksync/data/FabricSerializer.java:250-251 | the first n passes depend only on the compounds at positions below n |
| ItemDeserializer.UpgradedReadsOnlyFirstSize | fabric/src/main/java/net/william278/husksync/data/FabricSerializer.java:250-251 | only list positions 0..size-1 are examined: cutting the list there leaves the result unchanged |
| ItemDeserializer.UpgradeLoopFailureSticks | fabric/src/main/java/net/william278/husksync/data/FabricSerializer.java:250-259 | a failure in one pass is the result of the whole loop |
| ItemDeserializer.Fill | fabric/src/main/java/net/william278/husksync/data/FabricSerializer.java:249 | `Arrays.fill` sets every element to the given value |
| ItemDeserializer.UpgradeItemStacks | fabric/src/main/java/net/william278/husksync/data/FabricSerializer.java:228-262 | the prefill and index loop over the array return what the upgrade specification defines, failure included |
| ItemDeserializer.ReadItems | fabric/src/main/java/net/william278/husksync/data/FabricSerializer.java:166-170 | the upgrade path is taken exactly when the data's version compares strictly older than the running version |
| ItemDeserializer.RunningVersionReadsCurrent | fabric/src/main/java/net/william278/husksync/data/FabricSerializer.java:168 | reading at the running version never upgrades, given that a version does not compare older than itself |
| ItemDeserializer.GetItems | fabric/src/main/java/net/william278/husksync/data/FabricSerializer.java:166-196 | the dispatch and the in-place forEach over a fresh null-filled array return what the specification defines, failure included |
| ItemDeserializer.RoundTrip | fabric/src/main/java/net/william278/husksync/data/FabricSerializer.java:166-225 | if the codec round-trips, reading a serialized array at the current version gives an array of the same length with each kept stack at its index and null elsewhere |
| InventorySerializer.Deserialize | fabric/src/main/java/net/william278/husksync/data/FabricSerializer.java:72-102 | an unreadable root fails; no items tag gives 41 null slots; the held slot is the int under the held-slot tag, or 0 when there is none; otherwise the contents are getItems' result and its failure passes through unwrapped |
| InventorySerializer.DeserializeAtRunning | fabric/src/main/java/net/william278/husksync/data/FabricSerializer.java:104-107 | the one-argument form reads the contents with the current-version reader, never the upgrade path |
| InventorySerializer.Serialize | fabric/src/main/java/net/william278/husksync/data/FabricSerializer.java:109-120 | the root holds the item container under the items tag and, always present, the held slot as an int tag stored verbatim |
| InventorySerializer.RoundTrip | fabric/src/main/java/net/william278/husksync/data/FabricSerializer.java:96-115 | serialize then deserialize keeps the held slot and each kept stack at its index, null elsewhere |
| EnderChestSerializer.Deserialize | fabric/src/main/java/net/william278/husksync/data/FabricSerializer.java:131-145 | an unreadable root fails; otherwise the contents are getItems' result, and a getItems failure is wrapped a second time |
| EnderChestSerializer.DeserializeAtRunning | fabric/src/main/java/net/william278/husksync/data/FabricSerializer.java:147-150 | the one-argument form reads with the current-version reader, never the upgrade path |
| EnderChestSerializer.Serialize | fabric/src/main/java/net/william278/husksync/data/FabricSerializer.java:152-160 | the serialized form is the container itself: `size` equal to the chest's length and the `items` list equal to the emitted entries |
| EnderChestSerializer.RoundTrip | fabric/src/main/java/net/william278/husksync/data/FabricSerializer.java:139-156 | serialize then deserialize keeps each kept stack at its index, null elsewhere |

## Left out

- NBT text: `StringNbtReader.readCompound` and `NbtCompound.toString` are the host's format. Serialize returns the tag tree. Deserialize takes the parsed root, and a root that is not a compound stands for a string that cannot be read.
- Tag kinds: only int, string, list and compound tags are modelled. The host's `getInt` also converts byte, short, long, float and double tags; here those read as absent.
- The item codec, the data fixer (`upgradeItemData`'s `getDataFixer().update` and `getDataVersion`) and `Version.compareTo` are `Host` parameters, with no definitions.
- `ItemStack` is the host's class, and it is not part of this model. Here it is a fixed datatype. `IsEmpty` is air (`"minecraft:air"`) or a count of zero or less, and `EMPTY` is air with count 0. These stand in for the host's definitions; they are not parameters.
- `FabricData.Items.Inventory.from` and `FabricData.Items.EnderChest.adapt` are not part of this model. They are taken to store the array they are given unchanged. If they instead turned the upgrade path's `EMPTY` slots into null (or the reverse), a deserialized inventory or ender chest would hold something other than what the model states.
- `DynamicRegistryManager` and `getMinecraftServer()` supply only the codec's context, so they have no counterpart here.
- The `SerializationException` catch in both `serialize` methods has no counterpart: nothing the model runs can throw there, so serialization is total.
- `new ItemStack[size]` running out of memory is not modelled; only a negative size fails.
- The debug log of skipped items, the plugin/API constructors and `getPlugin` are not modelled. `SerializeItemArray` still returns the skipped list that the log would print.
- `PotionEffects` and `Advancements` only hand lists to Gson's `toJson`/`fromJson`, a library whose behaviour is not visible, so they are not modelled.
- The `//$$` preprocessor branches for game versions before 1.21.5 are not modelled.
- InventorySerializer.DeserializeAtRunning: its contract holds only when `compareTo` says a version is not older than itself, which the model cannot know about an abstract comparison.
- EnderChestSerializer.DeserializeAtRunning: depends on the same premise about `compareTo`.
