/**
 * The host's NBT tag tree, reduced to the tag kinds the item-array encoding touches,
 * and the accessors of NbtCompound and NbtList that the serializer calls.
 */
module Nbt {

  /** A Java `int`. */
  type int32 = x: int | -0x8000_0000 <= x < 0x8000_0000

  datatype Tag =
    | Int(value: int32)
    | Str(text: string)
    | List(elements: seq<Tag>)
    | Compound(entries: map<string, Tag>)

  /** NbtCompound.getInt(key, fallback): the int stored under `key`, or `fallback` when there is none. */
  function GetInt(c: map<string, Tag>, key: string, fallback: int32): int32 {
    if key in c && c[key].Int? then c[key].value else fallback
  }

  /** NbtCompound.getListOrEmpty(key): the list stored under `key`, or an empty list. */
  function GetListOrEmpty(c: map<string, Tag>, key: string): seq<Tag> {
    if key in c && c[key].List? then c[key].elements else []
  }

  /** NbtCompound.getCompoundOrEmpty(key): the compound stored under `key`, or an empty compound. */
  function GetCompoundOrEmpty(c: map<string, Tag>, key: string): map<string, Tag> {
    if key in c && c[key].Compound? then c[key].entries else map[]
  }

  /** NbtList.getCompoundOrEmpty(i): the compound at position `i`, or an empty compound when
      `i` is out of range or the element there is not a compound. */
  function CompoundOrEmptyAt(l: seq<Tag>, i: int): map<string, Tag> {
    if 0 <= i < |l| && l[i].Compound? then l[i].entries else map[]
  }
}
