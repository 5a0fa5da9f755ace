/**
 * The slot-indexed sparse encoding of item arrays (FabricSerializer.ItemDeserializer).
 *
 * An array of optional item stacks is written as a container compound holding the
 * array's length under "size" and, under "items", a list with one compound per kept
 * stack, each tagged with its index under "Slot". Reading it back builds an array of
 * the stored size and puts each decoded entry at its slot; data from an older game
 * version goes through the data fixer instead.
 *
 * Each of the three routines is a method over an `array`, proved equal to a
 * specification function over `seq`; the properties are lemmas about those functions.
 */
module ItemDeserializer {
  import opened Wrappers
  import opened Nbt
  import opened Platform

  const SizeKey := "size"
  /** The list key. serializeItemArray writes it through ITEMS_TAG, whose value is "items". */
  const ItemsKey := "items"
  const SlotKey := "Slot"

  /** Integer.MAX_VALUE, the largest length of a Java array. */
  const MaxArrayLength := 0x7fff_ffff

  /** The contents of an item array: None stands for a null element. */
  type Contents = seq<Option<ItemStack>>

  /** What goes wrong while reading an item array; each becomes a DeserializationException. */
  datatype Failure =
    | NegativeSize        // `new ItemStack[size]` with a negative size
    | NotACompound        // a list element that is not a compound
    | UpgradeNotCompound  // the data fixer returned something other than a compound
    | DecodeFailed        // decodeNbt: the codec failed or gave null
    | SlotOutOfRange      // a slot at or beyond the array's length

  /** Serializer.DeserializationException, by the message it carries. */
  datatype DeserializationError =
    | ItemsUnreadable(failure: Failure)                  // "Failed to read item NBT string"
    | StringUnreadable(cause: Option<DeserializationError>)  // "Failed to read item NBT from string"

  function Nulls(n: nat): Contents {
    seq(n, _ => None)
  }

  /** compound.getInt("Slot", -1). */
  function SlotOf(c: map<string, Tag>): int32 {
    GetInt(c, SlotKey, -1)
  }

  /** The slot a list element claims: -1 for a non-compound or an untagged one. */
  function EntrySlot(e: Tag): int32 {
    if e.Compound? then SlotOf(e.entries) else -1
  }

  // ---------------------------------------------------------------------------
  // serializeItemArray
  // ---------------------------------------------------------------------------

  /** The filter at the head of the loop: a non-null, non-empty stack with a count in 1..99. */
  predicate Storable(item: Option<ItemStack>) {
    item.Some? && !item.value.IsEmpty() && 1 <= item.value.count <= 99
  }

  /** encodeNbt: the codec's result cast to a compound; a failure or a failed cast gives null. */
  function EncodeNbt(p: Host, item: ItemStack): (r: Option<map<string, Tag>>)
    ensures r.Some? <==> p.encode(item).Some? && p.encode(item).value.Compound?
    ensures r.Some? ==> p.encode(item) == Some(Compound(r.value))
  {
    match p.encode(item)
    case Some(Compound(entries)) => Some(entries)
    case _ => None
  }

  /** The entry serializeItemArray emits for index i, if it emits one. */
  function EntryAt(p: Host, items: Contents, i: nat): (r: Option<Tag>)
    requires i < |items| <= MaxArrayLength
    ensures r.Some? <==> Storable(items[i]) && EncodeNbt(p, items[i].value).Some?
    ensures r.Some? ==> EntrySlot(r.value) == i
  {
    if !Storable(items[i]) then None
    else
      match EncodeNbt(p, items[i].value)
      case None => None
      case Some(entry) => Some(Compound(entry[SlotKey := Int(i)]))
  }

  /** The list entries emitted for items[..n]. */
  function Entries(p: Host, items: Contents, n: nat): seq<Tag>
    requires n <= |items| <= MaxArrayLength
  {
    if n == 0 then []
    else
      match EntryAt(p, items, n - 1)
      case None => Entries(p, items, n - 1)
      case Some(e) => Entries(p, items, n - 1) + [e]
  }

  /** The stacks among items[..n] that pass the filter but fail to encode, in order. */
  function Skipped(p: Host, items: Contents, n: nat): seq<ItemStack>
    requires n <= |items|
  {
    if n == 0 then []
    else if Storable(items[n - 1]) && EncodeNbt(p, items[n - 1].value).None? then
      Skipped(p, items, n - 1) + [items[n - 1].value]
    else Skipped(p, items, n - 1)
  }

  /** The container compound serializeItemArray returns. It exists for every input:
      no item, however malformed, makes serialization fail. */
  function Container(p: Host, items: Contents): (r: Tag)
    requires |items| <= MaxArrayLength
    ensures r.Compound? && GetInt(r.entries, SizeKey, 0) == |items|
  {
    Compound(map[SizeKey := Int(|items|), ItemsKey := List(Entries(p, items, |items|))])
  }

  /** Every emitted entry is the encoding of the stack at its slot, tagged with that slot;
      the slots increase strictly and stay below n; and every index whose stack passes the
      filter and encodes has its entry. */
  lemma {:induction false} EntriesShape(p: Host, items: Contents, n: nat)
    requires n <= |items| <= MaxArrayLength
    ensures var es := Entries(p, items, n);
      && (forall k :: 0 <= k < |es| ==> 0 <= EntrySlot(es[k]) < n && EntryAt(p, items, EntrySlot(es[k])) == Some(es[k]))
      && (forall k, k' :: 0 <= k < k' < |es| ==> EntrySlot(es[k]) < EntrySlot(es[k']))
      && (forall i :: 0 <= i < n && EntryAt(p, items, i).Some? ==> exists k :: 0 <= k < |es| && EntrySlot(es[k]) == i)
  {
    if n > 0 {
      EntriesShape(p, items, n - 1);
      var prev := Entries(p, items, n - 1);
      var es := Entries(p, items, n);
      var last := EntryAt(p, items, n - 1);
      if last.Some? {
        assert es == prev + [last.value];
        assert EntrySlot(es[|es| - 1]) == n - 1;
        forall k | 0 <= k < |prev| ensures es[k] == prev[k] && EntrySlot(es[k]) < n - 1 { }
      } else {
        assert es == prev;
      }
      forall i | 0 <= i < n && EntryAt(p, items, i).Some?
        ensures exists k :: 0 <= k < |es| && EntrySlot(es[k]) == i
      {
        if i == n - 1 {
          assert EntrySlot(es[|es| - 1]) == i;
        } else {
          var k :| 0 <= k < |prev| && EntrySlot(prev[k]) == i;
          assert es[k] == prev[k];
        }
      }
    }
  }

  /** The container's list is the sequence of entries whose shape EntriesShape describes. */
  lemma ContainerEntries(p: Host, items: Contents)
    requires |items| <= MaxArrayLength
    ensures GetListOrEmpty(Container(p, items).entries, ItemsKey) == Entries(p, items, |items|)
  {
  }

  /** The skipped list holds exactly the stacks that pass the filter but fail to encode. */
  lemma {:induction false} SkippedShape(p: Host, items: Contents, n: nat)
    requires n <= |items|
    ensures forall x :: x in Skipped(p, items, n) ==> Storable(Some(x)) && EncodeNbt(p, x).None?
    ensures forall i :: 0 <= i < n && Storable(items[i]) && EncodeNbt(p, items[i].value).None? ==>
              items[i].value in Skipped(p, items, n)
  {
    if n > 0 {
      SkippedShape(p, items, n - 1);
    }
  }

  method SerializeItemArray(p: Host, items: array<Option<ItemStack>>) returns (container: Tag, skipped: seq<ItemStack>)
    requires items.Length <= MaxArrayLength
    ensures container == Container(p, items[..])
    ensures skipped == Skipped(p, items[..], items.Length)
  {
    var fields := map[SizeKey := Int(items.Length)];
    var itemList: seq<Tag> := [];
    skipped := [];
    for i := 0 to items.Length
      invariant itemList == Entries(p, items[..], i)
      invariant skipped == Skipped(p, items[..], i)
    {
      var item := items[i];
      if item.None? || item.value.IsEmpty() || item.value.count < 1 || item.value.count > 99 {
        continue;
      }
      var entry := EncodeNbt(p, item.value);
      if entry.None? {
        skipped := skipped + [item.value];
        continue;
      }
      itemList := itemList + [Compound(entry.value[SlotKey := Int(i)])];
    }
    fields := fields[ItemsKey := List(itemList)];
    container := Compound(fields);
  }

  // ---------------------------------------------------------------------------
  // getItems, at the same or a newer version
  // ---------------------------------------------------------------------------

  /** One pass of the forEach: cast the element, read its slot, and store the decoded
      stack there. The decode runs before the array store checks the index. */
  function PlaceEntry(p: Host, contents: Contents, e: Tag): Result<Contents, Failure> {
    if !e.Compound? then Failure(NotACompound)
    else
      var i := SlotOf(e.entries);
      if i < 0 then Success(contents)
      else
        match p.decode(e)
        case None => Failure(DecodeFailed)
        case Some(x) => if i < |contents| then Success(contents[i := Some(x)]) else Failure(SlotOutOfRange)
  }

  /** The forEach over the list, starting from `size` nulls. */
  function PlaceEntries(p: Host, size: nat, es: seq<Tag>): (r: Result<Contents, Failure>)
    ensures r.Success? ==> |r.value| == size
    decreases |es|
  {
    if es == [] then Success(Nulls(size))
    else
      match PlaceEntries(p, size, es[..|es| - 1])
      case Failure(f) => Failure(f)
      case Success(c) => PlaceEntry(p, c, es[|es| - 1])
  }

  /** Reading at the same or a newer version: `size` defaults to 0, a missing list is empty. */
  function ReadCurrent(p: Host, tag: map<string, Tag>): Result<Contents, Failure> {
    var size := GetInt(tag, SizeKey, 0);
    if size < 0 then Failure(NegativeSize)
    else PlaceEntries(p, size, GetListOrEmpty(tag, ItemsKey))
  }

  /** An element the current-version reader accepts: a compound whose slot, when it has a
      non-negative one, is below the size and whose stack decodes. */
  predicate Acceptable(p: Host, size: int, e: Tag) {
    e.Compound? && (SlotOf(e.entries) >= 0 ==> p.decode(e).Some? && SlotOf(e.entries) < size)
  }

  lemma {:induction false} PlaceEntriesSucceedsIff(p: Host, size: nat, es: seq<Tag>)
    ensures PlaceEntries(p, size, es).Success? <==> forall k :: 0 <= k < |es| ==> Acceptable(p, size, es[k])
    decreases |es|
  {
    if es != [] {
      var prev := es[..|es| - 1];
      PlaceEntriesSucceedsIff(p, size, prev);
      assert forall k :: 0 <= k < |prev| ==> prev[k] == es[k];
    }
  }

  /** Reading at the current version succeeds exactly when the size is non-negative and every
      list element is acceptable; otherwise it fails as a whole, with no partial array. */
  lemma ReadCurrentSucceedsIff(p: Host, tag: map<string, Tag>)
    ensures ReadCurrent(p, tag).Success? <==>
              GetInt(tag, SizeKey, 0) >= 0 &&
              forall k :: 0 <= k < |GetListOrEmpty(tag, ItemsKey)| ==>
                Acceptable(p, GetInt(tag, SizeKey, 0), GetListOrEmpty(tag, ItemsKey)[k])
  {
    var size := GetInt(tag, SizeKey, 0);
    if size >= 0 {
      PlaceEntriesSucceedsIff(p, size, GetListOrEmpty(tag, ItemsKey));
    }
  }

  /** No later element of `es` claims the slot that es[k] claims. */
  predicate LastClaim(es: seq<Tag>, k: nat)
    requires k < |es|
  {
    forall k' :: k < k' < |es| ==> EntrySlot(es[k']) != EntrySlot(es[k])
  }

  lemma {:induction false} PlaceEntriesSlots(p: Host, size: nat, es: seq<Tag>)
    requires PlaceEntries(p, size, es).Success?
    ensures forall j :: 0 <= j < size && (forall k :: 0 <= k < |es| ==> EntrySlot(es[k]) != j) ==>
              PlaceEntries(p, size, es).value[j] == None
    ensures forall k :: 0 <= k < |es| && EntrySlot(es[k]) >= 0 && LastClaim(es, k) ==>
              EntrySlot(es[k]) < size && PlaceEntries(p, size, es).value[EntrySlot(es[k])] == p.decode(es[k])
    decreases |es|
  {
    if es != [] {
      var prev := es[..|es| - 1];
      var e := es[|es| - 1];
      PlaceEntriesSlots(p, size, prev);
      var c' := PlaceEntries(p, size, prev).value;
      var c := PlaceEntries(p, size, es).value;
      assert c == PlaceEntry(p, c', e).value;
      assert forall k :: 0 <= k < |prev| ==> prev[k] == es[k];
      forall k | 0 <= k < |es| && EntrySlot(es[k]) >= 0 && LastClaim(es, k)
        ensures EntrySlot(es[k]) < size && c[EntrySlot(es[k])] == p.decode(es[k])
      {
        if k < |prev| {
          assert EntrySlot(e) != EntrySlot(es[k]);
          assert LastClaim(prev, k);
        }
      }
    }
  }

  /** Reading at the current version: the result has the stored size; a slot no element
      claims stays null; a claimed slot holds the decoded stack of the last element claiming
      it, so a later duplicate overwrites an earlier one. Elements with a missing or negative
      slot claim nothing. */
  lemma ReadCurrentSlots(p: Host, tag: map<string, Tag>)
    requires ReadCurrent(p, tag).Success?
    ensures var c, es := ReadCurrent(p, tag).value, GetListOrEmpty(tag, ItemsKey);
      && |c| == GetInt(tag, SizeKey, 0)
      && (forall j :: 0 <= j < |c| && (forall k :: 0 <= k < |es| ==> EntrySlot(es[k]) != j) ==> c[j] == None)
      && (forall k :: 0 <= k < |es| && EntrySlot(es[k]) >= 0 && LastClaim(es, k) ==>
            EntrySlot(es[k]) < |c| && c[EntrySlot(es[k])] == p.decode(es[k]))
  {
    PlaceEntriesSlots(p, GetInt(tag, SizeKey, 0), GetListOrEmpty(tag, ItemsKey));
  }

  /** A failure on a prefix of the list is the failure of the whole list. */
  lemma {:induction false} PlaceEntriesFailureSticks(p: Host, size: nat, es: seq<Tag>, n: nat)
    requires n <= |es|
    requires PlaceEntries(p, size, es[..n]).Failure?
    ensures PlaceEntries(p, size, es) == PlaceEntries(p, size, es[..n])
    decreases |es| - n
  {
    if n == |es| {
      assert es[..n] == es;
    } else {
      var prev := es[..|es| - 1];
      assert prev[..n] == es[..n];
      PlaceEntriesFailureSticks(p, size, prev, n);
    }
  }

  // ---------------------------------------------------------------------------
  // upgradeItemStacks, for data from an older version
  // ---------------------------------------------------------------------------

  /** upgradeItemData: the fixer's result cast to a compound; a failed cast gives None. */
  function UpgradeItemData(p: Host, c: map<string, Tag>, version: Version): (r: Option<map<string, Tag>>)
    ensures r.Some? <==> p.upgrade(Compound(c), version).Compound?
    ensures r.Some? ==> p.upgrade(Compound(c), version) == Compound(r.value)
  {
    match p.upgrade(Compound(c), version)
    case Compound(entries) => Some(entries)
    case _ => None
  }

  /** One pass of the index loop on the compound fetched for that index. */
  function UpgradeEntry(p: Host, version: Version, contents: Contents, c: map<string, Tag>): Result<Contents, Failure> {
    if |c| == 0 then Success(contents)
    else
      var slot := SlotOf(c);
      if slot < 0 then Success(contents)
      else
        match UpgradeItemData(p, c, version)
        case None => Failure(UpgradeNotCompound)
        case Some(u) =>
          match p.decode(Compound(u))
          case None => Failure(DecodeFailed)
          case Some(x) => if slot < |contents| then Success(contents[slot := Some(x)]) else Failure(SlotOutOfRange)
  }

  /** The first n passes of the index loop, over an array prefilled with EMPTY. */
  function UpgradeLoop(p: Host, version: Version, size: nat, list: seq<Tag>, n: nat): (r: Result<Contents, Failure>)
    ensures r.Success? ==> |r.value| == size
  {
    if n == 0 then Success(seq(size, _ => Some(Empty)))
    else
      match UpgradeLoop(p, version, size, list, n - 1)
      case Failure(f) => Failure(f)
      case Success(c) => UpgradeEntry(p, version, c, CompoundOrEmptyAt(list, n - 1))
  }

  /** upgradeItemStacks: `size` passes over the list, whatever the list's length. */
  function Upgraded(p: Host, tag: map<string, Tag>, version: Version): Result<Contents, Failure> {
    var size := GetInt(tag, SizeKey, 0);
    if size < 0 then Failure(NegativeSize)
    else UpgradeLoop(p, version, size, GetListOrEmpty(tag, ItemsKey), size)
  }

  /** The slot the compound at list position k claims: -1 for a missing, empty or untagged one. */
  function UpgradeSlot(list: seq<Tag>, k: int): int32 {
    var c := CompoundOrEmptyAt(list, k);
    if |c| == 0 then -1 else SlotOf(c)
  }

  /** The stack decoded from the upgraded compound at list position k, if any. */
  function UpgradedStack(p: Host, version: Version, list: seq<Tag>, k: int): Option<ItemStack> {
    match UpgradeItemData(p, CompoundOrEmptyAt(list, k), version)
    case None => None
    case Some(u) => p.decode(Compound(u))
  }

  /** A compound the upgrade loop accepts: empty, untagged, or one whose slot is below the
      size and whose upgraded form is a compound that decodes. */
  predicate UpgradeAcceptable(p: Host, version: Version, size: int, list: seq<Tag>, k: int) {
    UpgradeSlot(list, k) >= 0 ==> UpgradedStack(p, version, list, k).Some? && UpgradeSlot(list, k) < size
  }

  lemma {:induction false} UpgradeLoopSucceedsIff(p: Host, version: Version, size: nat, list: seq<Tag>, n: nat)
    ensures UpgradeLoop(p, version, size, list, n).Success? <==>
              forall k :: 0 <= k < n ==> UpgradeAcceptable(p, version, size, list, k)
  {
    if n > 0 {
      UpgradeLoopSucceedsIff(p, version, size, list, n - 1);
      if UpgradeLoop(p, version, size, list, n - 1).Success? {
        var c := UpgradeLoop(p, version, size, list, n - 1).value;
        assert UpgradeEntry(p, version, c, CompoundOrEmptyAt(list, n - 1)).Success? <==>
               UpgradeAcceptable(p, version, size, list, n - 1);
      }
    }
  }

  /** The upgrade path succeeds exactly when the size is non-negative and each of the first
      `size` list positions is acceptable. */
  lemma UpgradedSucceedsIff(p: Host, tag: map<string, Tag>, version: Version)
    ensures Upgraded(p, tag, version).Success? <==>
              GetInt(tag, SizeKey, 0) >= 0 &&
              forall k :: 0 <= k < GetInt(tag, SizeKey, 0) ==>
                UpgradeAcceptable(p, version, GetInt(tag, SizeKey, 0), GetListOrEmpty(tag, ItemsKey), k)
  {
    var size := GetInt(tag, SizeKey, 0);
    if size >= 0 {
      UpgradeLoopSucceedsIff(p, version, size, GetListOrEmpty(tag, ItemsKey), size);
    }
  }

  /** No later position below n claims the slot that position k claims. */
  predicate LastUpgradeClaim(list: seq<Tag>, n: nat, k: nat) {
    forall k' :: k < k' < n ==> UpgradeSlot(list, k') != UpgradeSlot(list, k)
  }

  lemma {:induction false} UpgradeLoopSlots(p: Host, version: Version, size: nat, list: seq<Tag>, n: nat)
    requires UpgradeLoop(p, version, size, list, n).Success?
    ensures forall j :: 0 <= j < size ==> UpgradeLoop(p, version, size, list, n).value[j].Some?
    ensures forall j :: 0 <= j < size && (forall k :: 0 <= k < n ==> UpgradeSlot(list, k) != j) ==>
              UpgradeLoop(p, version, size, list, n).value[j] == Some(Empty)
    ensures forall k :: 0 <= k < n && UpgradeSlot(list, k) >= 0 && LastUpgradeClaim(list, n, k) ==>
              UpgradeSlot(list, k) < size &&
              UpgradeLoop(p, version, size, list, n).value[UpgradeSlot(list, k)] == UpgradedStack(p, version, list, k)
  {
    if n > 0 {
      UpgradeLoopSlots(p, version, size, list, n - 1);
      var c' := UpgradeLoop(p, version, size, list, n - 1).value;
      var c := UpgradeLoop(p, version, size, list, n).value;
      assert c == UpgradeEntry(p, version, c', CompoundOrEmptyAt(list, n - 1)).value;
      forall j | 0 <= j < size && UpgradeSlot(list, n - 1) != j
        ensures c[j] == c'[j]
      {
      }
      forall k | 0 <= k < n - 1 && UpgradeSlot(list, k) >= 0 && LastUpgradeClaim(list, n, k)
        ensures LastUpgradeClaim(list, n - 1, k) && UpgradeSlot(list, n - 1) != UpgradeSlot(list, k)
      {
      }
    }
  }

  /** The upgrade path: the result has the stored size and no null in it; a slot that none of
      the first `size` positions claims holds EMPTY; a claimed slot holds the upgraded, decoded
      stack of the last position claiming it. Negative slots and empty compounds claim nothing. */
  lemma UpgradedSlots(p: Host, tag: map<string, Tag>, version: Version)
    requires Upgraded(p, tag, version).Success?
    ensures var c, size, list := Upgraded(p, tag, version).value, GetInt(tag, SizeKey, 0), GetListOrEmpty(tag, ItemsKey);
      && |c| == size
      && (forall j :: 0 <= j < |c| ==> c[j].Some?)
      && (forall j :: 0 <= j < |c| && (forall k :: 0 <= k < size ==> UpgradeSlot(list, k) != j) ==> c[j] == Some(Empty))
      && (forall k :: 0 <= k < size && UpgradeSlot(list, k) >= 0 && LastUpgradeClaim(list, size, k) ==>
            UpgradeSlot(list, k) < |c| && c[UpgradeSlot(list, k)] == UpgradedStack(p, version, list, k))
  {
    UpgradeLoopSlots(p, version, GetInt(tag, SizeKey, 0), GetListOrEmpty(tag, ItemsKey), GetInt(tag, SizeKey, 0));
  }

  lemma {:induction false} UpgradeLoopReadsPrefix(p: Host, version: Version, size: nat, list: seq<Tag>, list': seq<Tag>, n: nat)
    requires forall k :: 0 <= k < n ==> CompoundOrEmptyAt(list, k) == CompoundOrEmptyAt(list', k)
    ensures UpgradeLoop(p, version, size, list, n) == UpgradeLoop(p, version, size, list', n)
  {
    if n > 0 {
      UpgradeLoopReadsPrefix(p, version, size, list, list', n - 1);
    }
  }

  /** The list cut to its first n positions (all of it when it is shorter). */
  function Take(list: seq<Tag>, n: int): seq<Tag> {
    if 0 <= n <= |list| then list[..n] else list
  }

  /** Only list positions 0..size-1 are examined: cutting the list there changes nothing. */
  lemma UpgradedReadsOnlyFirstSize(p: Host, tag: map<string, Tag>, version: Version)
    ensures Upgraded(p, tag, version) ==
              Upgraded(p, tag[ItemsKey := List(Take(GetListOrEmpty(tag, ItemsKey), GetInt(tag, SizeKey, 0)))], version)
  {
    var size := GetInt(tag, SizeKey, 0);
    var list := GetListOrEmpty(tag, ItemsKey);
    var tag' := tag[ItemsKey := List(Take(list, size))];
    assert GetInt(tag', SizeKey, 0) == size;
    if size >= 0 {
      UpgradeLoopReadsPrefix(p, version, size, list, Take(list, size), size);
    }
  }

  lemma {:induction false} UpgradeLoopFailureSticks(p: Host, version: Version, size: nat, list: seq<Tag>, n: nat, m: nat)
    requires n <= m
    requires UpgradeLoop(p, version, size, list, n).Failure?
    ensures UpgradeLoop(p, version, size, list, m) == UpgradeLoop(p, version, size, list, n)
    decreases m - n
  {
    if n < m {
      UpgradeLoopFailureSticks(p, version, size, list, n, m - 1);
    }
  }

  // ---------------------------------------------------------------------------
  // getItems: version dispatch, and the methods over arrays
  // ---------------------------------------------------------------------------

  /** getItems: the upgrade path exactly when the data's version is older than the running one. */
  function ReadItems(p: Host, tag: map<string, Tag>, version: Version): (r: Result<Contents, Failure>)
    ensures p.compare(version, p.running) < 0 ==> r == Upgraded(p, tag, version)
    ensures p.compare(version, p.running) >= 0 ==> r == ReadCurrent(p, tag)
  {
    if p.compare(version, p.running) < 0 then Upgraded(p, tag, version) else ReadCurrent(p, tag)
  }

  /** Reading at the running version never upgrades, when compareTo says a version is not
      older than itself. */
  lemma RunningVersionReadsCurrent(p: Host, tag: map<string, Tag>)
    requires p.compare(p.running, p.running) >= 0
    ensures ReadItems(p, tag, p.running) == ReadCurrent(p, tag)
  {
  }

  /** Arrays.fill: every element of `a` becomes `x`. */
  method Fill<T>(a: array<T>, x: T)
    modifies a
    ensures a[..] == seq(a.Length, _ => x)
  {
    for i := 0 to a.Length
      invariant forall j :: 0 <= j < i ==> a[j] == x
    {
      a[i] := x;
    }
  }

  method UpgradeItemStacks(p: Host, items: map<string, Tag>, version: Version) returns (r: Result<array<Option<ItemStack>>, Failure>)
    ensures r.Success? <==> Upgraded(p, items, version).Success?
    ensures r.Success? ==> fresh(r.value) && r.value[..] == Upgraded(p, items, version).value
    ensures r.Failure? ==> r.error == Upgraded(p, items, version).error
  {
    var size := GetInt(items, SizeKey, 0);
    var list := GetListOrEmpty(items, ItemsKey);
    if size < 0 {
      return Failure(NegativeSize);
    }
    var itemStacks := new Option<ItemStack>[size](_ => None);
    Fill(itemStacks, Some(Empty));
    assert itemStacks[..] == UpgradeLoop(p, version, size, list, 0).value;
    for i := 0 to size
      invariant UpgradeLoop(p, version, size, list, i) == Success(itemStacks[..])
    {
      var compound := CompoundOrEmptyAt(list, i);
      if |compound| == 0 {
        continue;
      }
      var slot := SlotOf(compound);
      if slot >= 0 {
        var upgraded := UpgradeItemData(p, compound, version);
        if upgraded.None? {
          UpgradeLoopFailureSticks(p, version, size, list, i + 1, size);
          return Failure(UpgradeNotCompound);
        }
        var stack := p.decode(Compound(upgraded.value));
        if stack.None? {
          UpgradeLoopFailureSticks(p, version, size, list, i + 1, size);
          return Failure(DecodeFailed);
        }
        if slot >= itemStacks.Length {
          UpgradeLoopFailureSticks(p, version, size, list, i + 1, size);
          return Failure(SlotOutOfRange);
        }
        itemStacks[slot] := stack;
      }
    }
    return Success(itemStacks);
  }

  method GetItems(p: Host, tag: map<string, Tag>, version: Version) returns (r: Result<array<Option<ItemStack>>, Failure>)
    ensures r.Success? <==> ReadItems(p, tag, version).Success?
    ensures r.Success? ==> fresh(r.value) && r.value[..] == ReadItems(p, tag, version).value
    ensures r.Failure? ==> r.error == ReadItems(p, tag, version).error
  {
    if p.compare(version, p.running) < 0 {
      r := UpgradeItemStacks(p, tag, version);
      return;
    }
    var size := GetInt(tag, SizeKey, 0);
    if size < 0 {
      return Failure(NegativeSize);
    }
    var contents := new Option<ItemStack>[size](_ => None);
    var itemList := GetListOrEmpty(tag, ItemsKey);
    assert itemList[..0] == [];
    assert contents[..] == Nulls(size);
    for k := 0 to |itemList|
      invariant PlaceEntries(p, size, itemList[..k]) == Success(contents[..])
    {
      var element := itemList[k];
      assert itemList[..k + 1][..k] == itemList[..k];
      if !element.Compound? {
        PlaceEntriesFailureSticks(p, size, itemList, k + 1);
        return Failure(NotACompound);
      }
      var i := SlotOf(element.entries);
      if i >= 0 {
        var stack := p.decode(element);
        if stack.None? {
          PlaceEntriesFailureSticks(p, size, itemList, k + 1);
          return Failure(DecodeFailed);
        }
        if i >= contents.Length {
          PlaceEntriesFailureSticks(p, size, itemList, k + 1);
          return Failure(SlotOutOfRange);
        }
        contents[i] := stack;
      }
    }
    assert itemList[..|itemList|] == itemList;
    return Success(contents);
  }

  // ---------------------------------------------------------------------------
  // The round trip
  // ---------------------------------------------------------------------------

  /** The codec gives back what it encoded, whatever "Slot" is added to the compound. */
  ghost predicate CodecRoundTrip(p: Host) {
    forall x: ItemStack, i: int32 :: EncodeNbt(p, x).Some? ==>
      p.decode(Compound(EncodeNbt(p, x).value[SlotKey := Int(i)])) == Some(x)
  }

  /** The array with every stack serializeItemArray leaves out replaced by null. */
  function Kept(p: Host, items: Contents): Contents
    requires |items| <= MaxArrayLength
  {
    seq(|items|, i requires 0 <= i < |items| => if EntryAt(p, items, i).Some? then items[i] else None)
  }

  lemma {:induction false} PlaceEntriesOfEntries(p: Host, items: Contents, n: nat)
    requires n <= |items| <= MaxArrayLength
    requires CodecRoundTrip(p)
    ensures PlaceEntries(p, |items|, Entries(p, items, n)) ==
              Success(seq(|items|, j requires 0 <= j < |items| => if j < n && EntryAt(p, items, j).Some? then items[j] else None))
  {
    var upto := seq(|items|, j requires 0 <= j < |items| => if j < n && EntryAt(p, items, j).Some? then items[j] else None);
    if n == 0 {
      assert upto == Nulls(|items|);
    } else {
      PlaceEntriesOfEntries(p, items, n - 1);
      var before := seq(|items|, j requires 0 <= j < |items| => if j < n - 1 && EntryAt(p, items, j).Some? then items[j] else None);
      var prev := Entries(p, items, n - 1);
      match EntryAt(p, items, n - 1)
      case None =>
        assert upto == before;
      case Some(e) =>
        var es := prev + [e];
        assert es[..|es| - 1] == prev;
        var entry := EncodeNbt(p, items[n - 1].value).value;
        assert e == Compound(entry[SlotKey := Int(n - 1)]);
        assert p.decode(e) == Some(items[n - 1].value);
        assert upto == before[n - 1 := items[n - 1]];
    }
  }

  /** Serializing and then reading at the current version gives an array of the same length
      holding each kept stack at its index and null everywhere else. */
  lemma RoundTrip(p: Host, items: Contents)
    requires |items| <= MaxArrayLength
    requires CodecRoundTrip(p)
    ensures ReadCurrent(p, Container(p, items).entries) == Success(Kept(p, items))
  {
    PlaceEntriesOfEntries(p, items, |items|);
    assert Kept(p, items) ==
           seq(|items|, j requires 0 <= j < |items| => if j < |items| && EntryAt(p, items, j).Some? then items[j] else None);
    ContainerEntries(p, items);
  }
}
