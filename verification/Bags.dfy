/** Bag snapshots as the client receives them (proto/scene/player_bag.proto), the consistency
    check featureBagInventory and the slot lookups built on it. */
module Bags {
  import opened MachineInts
  import opened Keyed

  datatype AttrLine = AttrLine(
    attrId: nat, name: string, tier: nat, value: UInt64, cap: nat, percent: bool, order: nat,
    enhanceBonus: UInt64, enhanceNextValue: UInt64)

  datatype Socket = Socket(
    number: nat, gemType: nat, gemConfigId: nat, gemName: string, gemIconKey: string,
    attr: Option<AttrLine>, name: string)

  datatype Preview = Preview(
    nextLevel: UInt32, successRate: nat, costGold: nat, materialConfigId: nat, materialName: string,
    materialCount: nat, bonusPermyriad: UInt32, failLevelLoss: UInt32, materialIconKey: string)

  datatype Item = Item(
    itemId: nat, configId: nat, count: nat, maxStack: nat, equipKind: nat,
    name: string, description: string, iconKey: string, equipLevel: nat, equipClass: nat, equipClassName: string,
    baseAttrs: seq<AttrLine>, affixes: seq<AttrLine>,
    enhanceLevel: UInt32, enhanceMaxLevel: UInt32, enhanceNext: Option<Preview>, sockets: seq<Socket>,
    gemType: nat, gemAttr: Option<AttrLine>, bonusPermyriad: UInt32)

  datatype Slot = Slot(slot: nat, itemId: nat, width: nat, height: nat)

  datatype SlotDef = SlotDef(slot: nat, equipKind: nat, name: string)

  datatype Layout = Layout(bagType: nat, capacity: nat, slots: seq<Slot>, canSort: bool, equipSlots: seq<SlotDef>)

  datatype Bag = Bag(items: seq<Item>, layout: Option<Layout>, currency: Option<seq<nat>>)

  function ItemKey(item: Item): int { item.itemId }

  function SlotKey(slot: Slot): int { slot.slot }

  function OwnerKey(slot: Slot): int { slot.itemId }

  /** equipBagItem */
  function ItemOf(bag: Bag, itemId: nat): Option<Item> {
    Lookup(ItemKey, bag.items, itemId)
  }

  /** equipSlotOccupant: 0 for an empty slot. */
  function Occupant(bag: Bag, slot: nat): nat {
    if bag.layout.None? then 0
    else
      var entry := Lookup(SlotKey, bag.layout.value.slots, slot);
      if entry.Some? then entry.value.itemId else 0
  }

  /** equipForgeItemSlot: the slot of the first entry that names the item, -1 if there is none. */
  function SlotOf(bag: Bag, itemId: nat): int {
    if bag.layout.None? then -1
    else
      var entry := Lookup(OwnerKey, bag.layout.value.slots, itemId);
      if entry.Some? then entry.value.slot else -1
  }

  // ---- featureBagInventory ----

  type StackKey = (nat, nat, nat)

  function StackOf(item: Item): StackKey { (item.configId, item.equipKind, item.maxStack) }

  function StackTotal(items: seq<Item>, key: StackKey): nat {
    if items == [] then 0
    else StackTotal(items[..|items| - 1], key)
         + if StackOf(items[|items| - 1]) == key then items[|items| - 1].count else 0
  }

  /** A stack counts all its units under its config, equipment kind and stack limit, and two lists count
      what they count apart. */
  lemma {:induction false} StackTotalAdds(s: seq<Item>, t: seq<Item>, config: nat, kind: nat, limit: nat)
    ensures forall item :: StackTotal([item], (config, kind, limit))
                           == if item.configId == config && item.equipKind == kind && item.maxStack == limit then item.count else 0
    ensures StackTotal(s + t, (config, kind, limit)) == StackTotal(s, (config, kind, limit)) + StackTotal(t, (config, kind, limit))
  {
    if t == [] {
      assert s + t == s;
    } else {
      var n := |t| - 1;
      StackTotalAdds(s, t[..n], config, kind, limit);
      assert (s + t)[..|s + t| - 1] == s + t[..n];
    }
    forall item
      ensures StackTotal([item], (config, kind, limit))
              == if item.configId == config && item.equipKind == kind && item.maxStack == limit then item.count else 0
    {
      assert [item][..0] == [];
    }
  }

  /** In an accepted snapshot exactly the stack kinds that occur have a total. */
  lemma {:induction false} TotalsAreOfItems(items: seq<Item>, key: StackKey)
    requires forall i :: 0 <= i < |items| ==> items[i].count != 0
    ensures StackTotal(items, key) > 0 <==> exists i :: 0 <= i < |items| && StackOf(items[i]) == key
  {
    if items != [] {
      TotalsAreOfItems(items[..|items| - 1], key);
    }
  }

  /** Cells covered by a list of slots. */
  function Area(slots: seq<Slot>): nat {
    if slots == [] then 0
    else Area(slots[..|slots| - 1]) + slots[|slots| - 1].width * slots[|slots| - 1].height
  }

  lemma {:induction false} OneCellEach(slots: seq<Slot>)
    requires forall i :: 0 <= i < |slots| ==> slots[i].width == slots[i].height == 1
    ensures Area(slots) == |slots|
  {
    if slots != [] {
      OneCellEach(slots[..|slots| - 1]);
    }
  }

  predicate SoundItems(items: seq<Item>) {
    && DistinctKeys(ItemKey, items)
    && forall i :: 0 <= i < |items| ==> items[i].itemId != 0 && items[i].count != 0
  }

  ghost predicate SoundSlots(slots: seq<Slot>, capacity: nat, ids: set<int>) {
    && DistinctKeys(SlotKey, slots) && DistinctKeys(OwnerKey, slots)
    && forall i :: 0 <= i < |slots| ==>
         slots[i].slot < capacity && slots[i].itemId in ids && slots[i].width == slots[i].height == 1
  }

  /** Slots and items of the snapshot match one to one: every slot names one item, and the
      items named are all the items. */
  ghost predicate WellPlaced(bag: Bag) {
    && bag.layout.Some?
    && SoundItems(bag.items)
    && SoundSlots(bag.layout.value.slots, bag.layout.value.capacity, Keys(ItemKey, bag.items))
    && Keys(OwnerKey, bag.layout.value.slots) == Keys(ItemKey, bag.items)
  }

  /** featureBagInventory accepts exactly the well-placed snapshots and totals them by stack kind. */
  method FeatureBagInventory(bag: Bag) returns (result: Option<map<StackKey, nat>>)
    ensures result.Some? <==> WellPlaced(bag)
    ensures result.Some? ==> Tallies(result.value, bag.items)
  {
    if bag.layout.None? {
      return None;
    }
    var sound, totals, ids := TotalItems(bag.items);
    if !sound {
      return None;
    }
    var references;
    sound, references := CollectReferences(bag.layout.value.slots, bag.layout.value.capacity, ids);
    if !sound {
      return None;
    }
    if |references| != |ids| {
      return None;
    }
    FullSubset(references, ids);
    result := Some(totals);
  }

  /** A missing key counts zero, as in a Go map. */
  function Get<K>(m: map<K, nat>, key: K): nat { if key in m then m[key] else 0 }

  /** The first loop of featureBagInventory: no zero id, no empty stack, no id twice. */
  method TotalItems(items: seq<Item>) returns (sound: bool, totals: map<StackKey, nat>, ids: set<int>)
    ensures sound <==> SoundItems(items)
    ensures sound ==> ids == Keys(ItemKey, items)
    ensures sound ==> Tallies(totals, items)
  {
    totals, ids := map[], {};
    for n := 0 to |items|
      invariant SoundItems(items[..n]) && ids == Keys(ItemKey, items[..n])
      invariant Tallies(totals, items[..n])
    {
      var item := items[n];
      if item.itemId == 0 || item.count == 0 || item.itemId in ids {
        RejectItem(items, n);
        return false, totals, ids;
      }
      AcceptItem(items, n);
      TallyItem(totals, items, n);
      ids := ids + {item.itemId};
      totals := totals[StackOf(item) := Get(totals, StackOf(item)) + item.count];
    }
    assert items[..|items|] == items;
    sound := true;
  }

  ghost predicate Tallies(totals: map<StackKey, nat>, items: seq<Item>) {
    forall key :: Get(totals, key) == StackTotal(items, key)
  }

  lemma TallyItem(totals: map<StackKey, nat>, items: seq<Item>, n: nat)
    requires n < |items| && Tallies(totals, items[..n])
    ensures Tallies(totals[StackOf(items[n]) := Get(totals, StackOf(items[n])) + items[n].count], items[..n + 1])
  {
    assert items[..n + 1][..n] == items[..n] && items[..n + 1][n] == items[n];
    var after := totals[StackOf(items[n]) := Get(totals, StackOf(items[n])) + items[n].count];
    forall key
      ensures Get(after, key) == StackTotal(items[..n + 1], key)
    {
      assert Get(totals, key) == StackTotal(items[..n], key);
    }
  }

  lemma RejectItem(items: seq<Item>, n: nat)
    requires n < |items|
    requires items[n].itemId == 0 || items[n].count == 0 || items[n].itemId in Keys(ItemKey, items[..n])
    ensures !SoundItems(items)
  {
    if items[n].itemId in Keys(ItemKey, items[..n]) {
      var i := KeyIndex(ItemKey, items[..n], items[n].itemId);
      assert ItemKey(items[i]) == ItemKey(items[n]);
    }
  }

  lemma AcceptItem(items: seq<Item>, n: nat)
    requires n < |items| && SoundItems(items[..n])
    requires items[n].itemId != 0 && items[n].count != 0 && items[n].itemId !in Keys(ItemKey, items[..n])
    ensures SoundItems(items[..n + 1]) && Keys(ItemKey, items[..n + 1]) == Keys(ItemKey, items[..n]) + {items[n].itemId}
  {
    assert items[..n + 1] == items[..n] + [items[n]];
    KeysExtend(ItemKey, items, n);
  }

  /** The second loop: every slot lies in the bag, is one cell, and names an item of its own. */
  method CollectReferences(slots: seq<Slot>, capacity: nat, ids: set<int>) returns (sound: bool, references: set<int>)
    ensures sound <==> SoundSlots(slots, capacity, ids)
    ensures sound ==> references == Keys(OwnerKey, slots) && references <= ids
  {
    var positions: set<int> := {};
    references := {};
    for n := 0 to |slots|
      invariant SoundSlots(slots[..n], capacity, ids) && references <= ids
      invariant positions == Keys(SlotKey, slots[..n]) && references == Keys(OwnerKey, slots[..n])
    {
      var slot := slots[n];
      assert slots[..n + 1] == slots[..n] + [slot];
      if slot.slot >= capacity || slot.slot in positions || slot.itemId !in ids
         || slot.itemId in references || slot.width != 1 || slot.height != 1 {
        RejectSlots(slots, n, capacity, ids);
        return false, references;
      }
      KeysExtend(SlotKey, slots, n);
      KeysExtend(OwnerKey, slots, n);
      positions := positions + {slot.slot};
      references := references + {slot.itemId};
    }
    assert slots[..|slots|] == slots;
    sound := true;
  }

  lemma RejectSlots(slots: seq<Slot>, n: nat, capacity: nat, ids: set<int>)
    requires n < |slots|
    requires slots[n].slot >= capacity || slots[n].slot in Keys(SlotKey, slots[..n]) || slots[n].itemId !in ids
             || slots[n].itemId in Keys(OwnerKey, slots[..n]) || slots[n].width != 1 || slots[n].height != 1
    ensures !SoundSlots(slots, capacity, ids)
  {
    if slots[n].slot in Keys(SlotKey, slots[..n]) {
      var i := KeyIndex(SlotKey, slots[..n], slots[n].slot);
      assert SlotKey(slots[i]) == SlotKey(slots[n]);
    } else if slots[n].itemId in Keys(OwnerKey, slots[..n]) {
      var i := KeyIndex(OwnerKey, slots[..n], slots[n].itemId);
      assert OwnerKey(slots[i]) == OwnerKey(slots[n]);
    }
  }

  /** Item to slot and slot to item are inverse lookups. */
  ghost predicate LookupsInvert(bag: Bag) {
    && (forall id: nat :: ItemOf(bag, id).Some? ==> SlotOf(bag, id) >= 0 && Occupant(bag, SlotOf(bag, id)) == id)
    && (forall slot: nat :: Occupant(bag, slot) != 0 ==>
          ItemOf(bag, Occupant(bag, slot)).Some? && SlotOf(bag, Occupant(bag, slot)) == slot)
  }

  /** In an accepted snapshot slots and items are in bijection. */
  lemma PlacementIsBijection(bag: Bag)
    requires WellPlaced(bag)
    ensures |bag.layout.value.slots| == |bag.items|
    ensures LookupsInvert(bag)
  {
    var slots := bag.layout.value.slots;
    DistinctKeyCount(OwnerKey, slots);
    DistinctKeyCount(ItemKey, bag.items);
    forall id: nat | ItemOf(bag, id).Some?
      ensures SlotOf(bag, id) >= 0 && Occupant(bag, SlotOf(bag, id)) == id
    {
      LookupByKey(ItemKey, bag.items, id);
      var j := KeyIndex(OwnerKey, slots, id);
      LookupByKey(OwnerKey, slots, id);
      LookupByKey(SlotKey, slots, slots[j].slot);
    }
    forall slot: nat | Occupant(bag, slot) != 0
      ensures ItemOf(bag, Occupant(bag, slot)).Some? && SlotOf(bag, Occupant(bag, slot)) == slot
    {
      LookupByKey(SlotKey, slots, slot);
      var j := KeyIndex(SlotKey, slots, slot);
      LookupByKey(OwnerKey, slots, slots[j].itemId);
      LookupByKey(ItemKey, bag.items, slots[j].itemId);
    }
  }

  /** An accepted snapshot covers one cell per item and lists no empty stack. */
  lemma AcceptedCells(bag: Bag, key: StackKey)
    requires WellPlaced(bag)
    ensures Area(bag.layout.value.slots) == |bag.items|
    ensures StackTotal(bag.items, key) > 0 <==> exists i :: 0 <= i < |bag.items| && StackOf(bag.items[i]) == key
  {
    PlacementIsBijection(bag);
    OneCellEach(bag.layout.value.slots);
    TotalsAreOfItems(bag.items, key);
  }

  /** equipBagFreeSlots */
  function FreeSlots(layout: Layout): nat {
    if layout.capacity < |layout.slots| then 0 else layout.capacity - |layout.slots|
  }

  lemma OccupiedIffListed(bag: Bag, slot: nat)
    requires WellPlaced(bag)
    ensures Occupant(bag, slot) != 0 <==> slot in Keys(SlotKey, bag.layout.value.slots)
  {
    var slots := bag.layout.value.slots;
    LookupByKey(SlotKey, slots, slot);
    if slot in Keys(SlotKey, slots) {
      var j := KeyIndex(SlotKey, slots, slot);
      var i := KeyIndex(ItemKey, bag.items, slots[j].itemId);
      assert bag.items[i].itemId != 0;
    }
  }

  /** In an accepted snapshot the free-slot count is exact and its clamp is never reached. */
  lemma FreeSlotsExact(bag: Bag)
    requires WellPlaced(bag)
    ensures |bag.layout.value.slots| <= bag.layout.value.capacity
    ensures FreeSlots(bag.layout.value) == |set s | s in Below(bag.layout.value.capacity) && Occupant(bag, s) == 0|
  {
    var layout := bag.layout.value;
    var all, taken := Below(layout.capacity), Keys(SlotKey, layout.slots);
    DistinctKeyCount(SlotKey, layout.slots);
    assert taken <= all;
    assert |all| == |taken| + |all - taken| by {
      assert all == taken + (all - taken);
    }
    var free := set s | s in all && Occupant(bag, s) == 0;
    assert free == all - taken by {
      forall s | s in all
        ensures s in free <==> s !in taken
      {
        OccupiedIffListed(bag, s);
      }
    }
  }
}
