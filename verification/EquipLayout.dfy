/** What the two bags must look like after equipping or unequipping
    (robot/equip_smoke_scenario.go, checkEquipSlotDefs, checkEquipSameItem, checkEquipLayout). */
module EquipLayout {
  import opened Keyed
  import opened Bags

  const INVENTORY := 0
  const EQUIPMENT := 2
  const NAMED_SLOTS := [3, 4, 5, 6]

  /** checkEquipBagSnapshot */
  ghost predicate Snapshot(bag: Bag, bagType: nat) {
    WellPlaced(bag) && bag.layout.value.bagType == bagType
  }

  method CheckEquipBagSnapshot(bag: Bag, bagType: nat) returns (ok: bool)
    ensures ok <==> Snapshot(bag, bagType)
  {
    if bag.layout.None? || bag.layout.value.bagType != bagType {
      return false;
    }
    var inventory := FeatureBagInventory(bag);
    ok := inventory.Some?;
  }

  /** Slot definitions come in strictly ascending order. */
  predicate Ascending(defs: seq<SlotDef>) {
    forall i, j :: 0 <= i < j < |defs| ==> defs[i].slot < defs[j].slot
  }

  /** The slot is defined, with an equipment kind and a name. */
  ghost predicate Defined(defs: seq<SlotDef>, slot: nat) {
    exists def :: def in defs && def.slot == slot && def.equipKind != 0 && def.name != ""
  }

  ghost predicate SoundSlotDefs(defs: seq<SlotDef>, want: seq<nat>) {
    Ascending(defs) && forall k :: 0 <= k < |want| ==> Defined(defs, want[k])
  }

  ghost predicate Indexes(bySlot: map<nat, SlotDef>, defs: seq<SlotDef>) {
    && (forall s :: s in bySlot ==> bySlot[s] in defs && bySlot[s].slot == s)
    && (forall def :: def in defs ==> def.slot in bySlot && bySlot[def.slot] == def)
  }

  /** checkEquipSlotDefs */
  method CheckEquipSlotDefs(defs: seq<SlotDef>, want: seq<nat>) returns (ok: bool)
    ensures ok <==> SoundSlotDefs(defs, want)
  {
    var bySlot;
    ok, bySlot := IndexSlotDefs(defs);
    if !ok { return; }
    for k := 0 to |want|
      invariant forall m :: 0 <= m < k ==> Defined(defs, want[m])
    {
      if want[k] !in bySlot || bySlot[want[k]].equipKind == 0 || bySlot[want[k]].name == "" {
        return false;
      }
    }
  }

  /** Its first loop: no slot twice, none out of order. */
  method IndexSlotDefs(defs: seq<SlotDef>) returns (ok: bool, bySlot: map<nat, SlotDef>)
    ensures ok <==> Ascending(defs)
    ensures ok ==> Indexes(bySlot, defs)
  {
    bySlot := map[];
    for n := 0 to |defs|
      invariant Ascending(defs[..n]) && Indexes(bySlot, defs[..n])
    {
      var def := defs[n];
      if def.slot in bySlot {
        RepeatedSlot(bySlot, defs, n);
        return false, bySlot;
      }
      if n > 0 && def.slot < defs[n - 1].slot {
        return false, bySlot;
      }
      assert n > 0 ==> defs[n - 1] in defs[..n];
      assert defs[..n + 1] == defs[..n] + [def];
      IndexExtends(bySlot, defs[..n], def);
      bySlot := bySlot[def.slot := def];
    }
    assert defs[..|defs|] == defs;
    ok := true;
  }

  lemma RepeatedSlot(bySlot: map<nat, SlotDef>, defs: seq<SlotDef>, n: nat)
    requires n < |defs| && Indexes(bySlot, defs[..n]) && defs[n].slot in bySlot
    ensures !Ascending(defs)
  {
    var i :| 0 <= i < n && defs[..n][i] == bySlot[defs[n].slot];
    assert defs[i].slot == defs[n].slot;
  }

  lemma IndexExtends(bySlot: map<nat, SlotDef>, defs: seq<SlotDef>, def: SlotDef)
    requires Ascending(defs) && Indexes(bySlot, defs)
    requires def.slot !in bySlot && (defs == [] || defs[|defs| - 1].slot < def.slot)
    ensures Ascending(defs + [def]) && Indexes(bySlot[def.slot := def], defs + [def])
  {
    var longer := defs + [def];
    assert forall d :: d in longer <==> d in defs || d == def;
    forall i, j | 0 <= i < j < |longer|
      ensures longer[i].slot < longer[j].slot
    {
      if j == |defs| && i < j - 1 {
        assert defs[i].slot < defs[j - 1].slot;
      }
    }
  }

  /** checkEquipSameItem: the bag holds exactly this instance, field for field. */
  predicate SameItem(bag: Bag, want: Item) {
    ItemOf(bag, want.itemId) == Some(want)
  }

  /** The checks made for one named equipment slot. */
  predicate Worn(bag: Bag, equipment: Bag, slot: nat, want: Item) {
    Occupant(equipment, slot) == want.itemId && SameItem(equipment, want) && ItemOf(bag, want.itemId).None?
  }

  ghost predicate Accepted(bag: Bag, equipment: Bag, wantTotal: nat, equipped: map<nat, Item>, inBag: seq<Item>) {
    && Snapshot(bag, INVENTORY) && Snapshot(equipment, EQUIPMENT)
    && SoundSlotDefs(equipment.layout.value.equipSlots, NAMED_SLOTS)
    && |bag.items| + |equipment.items| == wantTotal
    && |equipment.items| == |equipped|
    && (forall slot :: slot in equipped ==> Worn(bag, equipment, slot, equipped[slot]))
    && (forall k :: 0 <= k < |inBag| ==> SameItem(bag, inBag[k]))
  }

  /** checkEquipLayout */
  method CheckEquipLayout(bag: Bag, equipment: Bag, wantTotal: nat, equipped: map<nat, Item>, inBag: seq<Item>)
    returns (ok: bool)
    ensures ok <==> Accepted(bag, equipment, wantTotal, equipped, inBag)
  {
    ok := CheckEquipBagSnapshot(bag, INVENTORY);
    if !ok { return; }
    ok := CheckEquipBagSnapshot(equipment, EQUIPMENT);
    if !ok { return; }
    ok := CheckEquipSlotDefs(equipment.layout.value.equipSlots, NAMED_SLOTS);
    if !ok { return; }
    if |bag.items| + |equipment.items| != wantTotal || |equipment.items| != |equipped| {
      return false;
    }
    var left := equipped.Keys;
    while left != {}
      invariant left <= equipped.Keys
      invariant forall slot :: slot in equipped.Keys - left ==> Worn(bag, equipment, slot, equipped[slot])
      decreases left
    {
      var slot :| slot in left;
      if !Worn(bag, equipment, slot, equipped[slot]) {
        return false;
      }
      left := left - {slot};
    }
    for k := 0 to |inBag|
      invariant forall m :: 0 <= m < k ==> SameItem(bag, inBag[m])
    {
      if !SameItem(bag, inBag[k]) {
        return false;
      }
    }
  }

  // ---- What acceptance pins down ----

  /** No two named slots expect the same instance. */
  lemma NamedSlotsInject(bag: Bag, equipment: Bag, wantTotal: nat, equipped: map<nat, Item>, inBag: seq<Item>, s: nat, t: nat)
    requires Accepted(bag, equipment, wantTotal, equipped, inBag)
    requires s in equipped && t in equipped && equipped[s].itemId == equipped[t].itemId
    ensures s == t
  {
    PlacementIsBijection(equipment);
    WornIdNotZero(bag, equipment, s, equipped[s]);
    assert SlotOf(equipment, Occupant(equipment, s)) == s;
    assert SlotOf(equipment, Occupant(equipment, t)) == t;
  }

  lemma WornIdNotZero(bag: Bag, equipment: Bag, slot: nat, want: Item)
    requires WellPlaced(equipment) && Worn(bag, equipment, slot, want)
    ensures want.itemId != 0
  {
    var i :| 0 <= i < |equipment.items| && equipment.items[i] == want;
  }

  lemma {:induction false} InjectiveImageSize(equipped: map<nat, Item>, slots: set<nat>)
    requires slots <= equipped.Keys
    requires forall s, t :: s in slots && t in slots && equipped[s].itemId == equipped[t].itemId ==> s == t
    ensures |set s | s in slots :: equipped[s].itemId| == |slots|
  {
    var ids := set s | s in slots :: equipped[s].itemId;
    if slots != {} {
      var s :| s in slots;
      InjectiveImageSize(equipped, slots - {s});
      var fewer := set t | t in slots - {s} :: equipped[t].itemId;
      assert ids == fewer + {equipped[s].itemId};
    }
  }

  /** The ids expected in the named slots are all the ids in the equipment bag. */
  lemma ExpectedIdsAreAll(bag: Bag, equipment: Bag, wantTotal: nat, equipped: map<nat, Item>, inBag: seq<Item>)
    requires Accepted(bag, equipment, wantTotal, equipped, inBag)
    ensures Keys(ItemKey, equipment.items) == set s | s in equipped.Keys :: equipped[s].itemId
  {
    var slots := equipped.Keys;
    forall s, t | s in slots && t in slots && equipped[s].itemId == equipped[t].itemId
      ensures s == t
    {
      NamedSlotsInject(bag, equipment, wantTotal, equipped, inBag, s, t);
    }
    InjectiveImageSize(equipped, slots);
    var ids: set<int> := set s | s in slots :: equipped[s].itemId;
    DistinctKeyCount(ItemKey, equipment.items);
    forall s | s in slots
      ensures equipped[s].itemId in Keys(ItemKey, equipment.items)
    {
      LookupByKey(ItemKey, equipment.items, equipped[s].itemId);
    }
    FullSubset(ids, Keys(ItemKey, equipment.items));
  }

  /** Looking up an expected instance finds it unchanged. */
  predicate Found(items: seq<Item>, want: Item) { Lookup(ItemKey, items, want.itemId) == Some(want) }

  lemma WornAreFound(bag: Bag, equipment: Bag, wantTotal: nat, equipped: map<nat, Item>, inBag: seq<Item>)
    requires Accepted(bag, equipment, wantTotal, equipped, inBag)
    ensures DistinctKeys(ItemKey, equipment.items)
    ensures forall slot :: slot in equipped ==> Found(equipment.items, equipped[slot])
  {
    forall slot | slot in equipped
      ensures Found(equipment.items, equipped[slot])
    {
      assert Worn(bag, equipment, slot, equipped[slot]);
    }
  }

  lemma FoundAreAll(items: seq<Item>, equipped: map<nat, Item>, item: Item)
    requires DistinctKeys(ItemKey, items)
    requires forall slot :: slot in equipped ==> Found(items, equipped[slot])
    requires Keys(ItemKey, items) == set s | s in equipped.Keys :: equipped[s].itemId
    ensures item in items <==> exists slot :: slot in equipped && equipped[slot] == item
  {
    LookupIsMembership(ItemKey, items, item);
    if item in items {
      var i :| 0 <= i < |items| && items[i] == item;
      assert ItemKey(items[i]) in Keys(ItemKey, items);
      var s :| s in equipped && equipped[s].itemId == item.itemId;
      assert Found(items, equipped[s]);
    }
  }

  /** The equipment bag holds exactly the expected instances. */
  lemma EquipmentIsExactlyExpected(
    bag: Bag, equipment: Bag, wantTotal: nat, equipped: map<nat, Item>, inBag: seq<Item>, item: Item)
    requires Accepted(bag, equipment, wantTotal, equipped, inBag)
    ensures item in equipment.items <==> exists slot :: slot in equipped && equipped[slot] == item
  {
    ExpectedIdsAreAll(bag, equipment, wantTotal, equipped, inBag);
    WornAreFound(bag, equipment, wantTotal, equipped, inBag);
    FoundAreAll(equipment.items, equipped, item);
  }

  /** Every named instance lives in exactly one of the two bags; in particular nothing expected in
      the inventory is also worn, although the code does not look for that. */
  lemma EveryNamedItemInOneBag(
    bag: Bag, equipment: Bag, wantTotal: nat, equipped: map<nat, Item>, inBag: seq<Item>)
    requires Accepted(bag, equipment, wantTotal, equipped, inBag)
    ensures forall slot :: slot in equipped ==> equipped[slot] in equipment.items && ItemOf(bag, equipped[slot].itemId).None?
    ensures forall k :: 0 <= k < |inBag| ==> inBag[k] in bag.items && ItemOf(equipment, inBag[k].itemId).None?
  {
    forall slot | slot in equipped
      ensures equipped[slot] in equipment.items && ItemOf(bag, equipped[slot].itemId).None?
    {
      assert Worn(bag, equipment, slot, equipped[slot]);
    }
    forall k | 0 <= k < |inBag|
      ensures inBag[k] in bag.items && ItemOf(equipment, inBag[k].itemId).None?
    {
      assert SameItem(bag, inBag[k]);
      if ItemOf(equipment, inBag[k].itemId).Some? {
        var twin := ItemOf(equipment, inBag[k].itemId).value;
        EquipmentIsExactlyExpected(bag, equipment, wantTotal, equipped, inBag, twin);
        assert false;
      }
    }
  }

  /** Ascending definitions name a slot once. */
  ghost predicate OnlyDefinition(defs: seq<SlotDef>, slot: nat, def: SlotDef) {
    def in defs && def.slot == slot && forall other :: other in defs && other.slot == slot ==> other == def
  }

  lemma OneDefinition(defs: seq<SlotDef>, slot: nat) returns (def: SlotDef)
    requires Ascending(defs) && Defined(defs, slot)
    ensures OnlyDefinition(defs, slot, def) && def.equipKind != 0 && def.name != ""
  {
    def :| def in defs && def.slot == slot && def.equipKind != 0 && def.name != "";
    forall other | other in defs && other.slot == slot
      ensures other == def
    {
      var i :| 0 <= i < |defs| && defs[i] == other;
      var j :| 0 <= j < |defs| && defs[j] == def;
    }
  }

  /** Nothing was created or lost: the inventory holds what the total leaves beside the equipped ones; both
      snapshots are of the bags they should be. */
  lemma LayoutCounts(bag: Bag, equipment: Bag, wantTotal: nat, equipped: map<nat, Item>, inBag: seq<Item>)
    requires Accepted(bag, equipment, wantTotal, equipped, inBag)
    ensures |bag.items| == wantTotal - |equipped|
    ensures bag.layout.value.bagType == 0 && equipment.layout.value.bagType == 2
  {
  }

  lemma AcceptedDefinitions(bag: Bag, equipment: Bag, wantTotal: nat, equipped: map<nat, Item>, inBag: seq<Item>, slot: nat)
    requires Accepted(bag, equipment, wantTotal, equipped, inBag) && 3 <= slot <= 6
    ensures Ascending(equipment.layout.value.equipSlots) && Defined(equipment.layout.value.equipSlots, slot)
  {
    assert SoundSlotDefs(equipment.layout.value.equipSlots, NAMED_SLOTS);
    DefinedNamed(equipment.layout.value.equipSlots, slot);
  }

  lemma DefinedNamed(defs: seq<SlotDef>, slot: nat)
    requires SoundSlotDefs(defs, NAMED_SLOTS) && 3 <= slot <= 6
    ensures Ascending(defs) && Defined(defs, slot)
  {
    assert NAMED_SLOTS[slot - 3] == slot;
  }

  /** Every named slot, 3 to 6, has exactly one definition, with a kind and a name. */
  lemma NamedSlotsDefined(bag: Bag, equipment: Bag, wantTotal: nat, equipped: map<nat, Item>, inBag: seq<Item>, slot: nat)
    returns (def: SlotDef)
    requires Accepted(bag, equipment, wantTotal, equipped, inBag) && 3 <= slot <= 6
    ensures OnlyDefinition(equipment.layout.value.equipSlots, slot, def) && def.equipKind != 0 && def.name != ""
  {
    AcceptedDefinitions(bag, equipment, wantTotal, equipped, inBag, slot);
    def := OneDefinition(equipment.layout.value.equipSlots, slot);
  }
}
