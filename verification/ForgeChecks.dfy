/** The reconciliation checks for one accepted enhance, inlay or remove request
    (robot/equip_forge_smoke_scenario.go:754-1345): each decides whether two snapshots of the
    inventory and the equipment bag can be the before and after of that request. */
module ForgeChecks {
  import opened MachineInts
  import opened Keyed
  import opened ForgeScale
  import opened Bags
  import opened BagEquality

  const GOLD := 0
  const PERMYRIAD_BASE := 10000

  /** equipForgeBags: both bags at the same moment. */
  datatype Snapshots = Snapshots(inventory: Bag, equipment: Bag) {
    function Find(id: nat): Option<Item> {
      if ItemOf(equipment, id).Some? then ItemOf(equipment, id) else ItemOf(inventory, id)
    }

    predicate Wears(id: nat) { ItemOf(equipment, id).Some? }

    /** The bag the item is found in. */
    function Home(id: nat): Bag { if Wears(id) then equipment else inventory }
  }

  /** equipForgeGold: a short or missing currency list counts as zero. */
  function Gold(bag: Bag): nat {
    if bag.currency.None? || GOLD >= |bag.currency.value| then 0 else bag.currency.value[GOLD]
  }

  /** Gold is the first currency. */
  lemma GoldIsFirst(bag: Bag, gold: nat, others: seq<nat>)
    ensures Gold(bag.(currency := Some([gold] + others))) == gold
    ensures Gold(bag.(currency := Some([]))) == 0 && Gold(bag.(currency := None)) == 0
  {
  }

  function ConfigCount(items: seq<Item>, config: nat): nat {
    if items == [] then 0
    else ConfigCount(items[..|items| - 1], config)
         + if items[|items| - 1].configId == config then items[|items| - 1].count else 0
  }

  /** A stack counts all its units, and two lists count what they count apart. */
  lemma {:induction false} ConfigCountAdds(s: seq<Item>, t: seq<Item>, config: nat)
    ensures forall item :: ConfigCount([item], config) == if item.configId == config then item.count else 0
    ensures ConfigCount(s + t, config) == ConfigCount(s, config) + ConfigCount(t, config)
  {
    if t == [] {
      assert s + t == s;
    } else {
      var n := |t| - 1;
      ConfigCountAdds(s, t[..n], config);
      assert (s + t)[..|s + t| - 1] == s + t[..n];
    }
    forall item
      ensures ConfigCount([item], config) == if item.configId == config then item.count else 0
    {
      assert [item][..0] == [];
    }
  }

  /** equipForgeConfigCounts */
  method ConfigCounts(bag: Bag) returns (counts: map<nat, nat>)
    ensures forall config :: Get(counts, config) == ConfigCount(bag.items, config)
  {
    counts := map[];
    for n := 0 to |bag.items|
      invariant forall config :: Get(counts, config) == ConfigCount(bag.items[..n], config)
    {
      var item := bag.items[n];
      assert bag.items[..n + 1][..n] == bag.items[..n];
      counts := counts[item.configId := Get(counts, item.configId) + item.count];
    }
    assert bag.items[..|bag.items|] == bag.items;
  }

  /** equipForgeCountsDiff: the configs on which two tallies differ; a missing key counts zero. */
  method CountsDiff(want: map<nat, nat>, got: map<nat, nat>) returns (diff: set<nat>)
    ensures forall config :: config in diff <==> Get(want, config) != Get(got, config)
  {
    var left := want.Keys + got.Keys;
    diff := {};
    while left != {}
      invariant left <= want.Keys + got.Keys
      invariant forall config :: config in diff <==>
                  config in want.Keys + got.Keys - left && Get(want, config) != Get(got, config)
      decreases left
    {
      var config :| config in left;
      if Get(want, config) != Get(got, config) {
        diff := diff + {config};
      }
      left := left - {config};
    }
  }

  function NumberKey(socket: Socket): int { socket.number }

  /** equipForgeSocketOf */
  function SocketOf(item: Item, number: nat): Option<Socket> {
    Lookup(NumberKey, item.sockets, number)
  }

  /** equipForgeWithoutItem */
  function WithoutItem(bag: Bag, id: nat): Bag {
    bag.(items := Without(ItemKey, bag.items, id), currency := None)
  }

  /** equipForgeEnhanceBlind */
  function EnhanceBlind(item: Item): Item {
    item.(enhanceLevel := 0, bonusPermyriad := 0, enhanceNext := None, baseAttrs := [])
  }

  /** equipForgeSocketBlind */
  function SocketBlind(item: Item, number: nat): Item {
    item.(sockets := Without(NumberKey, item.sockets, number))
  }

  // ---- Ledger ----

  /** The target is in one bag only and stayed in its bag and slot. */
  predicate Stays(before: Snapshots, after: Snapshots, id: nat) {
    && !(ItemOf(after.inventory, id).Some? && ItemOf(after.equipment, id).Some?)
    && before.Find(id).Some? && after.Find(id).Some?
    && before.Wears(id) == after.Wears(id)
    && SlotOf(before.Home(id), id) == SlotOf(after.Home(id), id)
  }

  /** Gold fell by exactly `spent`, and both bags report the new amount. */
  predicate Paid(before: Snapshots, after: Snapshots, spent: nat) {
    Gold(before.inventory) == Gold(after.inventory) + spent && Gold(after.equipment) == Gold(after.inventory)
  }

  /** Everything but the target's own fields and the inventory tally. */
  ghost predicate Ledger(sorter: Sorter, before: Snapshots, after: Snapshots, id: nat, spent: nat) {
    && Stays(before, after, id)
    && Paid(before, after, spent)
    && BagsEqual(sorter, Some(WithoutItem(before.equipment, id)), Some(WithoutItem(after.equipment, id)))
  }

  /** The inventory tally changed by `change` for one config and not at all for the others. */
  ghost predicate TallyMoves(before: Snapshots, after: Snapshots, config: nat, change: int) {
    forall c :: ConfigCount(after.inventory.items, c)
                == ConfigCount(before.inventory.items, c) + if c == config then change else 0
  }

  method TallyMatches(bag: Bag, want: map<nat, nat>) returns (ok: bool)
    ensures ok <==> forall c :: ConfigCount(bag.items, c) == Get(want, c)
  {
    var counts := ConfigCounts(bag);
    var diff := CountsDiff(want, counts);
    ok := diff == {};
    if !ok {
      var config :| config in diff;
      assert ConfigCount(bag.items, config) != Get(want, config);
    }
  }

  method CheckStays(before: Snapshots, after: Snapshots, id: nat) returns (ok: bool)
    ensures ok <==> Stays(before, after, id)
  {
    if ItemOf(after.inventory, id).Some? && ItemOf(after.equipment, id).Some? {
      return false;
    }
    if before.Find(id).None? || after.Find(id).None? || before.Wears(id) != after.Wears(id) {
      return false;
    }
    var homeBefore, homeAfter := before.inventory, after.inventory;
    if before.Wears(id) {
      homeBefore, homeAfter := before.equipment, after.equipment;
    }
    ok := SlotOf(homeBefore, id) == SlotOf(homeAfter, id);
  }

  /** Both bags hold the same apart from one item and the currency. */
  method SameElsewhere(sorter: Sorter, before: Bag, after: Bag, id: nat) returns (ok: bool)
    requires sorter.Sorts()
    ensures ok <==> BagsEqual(sorter, Some(WithoutItem(before, id)), Some(WithoutItem(after, id)))
  {
    ok := FeatureBagsEqual(sorter, Some(WithoutItem(before, id)), Some(WithoutItem(after, id)));
  }

  /** checkEquipForgeLedger */
  method CheckLedger(sorter: Sorter, before: Snapshots, after: Snapshots, id: nat, want: map<nat, nat>, spent: nat)
    returns (ok: bool)
    requires sorter.Sorts()
    ensures ok <==> Ledger(sorter, before, after, id, spent)
                    && forall c :: ConfigCount(after.inventory.items, c) == Get(want, c)
  {
    ok := CheckStays(before, after, id);
    if !ok { return; }
    var goldBefore, goldAfter := Gold(before.inventory), Gold(after.inventory);
    if goldBefore < spent || goldBefore - spent != goldAfter || Gold(after.equipment) != goldAfter {
      return false;
    }
    ok := TallyMatches(after.inventory, want);
    if !ok { return; }
    ok := SameElsewhere(sorter, before.equipment, after.equipment, id);
  }

  /** The ledger check against a tally that moves one config. */
  method CheckLedgerMove(sorter: Sorter, before: Snapshots, after: Snapshots, id: nat, want: map<nat, nat>, spent: nat,
                         ghost config: nat, ghost change: int)
    returns (ok: bool)
    requires sorter.Sorts()
    requires forall c :: Get(want, c) == ConfigCount(before.inventory.items, c) + if c == config then change else 0
    ensures ok <==> Ledger(sorter, before, after, id, spent) && TallyMoves(before, after, config, change)
  {
    ok := CheckLedger(sorter, before, after, id, want, spent);
  }

  // ---- Enhance ----

  /** uint32 increment */
  function NextLevel(level: UInt32): UInt32 { (level + 1) % TWO_32 }

  function TableValue(line: AttrLine): int { line.value - line.enhanceBonus }

  /** One base line after a level change: same attribute and table value, and a bonus that matches
      the new permyriad; after a success also the previewed value. */
  predicate LineEnhanced(was: AttrLine, now: AttrLine, permyriad: UInt32, success: bool) {
    && now.attrId == was.attrId
    && now.value >= now.enhanceBonus && was.value >= was.enhanceBonus
    && TableValue(now) == TableValue(was)
    && now.enhanceBonus == Scale(TableValue(now), permyriad) - TableValue(now)
    && (success ==> now.value == was.enhanceNextValue)
  }

  /** The target's own fields before and after an enhance that moves it to `level`. */
  predicate TargetEnhanced(was: Item, now: Item, next: Preview, success: bool, level: UInt32) {
    && now.enhanceLevel == level
    && if level == was.enhanceLevel then now == was
       else
         && EnhanceBlind(now) == EnhanceBlind(was)
         && |now.baseAttrs| == |was.baseAttrs|
         && (forall i :: 0 <= i < |was.baseAttrs| ==>
               LineEnhanced(was.baseAttrs[i], now.baseAttrs[i], now.bonusPermyriad, success))
         && (success ==> now.bonusPermyriad == next.bonusPermyriad)
  }

  /** How many units of which config an enhance with this preview consumes. */
  function MaterialSpent(next: Preview): nat {
    if next.materialConfigId != 0 then next.materialCount else 0
  }

  /** The level the preview promises for this outcome; a certain success cannot fail. */
  predicate OutcomeFits(current: UInt32, next: Preview, success: bool, level: UInt32) {
    && next.nextLevel == NextLevel(current)
    && (!success ==> next.successRate < PERMYRIAD_BASE)
    && level == (if success then NextLevel(current) else LevelAfterFailure(current, next.failLevelLoss))
  }

  ghost predicate EnhanceAccepted(
    sorter: Sorter, before: Snapshots, after: Snapshots, id: nat, success: bool, level: UInt32)
  {
    && before.Find(id).Some? && before.Find(id).value.enhanceNext.Some?
    && var was, next := before.Find(id).value, before.Find(id).value.enhanceNext.value;
    && OutcomeFits(was.enhanceLevel, next, success, level)
    && Ledger(sorter, before, after, id, next.costGold)
    && TallyMoves(before, after, next.materialConfigId, 0 - MaterialSpent(next))
    && TargetEnhanced(was, after.Find(id).value, next, success, level)
  }

  /** checkEquipForgeEnhance */
  method CheckEnhance(sorter: Sorter, before: Snapshots, after: Snapshots, id: nat, success: bool, level: UInt32)
    returns (ok: bool)
    requires sorter.Sorts()
    ensures ok <==> EnhanceAccepted(sorter, before, after, id, success, level)
  {
    if before.Find(id).None? || before.Find(id).value.enhanceNext.None? {
      return false;
    }
    var was := before.Find(id).value;
    var next := was.enhanceNext.value;
    if !OutcomeFits(was.enhanceLevel, next, success, level) {
      return false;
    }
    var payable, tally := SpendMaterial(before.inventory, next);
    if !payable {
      assert ConfigCount(after.inventory.items, next.materialConfigId) >= 0;
      return false;
    }
    ok := CheckLedgerMove(sorter, before, after, id, tally, next.costGold, next.materialConfigId, 0 - MaterialSpent(next));
    if !ok { return; }
    ok := CheckTargetEnhanced(was, after.Find(id).value, next, success, level);
  }

  /** The inventory tally after the preview's material is taken out, if there is enough of it. */
  method SpendMaterial(inventory: Bag, next: Preview) returns (payable: bool, tally: map<nat, nat>)
    ensures payable <==> ConfigCount(inventory.items, next.materialConfigId) >= MaterialSpent(next)
    ensures payable ==> forall c :: Get(tally, c) == ConfigCount(inventory.items, c)
                                    + if c == next.materialConfigId then 0 - MaterialSpent(next) else 0
  {
    tally := ConfigCounts(inventory);
    payable := true;
    if next.materialConfigId != 0 && next.materialCount > 0 {
      if Get(tally, next.materialConfigId) < next.materialCount {
        return false, tally;
      }
      tally := tally[next.materialConfigId := Get(tally, next.materialConfigId) - next.materialCount];
    }
  }

  method CheckTargetEnhanced(was: Item, now: Item, next: Preview, success: bool, level: UInt32) returns (ok: bool)
    ensures ok <==> TargetEnhanced(was, now, next, success, level)
  {
    if now.enhanceLevel != level {
      return false;
    }
    if level == was.enhanceLevel {
      return now == was;
    }
    if EnhanceBlind(was) != EnhanceBlind(now) || |now.baseAttrs| != |was.baseAttrs| {
      return false;
    }
    for n := 0 to |now.baseAttrs|
      invariant forall i :: 0 <= i < n ==> LineEnhanced(was.baseAttrs[i], now.baseAttrs[i], now.bonusPermyriad, success)
    {
      if !LineEnhanced(was.baseAttrs[n], now.baseAttrs[n], now.bonusPermyriad, success) {
        return false;
      }
    }
    ok := success ==> now.bonusPermyriad == next.bonusPermyriad;
  }

  // ---- Inlay and remove ----

  /** checkEquipForgeGemAttr */
  predicate SoundGemAttr(attr: AttrLine) {
    attr.attrId != 0 && attr.name != "" && attr.value != 0 && attr.tier == 0 && attr.cap == 0 && attr.order == 0
  }

  function OfConfig(items: seq<Item>, config: nat): (chosen: seq<Item>)
    ensures ConfigCount(items, config) > 0 ==> chosen != []
  {
    if items == [] then []
    else OfConfig(items[..|items| - 1], config)
         + if items[|items| - 1].configId == config then [items[|items| - 1]] else []
  }

  /** The attribute the first stack of a config (lowest item id) declares: id and value, zero if none. */
  function DeclaredAttr(sorter: Sorter, items: seq<Item>, config: nat): (nat, nat)
    requires sorter.Sorts() && ConfigCount(items, config) > 0
  {
    var chosen := OfConfig(items, config);
    assert SortedPermutation(ItemKey, chosen, sorter.items(chosen));
    SameMembers(chosen, sorter.items(chosen));
    var attr := sorter.items(chosen)[0].gemAttr;
    if attr.Some? then (attr.value.attrId, attr.value.value) else (0, 0)
  }

  /** An empty socket took the gem and now shows its name and working attribute. */
  predicate SocketFilled(hole: Socket, filled: Socket, gem: nat, declared: (nat, nat)) {
    && filled.gemConfigId == gem
    && filled.gemType == hole.gemType && filled.name == hole.name
    && filled.gemName != ""
    && filled.attr.Some? && SoundGemAttr(filled.attr.value)
    && (filled.attr.value.attrId, filled.attr.value.value) == declared
  }

  ghost predicate InlayAccepted(sorter: Sorter, before: Snapshots, after: Snapshots, id: nat, number: nat, gem: nat)
    requires sorter.Sorts()
  {
    && before.Find(id).Some?
    && var was := before.Find(id).value;
    && SocketOf(was, number).Some? && SocketOf(was, number).value.gemConfigId == 0
    && ConfigCount(before.inventory.items, gem) > 0
    && Ledger(sorter, before, after, id, 0)
    && TallyMoves(before, after, gem, -1)
    && var now := after.Find(id).value;
    && SocketOf(now, number).Some?
    && SocketFilled(SocketOf(was, number).value, SocketOf(now, number).value, gem,
                    DeclaredAttr(sorter, before.inventory.items, gem))
    && SocketBlind(was, number) == SocketBlind(now, number)
  }

  /** checkEquipForgeInlay */
  method CheckInlay(sorter: Sorter, before: Snapshots, after: Snapshots, id: nat, number: nat, gem: nat)
    returns (ok: bool)
    requires sorter.Sorts()
    ensures ok <==> InlayAccepted(sorter, before, after, id, number, gem)
  {
    if before.Find(id).None? {
      return false;
    }
    var was := before.Find(id).value;
    var hole := SocketOf(was, number);
    if hole.None? || hole.value.gemConfigId != 0 {
      return false;
    }
    var tally := ConfigCounts(before.inventory);
    if Get(tally, gem) == 0 {
      return false;
    }
    tally := tally[gem := Get(tally, gem) - 1];
    ok := CheckLedgerMove(sorter, before, after, id, tally, 0, gem, -1);
    if !ok { return; }
    var now := after.Find(id).value;
    var filled := SocketOf(now, number);
    ok := filled.Some?
          && SocketFilled(hole.value, filled.value, gem, DeclaredAttr(sorter, before.inventory.items, gem))
          && SocketBlind(was, number) == SocketBlind(now, number);
  }

  /** The socket stays, empty: no gem, no gem name, no attribute. */
  predicate SocketEmptied(hole: Socket, emptied: Socket) {
    && emptied.gemConfigId == 0 && emptied.attr.None? && emptied.gemName == ""
    && emptied.gemType == hole.gemType && emptied.name == hole.name
  }

  ghost predicate RemoveAccepted(sorter: Sorter, before: Snapshots, after: Snapshots, id: nat, number: nat) {
    && before.Find(id).Some?
    && var was := before.Find(id).value;
    && SocketOf(was, number).Some? && SocketOf(was, number).value.gemConfigId != 0
    && Ledger(sorter, before, after, id, 0)
    && TallyMoves(before, after, SocketOf(was, number).value.gemConfigId, 1)
    && var now := after.Find(id).value;
    && SocketOf(now, number).Some?
    && SocketEmptied(SocketOf(was, number).value, SocketOf(now, number).value)
    && SocketBlind(was, number) == SocketBlind(now, number)
  }

  /** checkEquipForgeRemove */
  method CheckRemove(sorter: Sorter, before: Snapshots, after: Snapshots, id: nat, number: nat) returns (ok: bool)
    requires sorter.Sorts()
    ensures ok <==> RemoveAccepted(sorter, before, after, id, number)
  {
    if before.Find(id).None? {
      return false;
    }
    var was := before.Find(id).value;
    var hole := SocketOf(was, number);
    if hole.None? || hole.value.gemConfigId == 0 {
      return false;
    }
    var tally := ConfigCounts(before.inventory);
    tally := tally[hole.value.gemConfigId := Get(tally, hole.value.gemConfigId) + 1];
    ok := CheckLedgerMove(sorter, before, after, id, tally, 0, hole.value.gemConfigId, 1);
    if !ok { return; }
    var now := after.Find(id).value;
    var emptied := SocketOf(now, number);
    ok := emptied.Some? && SocketEmptied(hole.value, emptied.value)
          && SocketBlind(was, number) == SocketBlind(now, number);
  }

  // ---- Display checks used for the starting point of a run ----

  datatype SocketRule = SocketRule(number: nat, gemType: nat)

  /** A socket as it must be displayed: empty ones carry neither gem name nor attribute. */
  predicate SoundSocket(socket: Socket, rule: SocketRule) {
    && socket.number == rule.number && socket.gemType == rule.gemType && socket.name != ""
    && (socket.gemConfigId == 0 ==> socket.attr.None? && socket.gemName == "")
    && (socket.gemConfigId != 0 && socket.attr.Some? ==> SoundGemAttr(socket.attr.value))
  }

  predicate SoundSockets(sockets: seq<Socket>, rules: seq<SocketRule>) {
    |sockets| == |rules| && forall i :: 0 <= i < |rules| ==> SoundSocket(sockets[i], rules[i])
  }

  /** checkEquipForgeSockets */
  method CheckSockets(sockets: seq<Socket>, rules: seq<SocketRule>) returns (ok: bool)
    ensures ok <==> SoundSockets(sockets, rules)
  {
    if |sockets| != |rules| {
      return false;
    }
    for n := 0 to |sockets|
      invariant forall i :: 0 <= i < n ==> SoundSocket(sockets[i], rules[i])
    {
      var socket, rule := sockets[n], rules[n];
      if socket.number != rule.number || socket.gemType != rule.gemType || socket.name == "" {
        return false;
      }
      if socket.gemConfigId == 0 {
        if socket.attr.Some? || socket.gemName != "" {
          return false;
        }
      } else if socket.attr.Some? && !SoundGemAttr(socket.attr.value) {
        return false;
      }
    }
    ok := true;
  }

  /** A base line that shows its table value scaled by the current and by the next permyriad. */
  predicate SoundBaseLine(line: AttrLine, index: nat, attrId: nat, table: UInt64, permyriad: UInt32, next: Option<Preview>) {
    && line.attrId == attrId && line.tier == 0 && line.cap == 0 && line.order == index && line.name != ""
    && line.value >= line.enhanceBonus && TableValue(line) == table
    && line.enhanceBonus == Scale(table, permyriad) - table
    && line.enhanceNextValue == (if next.Some? then Scale(table, next.value.bonusPermyriad) else 0)
  }

  predicate SoundBaseLines(item: Item, want: seq<(nat, UInt64)>) {
    |item.baseAttrs| == |want| && forall i :: 0 <= i < |want| ==>
      SoundBaseLine(item.baseAttrs[i], i, want[i].0, want[i].1, item.bonusPermyriad, item.enhanceNext)
  }

  /** checkEquipForgeBaseLines */
  method CheckBaseLines(item: Item, want: seq<(nat, UInt64)>) returns (ok: bool)
    ensures ok <==> SoundBaseLines(item, want)
  {
    if |item.baseAttrs| != |want| {
      return false;
    }
    for n := 0 to |item.baseAttrs|
      invariant forall i :: 0 <= i < n ==>
                  SoundBaseLine(item.baseAttrs[i], i, want[i].0, want[i].1, item.bonusPermyriad, item.enhanceNext)
    {
      if !SoundBaseLine(item.baseAttrs[n], n, want[n].0, want[n].1, item.bonusPermyriad, item.enhanceNext) {
        return false;
      }
    }
    ok := true;
  }
}
