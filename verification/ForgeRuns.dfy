/** What holds over every run of accepted forge steps on one item: gold and materials are
    conserved, the item keeps its place and its table values, and inlay and remove undo each
    other up to one display field the checks never look at. */
module ForgeRuns {
  import opened MachineInts
  import opened Keyed
  import opened ForgeScale
  import opened Bags
  import opened BagEquality
  import opened ForgeChecks

  datatype Step =
    | Enhance(success: bool, level: UInt32)
    | Inlay(number: nat, gem: nat)
    | Remove(number: nat)

  ghost predicate Accepted(sorter: Sorter, before: Snapshots, after: Snapshots, id: nat, step: Step)
    requires sorter.Sorts()
  {
    match step
    case Enhance(success, level) => EnhanceAccepted(sorter, before, after, id, success, level)
    case Inlay(number, gem) => InlayAccepted(sorter, before, after, id, number, gem)
    case Remove(number) => RemoveAccepted(sorter, before, after, id, number)
  }

  /** Snapshots taken before, between and after the steps, each adjacent pair accepted. */
  ghost predicate Run(sorter: Sorter, id: nat, shots: seq<Snapshots>, steps: seq<Step>)
    requires sorter.Sorts()
  {
    && |shots| == |steps| + 1
    && forall i :: 0 <= i < |steps| ==> Accepted(sorter, shots[i], shots[i + 1], id, steps[i])
  }

  // ---- What one step costs ----

  function Price(before: Snapshots, id: nat, step: Step): nat {
    if step.Enhance? && before.Find(id).Some? && before.Find(id).value.enhanceNext.Some?
    then before.Find(id).value.enhanceNext.value.costGold else 0
  }

  function Material(before: Snapshots, id: nat, step: Step, config: nat): nat {
    if step.Enhance? && before.Find(id).Some? && before.Find(id).value.enhanceNext.Some?
       && before.Find(id).value.enhanceNext.value.materialConfigId == config != 0
    then before.Find(id).value.enhanceNext.value.materialCount else 0
  }

  /** Gold spent by the first n steps. */
  function TotalPrice(id: nat, shots: seq<Snapshots>, steps: seq<Step>, n: nat): nat
    requires n <= |steps| < |shots|
  {
    if n == 0 then 0 else TotalPrice(id, shots, steps, n - 1) + Price(shots[n - 1], id, steps[n - 1])
  }

  /** Units of a config consumed as enhance material by the first n steps. */
  function TotalMaterial(id: nat, shots: seq<Snapshots>, steps: seq<Step>, config: nat, n: nat): nat
    requires n <= |steps| < |shots|
  {
    if n == 0 then 0
    else TotalMaterial(id, shots, steps, config, n - 1) + Material(shots[n - 1], id, steps[n - 1], config)
  }

  // ---- Gems in sockets ----

  function GemsIn(sockets: seq<Socket>, config: nat): nat {
    if sockets == [] then 0 else (if sockets[0].gemConfigId == config then 1 else 0) + GemsIn(sockets[1..], config)
  }

  /** The gems of a list are those of the sockets with one number and those of the others. */
  lemma {:induction false} GemsSplit(sockets: seq<Socket>, number: nat, config: nat)
    ensures GemsIn(sockets, config)
            == GemsIn(Without(NumberKey, sockets, number), config) + GemsIn(Only(NumberKey, sockets, number), config)
  {
    if sockets != [] {
      var rest := sockets[1..];
      GemsSplit(rest, number, config);
      var without, only := Without(NumberKey, rest, number), Only(NumberKey, rest, number);
      assert ([sockets[0]] + without)[1..] == without && ([sockets[0]] + only)[1..] == only;
      assert [] + without == without && [] + only == only;
    }
  }

  /** Units of a config the player owns: in the inventory and set in the item. */
  function Holdings(shot: Snapshots, id: nat, config: nat): nat
    requires shot.Find(id).Some?
  {
    ConfigCount(shot.inventory.items, config) + GemsIn(shot.Find(id).value.sockets, config)
  }

  predicate SocketsDistinct(shot: Snapshots, id: nat) {
    shot.Find(id).Some? ==> DistinctKeys(NumberKey, shot.Find(id).value.sockets)
  }

  lemma StepKeepsPlace(sorter: Sorter, before: Snapshots, after: Snapshots, id: nat, step: Step)
    requires sorter.Sorts() && Accepted(sorter, before, after, id, step)
    ensures Ledger(sorter, before, after, id, Price(before, id, step))
  {
  }

  /** The sockets a step addresses by number, and those of them behind the first one: only the first
      is looked at by the checks, and all of them are hidden when the rest is compared. */
  function Addressed(item: Item, number: nat): seq<Socket> { Only(NumberKey, item.sockets, number) }

  function Twins(item: Item, number: nat): seq<Socket> {
    if Addressed(item, number) == [] then [] else Addressed(item, number)[1..]
  }

  /** The other sockets with the addressed number hold as many gems of a config as before. */
  predicate TwinsAgree(before: Snapshots, after: Snapshots, id: nat, step: Step, config: nat) {
    before.Find(id).Some? && after.Find(id).Some? && !step.Enhance? ==>
      GemsIn(Twins(before.Find(id).value, step.number), config) == GemsIn(Twins(after.Find(id).value, step.number), config)
  }

  lemma AddressedGems(item: Item, number: nat, config: nat)
    requires SocketOf(item, number).Some?
    ensures GemsIn(Addressed(item, number), config)
            == (if SocketOf(item, number).value.gemConfigId == config then 1 else 0) + GemsIn(Twins(item, number), config)
  {
    OnlyStartsWithLookup(NumberKey, item.sockets, number);
  }

  lemma SocketStepMovesGems(was: Item, now: Item, number: nat, config: nat)
    requires SocketBlind(was, number) == SocketBlind(now, number)
    ensures GemsIn(was.sockets, config) - GemsIn(Addressed(was, number), config)
            == GemsIn(now.sockets, config) - GemsIn(Addressed(now, number), config)
  {
    GemsSplit(was.sockets, number, config);
    GemsSplit(now.sockets, number, config);
    assert Without(NumberKey, was.sockets, number) == SocketBlind(was, number).sockets;
    assert Without(NumberKey, now.sockets, number) == SocketBlind(now, number).sockets;
  }

  lemma EnhanceKeepsSockets(sorter: Sorter, before: Snapshots, after: Snapshots, id: nat, success: bool, level: UInt32)
    requires sorter.Sorts() && EnhanceAccepted(sorter, before, after, id, success, level)
    ensures before.Find(id).Some? && after.Find(id).Some?
    ensures after.Find(id).value.sockets == before.Find(id).value.sockets
  {
    var was, now := before.Find(id).value, after.Find(id).value;
    if level != was.enhanceLevel {
      assert EnhanceBlind(now).sockets == EnhanceBlind(was).sockets;
    }
  }

  /** An accepted inlay balances a config exactly when the addressed sockets gained the gem and
      nothing else of that config. */
  lemma InlayBalances(sorter: Sorter, before: Snapshots, after: Snapshots, id: nat, number: nat, gem: nat, config: nat)
    requires sorter.Sorts() && InlayAccepted(sorter, before, after, id, number, gem)
    ensures Balanced(before, after, id, Inlay(number, gem), config) <==>
              GemsIn(Addressed(after.Find(id).value, number), config)
              == GemsIn(Addressed(before.Find(id).value, number), config) + if config == gem then 1 else 0
  {
    SocketStepMovesGems(before.Find(id).value, after.Find(id).value, number, config);
  }

  /** An accepted remove balances a config exactly when they lost the gem and nothing else of it. */
  lemma RemoveBalances(sorter: Sorter, before: Snapshots, after: Snapshots, id: nat, number: nat, config: nat)
    requires sorter.Sorts() && RemoveAccepted(sorter, before, after, id, number)
    ensures Balanced(before, after, id, Remove(number), config) <==>
              GemsIn(Addressed(before.Find(id).value, number), config)
              == GemsIn(Addressed(after.Find(id).value, number), config)
                 + if config == SocketOf(before.Find(id).value, number).value.gemConfigId then 1 else 0
  {
    SocketStepMovesGems(before.Find(id).value, after.Find(id).value, number, config);
  }

  /** One accepted step conserves a real config (0 marks an empty socket), up to the material it
      spends, if and only if the twins of the addressed socket agree. */
  lemma StepConserves(sorter: Sorter, before: Snapshots, after: Snapshots, id: nat, step: Step, config: nat)
    requires sorter.Sorts() && Accepted(sorter, before, after, id, step) && config != 0
    ensures Balanced(before, after, id, step, config) <==> TwinsAgree(before, after, id, step, config)
  {
    var was, now := before.Find(id).value, after.Find(id).value;
    match step
    case Enhance(success, level) => EnhanceKeepsSockets(sorter, before, after, id, success, level);
    case Inlay(number, gem) =>
      InlayBalances(sorter, before, after, id, number, gem, config);
      AddressedGems(was, number, config);
      AddressedGems(now, number, config);
    case Remove(number) =>
      RemoveBalances(sorter, before, after, id, number, config);
      AddressedGems(was, number, config);
      AddressedGems(now, number, config);
  }

  /** With distinct socket numbers there are no twins. */
  lemma DistinctTwinsAgree(before: Snapshots, after: Snapshots, id: nat, step: Step, config: nat)
    requires SocketsDistinct(before, id) && SocketsDistinct(after, id)
    ensures TwinsAgree(before, after, id, step, config)
  {
    if before.Find(id).Some? && after.Find(id).Some? && !step.Enhance? {
      OnlyOnce(NumberKey, before.Find(id).value.sockets, step.number);
      OnlyOnce(NumberKey, after.Find(id).value.sockets, step.number);
    }
  }

  predicate Pays(before: Snapshots, after: Snapshots, id: nat, step: Step) {
    Gold(before.inventory) == Gold(after.inventory) + Price(before, id, step)
  }

  lemma StepPays(sorter: Sorter, before: Snapshots, after: Snapshots, id: nat, step: Step)
    requires sorter.Sorts() && Accepted(sorter, before, after, id, step)
    ensures Pays(before, after, id, step)
  {
    StepKeepsPlace(sorter, before, after, id, step);
  }

  lemma {:induction false} TelescopeGold(id: nat, shots: seq<Snapshots>, steps: seq<Step>, n: nat)
    requires n <= |steps| < |shots|
    requires forall i :: 0 <= i < |steps| ==> Pays(shots[i], shots[i + 1], id, steps[i])
    ensures Gold(shots[0].inventory) == Gold(shots[n].inventory) + TotalPrice(id, shots, steps, n)
  {
    if n > 0 {
      TelescopeGold(id, shots, steps, n - 1);
      assert Pays(shots[n - 1], shots[n - 1 + 1], id, steps[n - 1]);
    }
  }

  /** At every point of a run, gold lost is the sum of the enhance prices so far, and both bags report the
      same amount. */
  lemma RunConservesGold(sorter: Sorter, id: nat, shots: seq<Snapshots>, steps: seq<Step>, n: nat)
    requires sorter.Sorts() && Run(sorter, id, shots, steps) && n <= |steps|
    ensures Gold(shots[0].inventory) == Gold(shots[n].inventory) + TotalPrice(id, shots, steps, n)
    ensures n > 0 ==> Gold(shots[n].equipment) == Gold(shots[n].inventory)
  {
    if n > 0 {
      StepKeepsPlace(sorter, shots[n - 1], shots[n], id, steps[n - 1]);
    }
    forall i | 0 <= i < |steps|
      ensures Pays(shots[i], shots[i + 1], id, steps[i])
    {
      StepPays(sorter, shots[i], shots[i + 1], id, steps[i]);
    }
    TelescopeGold(id, shots, steps, n);
  }

  /** At a point of a run, inventory plus gems set in the item has changed only by the enhance material
      consumed so far. */
  predicate Conserved(id: nat, shots: seq<Snapshots>, steps: seq<Step>, config: nat, n: nat)
    requires n <= |steps| < |shots|
  {
    && shots[0].Find(id).Some? && shots[n].Find(id).Some?
    && Holdings(shots[0], id, config) == Holdings(shots[n], id, config) + TotalMaterial(id, shots, steps, config, n)
  }

  predicate AllConserved(id: nat, shots: seq<Snapshots>, steps: seq<Step>, config: nat)
    requires |steps| < |shots|
  {
    forall n :: 0 <= n <= |steps| ==> Conserved(id, shots, steps, config, n)
  }

  predicate AllBalanced(id: nat, shots: seq<Snapshots>, steps: seq<Step>, config: nat)
    requires |steps| < |shots|
  {
    forall i, j :: 0 <= i < |steps| && j == i + 1 ==> Balanced(shots[i], shots[j], id, steps[i], config)
  }

  predicate AllTwinsAgree(id: nat, shots: seq<Snapshots>, steps: seq<Step>, config: nat)
    requires |steps| < |shots|
  {
    forall i, j :: 0 <= i < |steps| && j == i + 1 ==> TwinsAgree(shots[i], shots[j], id, steps[i], config)
  }

  lemma StepAtConserves(sorter: Sorter, id: nat, shots: seq<Snapshots>, steps: seq<Step>, config: nat, i: nat)
    requires sorter.Sorts() && Run(sorter, id, shots, steps) && config != 0 && i < |steps|
    ensures Balanced(shots[i], shots[i + 1], id, steps[i], config) <==> TwinsAgree(shots[i], shots[i + 1], id, steps[i], config)
  {
    assert Accepted(sorter, shots[i], shots[i + 1], id, steps[i]);
    StepConserves(sorter, shots[i], shots[i + 1], id, steps[i], config);
  }

  lemma StepByStep(id: nat, shots: seq<Snapshots>, steps: seq<Step>, config: nat)
    requires |steps| < |shots|
    requires forall i, j :: 0 <= i < |steps| && j == i + 1 ==>
               (Balanced(shots[i], shots[j], id, steps[i], config) <==> TwinsAgree(shots[i], shots[j], id, steps[i], config))
    ensures AllBalanced(id, shots, steps, config) <==> AllTwinsAgree(id, shots, steps, config)
  {
  }

  lemma StepsConserve(sorter: Sorter, id: nat, shots: seq<Snapshots>, steps: seq<Step>, config: nat)
    requires sorter.Sorts() && Run(sorter, id, shots, steps) && config != 0
    ensures AllBalanced(id, shots, steps, config) <==> AllTwinsAgree(id, shots, steps, config)
  {
    forall i, j | 0 <= i < |steps| && j == i + 1
      ensures Balanced(shots[i], shots[j], id, steps[i], config) <==> TwinsAgree(shots[i], shots[j], id, steps[i], config)
    {
      StepAtConserves(sorter, id, shots, steps, config, i);
    }
    StepByStep(id, shots, steps, config);
  }

  /** A real config is conserved at every point of a run if and only if the twins of the addressed
      socket agree in every step. */
  lemma RunConservesHoldings(sorter: Sorter, id: nat, shots: seq<Snapshots>, steps: seq<Step>, config: nat)
    requires sorter.Sorts() && Run(sorter, id, shots, steps) && shots[0].Find(id).Some? && config != 0
    ensures AllConserved(id, shots, steps, config) <==> AllTwinsAgree(id, shots, steps, config)
  {
    StepsConserve(sorter, id, shots, steps, config);
    HoldingsTelescope(id, shots, steps, config);
  }

  /** Hence runs on items with distinct socket numbers conserve every real config. */
  lemma DistinctRunConserves(sorter: Sorter, id: nat, shots: seq<Snapshots>, steps: seq<Step>, config: nat)
    requires sorter.Sorts() && Run(sorter, id, shots, steps) && shots[0].Find(id).Some? && config != 0
    requires forall i :: 0 <= i < |shots| ==> SocketsDistinct(shots[i], id)
    ensures AllConserved(id, shots, steps, config)
  {
    DistinctStepsAgree(id, shots, steps, config);
    RunConservesHoldings(sorter, id, shots, steps, config);
  }

  lemma DistinctStepsAgree(id: nat, shots: seq<Snapshots>, steps: seq<Step>, config: nat)
    requires |steps| < |shots| && forall i :: 0 <= i < |shots| ==> SocketsDistinct(shots[i], id)
    ensures AllTwinsAgree(id, shots, steps, config)
  {
    forall i, j | 0 <= i < |steps| && j == i + 1
      ensures TwinsAgree(shots[i], shots[j], id, steps[i], config)
    {
      DistinctTwinsAgree(shots[i], shots[j], id, steps[i], config);
    }
  }

  predicate Balanced(before: Snapshots, after: Snapshots, id: nat, step: Step, config: nat) {
    && before.Find(id).Some? && after.Find(id).Some?
    && Holdings(before, id, config) == Holdings(after, id, config) + Material(before, id, step, config)
  }

  /** Holdings are conserved at every point exactly when every step balances. */
  lemma HoldingsTelescope(id: nat, shots: seq<Snapshots>, steps: seq<Step>, config: nat)
    requires |steps| < |shots| && shots[0].Find(id).Some?
    ensures AllConserved(id, shots, steps, config) <==> AllBalanced(id, shots, steps, config)
  {
    if AllConserved(id, shots, steps, config) {
      forall i, j | 0 <= i < |steps| && j == i + 1
        ensures Balanced(shots[i], shots[j], id, steps[i], config)
      {
        assert Conserved(id, shots, steps, config, i) && Conserved(id, shots, steps, config, j);
        ConservedNext(id, shots, steps, config, i);
      }
    }
    if AllBalanced(id, shots, steps, config) {
      forall n | 0 <= n <= |steps|
        ensures Conserved(id, shots, steps, config, n)
      {
        TelescopeHoldings(id, shots, steps, config, n);
      }
    }
  }

  /** From a conserved point the next one is conserved exactly when the step between balances. */
  lemma ConservedNext(id: nat, shots: seq<Snapshots>, steps: seq<Step>, config: nat, i: nat)
    requires i < |steps| < |shots| && Conserved(id, shots, steps, config, i)
    ensures Conserved(id, shots, steps, config, i + 1) <==> Balanced(shots[i], shots[i + 1], id, steps[i], config)
  {
  }

  /** Amounts that each step lowers by what it spends add up. */
  lemma {:induction false} Telescope(held: nat -> int, spent: nat -> int, total: nat -> int, n: nat)
    requires total(0) == 0
    requires forall i, j :: 0 <= i < n && j == i + 1 ==> held(i) == held(j) + spent(i) && total(j) == total(i) + spent(i)
    ensures held(0) == held(n) + total(n)
  {
    if n > 0 {
      Telescope(held, spent, total, n - 1);
    }
  }

  lemma TelescopeHoldings(id: nat, shots: seq<Snapshots>, steps: seq<Step>, config: nat, n: nat)
    requires n <= |steps| < |shots| && shots[0].Find(id).Some? && AllBalanced(id, shots, steps, config)
    ensures Conserved(id, shots, steps, config, n)
  {
    var held := (i: nat) => if i < |shots| && shots[i].Find(id).Some? then Holdings(shots[i], id, config) else 0;
    var spent := (i: nat) => if i < |steps| then Material(shots[i], id, steps[i], config) else 0;
    var total := (i: nat) => if i <= |steps| then TotalMaterial(id, shots, steps, config, i) else 0;
    forall i, j | 0 <= i < n && j == i + 1
      ensures held(i) == held(j) + spent(i) && total(j) == total(i) + spent(i)
    {
      assert Balanced(shots[i], shots[j], id, steps[i], config);
    }
    Telescope(held, spent, total, n);
    if n > 0 {
      var i := n - 1;
      assert Balanced(shots[i], shots[n], id, steps[i], config);
    }
  }

  /** The rest of what is worn: other items, all slots, slot definitions. */
  predicate SameOutfit(a: Snapshots, b: Snapshots, id: nat) {
    && a.equipment.layout.Some? && b.equipment.layout.Some?
    && multiset(WithoutItem(a.equipment, id).items) == multiset(WithoutItem(b.equipment, id).items)
    && multiset(a.equipment.layout.value.slots) == multiset(b.equipment.layout.value.slots)
    && a.equipment.layout.value.equipSlots == b.equipment.layout.value.equipSlots
  }

  lemma LedgerKeepsOutfit(sorter: Sorter, before: Snapshots, after: Snapshots, id: nat, spent: nat)
    requires sorter.Sorts() && Ledger(sorter, before, after, id, spent)
    ensures SameOutfit(before, after, id)
  {
    var a, b := WithoutItem(before.equipment, id), WithoutItem(after.equipment, id);
    EqualKeepsContents(sorter, Some(a), Some(b));
    assert Remainder(a).layout.value.equipSlots == Remainder(b).layout.value.equipSlots;
  }

  /** At every point of a run the item is still in its bag and slot and in no other bag, and everything
      else that is worn is the same. */
  lemma {:induction false} RunKeepsPlace(sorter: Sorter, id: nat, shots: seq<Snapshots>, steps: seq<Step>, n: nat)
    requires sorter.Sorts() && Run(sorter, id, shots, steps) && 0 < n <= |steps|
    ensures shots[0].Find(id).Some? && shots[n].Find(id).Some?
    ensures shots[0].Wears(id) == shots[n].Wears(id) && SlotOf(shots[0].Home(id), id) == SlotOf(shots[n].Home(id), id)
    ensures ItemOf(shots[n].inventory, id).None? || ItemOf(shots[n].equipment, id).None?
    ensures SameOutfit(shots[0], shots[n], id)
  {
    StepKeepsPlace(sorter, shots[n - 1], shots[n], id, steps[n - 1]);
    LedgerKeepsOutfit(sorter, shots[n - 1], shots[n], id, Price(shots[n - 1], id, steps[n - 1]));
    if n > 1 {
      RunKeepsPlace(sorter, id, shots, steps, n - 1);
    }
  }

  // ---- What a step may touch ----

  /** An accepted enhance touches the level, the bonus, the preview and the base lines of the item and
      nothing else; an inlay or remove touches the sockets with one number and nothing else. */
  lemma StepTouchesOnly(sorter: Sorter, before: Snapshots, after: Snapshots, id: nat, step: Step)
    requires sorter.Sorts() && Accepted(sorter, before, after, id, step)
    ensures before.Find(id).Some? && after.Find(id).Some?
    ensures var was, now := before.Find(id).value, after.Find(id).value;
            if step.Enhance? then
              now.(enhanceLevel := was.enhanceLevel, bonusPermyriad := was.bonusPermyriad,
                   enhanceNext := was.enhanceNext, baseAttrs := was.baseAttrs) == was
            else
              && now.(sockets := was.sockets) == was
              && forall socket: Socket :: socket.number != step.number ==> (socket in now.sockets <==> socket in was.sockets)
  {
    var was, now := before.Find(id).value, after.Find(id).value;
    match step
    case Enhance(success, level) => BlindOnly(was, now, level);
    case Inlay(number, gem) => HiddenOnly(was, now, number);
    case Remove(number) => HiddenOnly(was, now, number);
  }

  lemma BlindOnly(was: Item, now: Item, level: UInt32)
    requires if level == was.enhanceLevel then now == was else EnhanceBlind(now) == EnhanceBlind(was)
    ensures now.(enhanceLevel := was.enhanceLevel, bonusPermyriad := was.bonusPermyriad,
                 enhanceNext := was.enhanceNext, baseAttrs := was.baseAttrs) == was
  {
  }

  lemma HiddenOnly(was: Item, now: Item, number: nat)
    requires SocketBlind(was, number) == SocketBlind(now, number)
    ensures now.(sockets := was.sockets) == was
    ensures forall socket: Socket :: socket.number != number ==> (socket in now.sockets <==> socket in was.sockets)
  {
    assert SocketBlind(was, number).sockets == SocketBlind(now, number).sockets;
    forall socket: Socket | socket.number != number
      ensures socket in now.sockets <==> socket in was.sockets
    {
      WithoutKeepsOthers(NumberKey, now.sockets, number, socket);
      WithoutKeepsOthers(NumberKey, was.sockets, number, socket);
    }
  }

  // ---- Levels ----

  function Level(shot: Snapshots, id: nat): nat {
    if shot.Find(id).Some? then shot.Find(id).value.enhanceLevel else 0
  }

  /** What a step adds to the level: one for a success, less the loss for a failure, as far as there is
      anything to lose. */
  function LevelChange(before: Snapshots, id: nat, step: Step): int {
    if !step.Enhance? then 0
    else if step.success then 1
    else if before.Find(id).Some? && before.Find(id).value.enhanceNext.Some?
    then 0 - Min(Level(before, id), before.Find(id).value.enhanceNext.value.failLevelLoss)
    else 0
  }

  function TotalChange(id: nat, shots: seq<Snapshots>, steps: seq<Step>, n: nat): int
    requires n <= |steps| < |shots|
  {
    if n == 0 then 0 else TotalChange(id, shots, steps, n - 1) + LevelChange(shots[n - 1], id, steps[n - 1])
  }

  /** A success shows the previewed bonus and values, and a step that cannot fail does not. */
  lemma EnhanceMeans(sorter: Sorter, before: Snapshots, after: Snapshots, id: nat, success: bool, level: UInt32)
    requires sorter.Sorts() && EnhanceAccepted(sorter, before, after, id, success, level)
    ensures before.Find(id).Some? && after.Find(id).Some? && before.Find(id).value.enhanceNext.Some?
    ensures !success ==> before.Find(id).value.enhanceNext.value.successRate < 10000
    ensures success ==>
              var was, now := before.Find(id).value, after.Find(id).value;
              && now.bonusPermyriad == was.enhanceNext.value.bonusPermyriad && |now.baseAttrs| == |was.baseAttrs|
              && forall i :: 0 <= i < |now.baseAttrs| ==> now.baseAttrs[i].value == was.baseAttrs[i].enhanceNextValue
  {
  }

  lemma EnhanceChangesLevel(sorter: Sorter, before: Snapshots, after: Snapshots, id: nat, success: bool, level: UInt32)
    requires sorter.Sorts() && EnhanceAccepted(sorter, before, after, id, success, level) && Level(before, id) < TWO_32 - 1
    ensures LevelMoves(before, after, id, Enhance(success, level))
  {
  }

  lemma StepChangesLevel(sorter: Sorter, before: Snapshots, after: Snapshots, id: nat, step: Step)
    requires sorter.Sorts() && Accepted(sorter, before, after, id, step) && Level(before, id) < TWO_32 - 1
    ensures LevelMoves(before, after, id, step)
  {
    match step
    case Enhance(success, level) => EnhanceChangesLevel(sorter, before, after, id, success, level);
    case Inlay(number, gem) => HiddenOnly(before.Find(id).value, after.Find(id).value, number);
    case Remove(number) => HiddenOnly(before.Find(id).value, after.Find(id).value, number);
  }

  /** The level at every point of a run is the first one, one more for every success and less what the
      failures cost. */
  lemma RunLevel(sorter: Sorter, id: nat, shots: seq<Snapshots>, steps: seq<Step>, n: nat)
    requires sorter.Sorts() && Run(sorter, id, shots, steps) && n <= |steps|
    requires forall i :: 0 <= i < n ==> Level(shots[i], id) < TWO_32 - 1
    ensures Level(shots[n], id) == Level(shots[0], id) + TotalChange(id, shots, steps, n)
  {
    forall i, j | 0 <= i < n && j == i + 1
      ensures LevelMoves(shots[i], shots[j], id, steps[i])
    {
      StepChangesLevel(sorter, shots[i], shots[i + 1], id, steps[i]);
    }
    TelescopeLevel(id, shots, steps, n);
  }

  predicate LevelMoves(before: Snapshots, after: Snapshots, id: nat, step: Step) {
    Level(after, id) == Level(before, id) + LevelChange(before, id, step)
  }

  lemma TelescopeLevel(id: nat, shots: seq<Snapshots>, steps: seq<Step>, n: nat)
    requires n <= |steps| < |shots|
    requires forall i, j :: 0 <= i < n && j == i + 1 ==> LevelMoves(shots[i], shots[j], id, steps[i])
    ensures Level(shots[n], id) == Level(shots[0], id) + TotalChange(id, shots, steps, n)
  {
    var held := (i: nat) => if i < |shots| then Level(shots[i], id) else 0;
    var spent := (i: nat) => if i < |steps| then 0 - LevelChange(shots[i], id, steps[i]) else 0;
    var total := (i: nat) => if i <= |steps| then 0 - TotalChange(id, shots, steps, i) else 0;
    forall i, j | 0 <= i < n && j == i + 1
      ensures held(i) == held(j) + spent(i) && total(j) == total(i) + spent(i)
    {
      assert LevelMoves(shots[i], shots[j], id, steps[i]);
    }
    Telescope(held, spent, total, n);
  }

  /** An accepted inlay fills the socket it addressed, which keeps its type and name, and shows what the
      stack of the gem with the least item id declares. */
  lemma InlayShowsDeclared(sorter: Sorter, before: Snapshots, after: Snapshots, id: nat, number: nat, gem: nat) returns (stack: Item)
    requires sorter.Sorts() && InlayAccepted(sorter, before, after, id, number, gem)
    ensures stack in before.inventory.items && stack.configId == gem
    ensures forall other :: other in before.inventory.items && other.configId == gem ==> stack.itemId <= other.itemId
    ensures SocketOf(after.Find(id).value, number).Some? && SocketOf(after.Find(id).value, number).value.attr.Some?
    ensures var shown := SocketOf(after.Find(id).value, number).value.attr.value;
            stack.gemAttr.Some? && shown.attrId == stack.gemAttr.value.attrId && shown.value == stack.gemAttr.value.value
    ensures before.Find(id).Some? && SocketOf(before.Find(id).value, number).Some?
    ensures var hole, filled := SocketOf(before.Find(id).value, number).value, SocketOf(after.Find(id).value, number).value;
            && hole.gemConfigId == 0 && filled.gemConfigId == gem && filled.gemName != ""
            && filled.gemType == hole.gemType && filled.name == hole.name
  {
    stack := LeastStack(sorter, before.inventory.items, gem);
  }

  /** An accepted remove empties the socket it addressed, which keeps its type and name. */
  lemma RemoveEmpties(sorter: Sorter, before: Snapshots, after: Snapshots, id: nat, number: nat)
    requires sorter.Sorts() && RemoveAccepted(sorter, before, after, id, number)
    ensures before.Find(id).Some? && SocketOf(before.Find(id).value, number).Some?
    ensures after.Find(id).Some? && SocketOf(after.Find(id).value, number).Some?
    ensures var hole, emptied := SocketOf(before.Find(id).value, number).value, SocketOf(after.Find(id).value, number).value;
            && hole.gemConfigId != 0 && emptied.gemConfigId == 0 && emptied.gemName == "" && emptied.attr.None?
            && emptied.gemType == hole.gemType && emptied.name == hole.name
  {
  }

  lemma LeastStack(sorter: Sorter, items: seq<Item>, gem: nat) returns (stack: Item)
    requires sorter.Sorts() && ConfigCount(items, gem) > 0
    ensures stack in items && stack.configId == gem
    ensures forall other :: other in items && other.configId == gem ==> stack.itemId <= other.itemId
    ensures DeclaredAttr(sorter, items, gem)
            == if stack.gemAttr.Some? then (stack.gemAttr.value.attrId, stack.gemAttr.value.value) else (0, 0)
  {
    var chosen := OfConfig(items, gem);
    assert SortedPermutation(ItemKey, chosen, sorter.items(chosen));
    SameMembers(chosen, sorter.items(chosen));
    stack := sorter.items(chosen)[0];
    OfConfigMembers(items, gem);
    forall other | other in items && other.configId == gem
      ensures stack.itemId <= other.itemId
    {
      HeadIsLeast(ItemKey, sorter.items(chosen), other);
    }
  }

  lemma {:induction false} OfConfigMembers(items: seq<Item>, gem: nat)
    ensures forall item :: item in OfConfig(items, gem) <==> item in items && item.configId == gem
  {
    if items != [] {
      OfConfigMembers(items[..|items| - 1], gem);
      assert items == items[..|items| - 1] + [items[|items| - 1]];
    }
  }

  // ---- Base attributes ----

  /** Every base line shows its table value scaled by the item's current permyriad. */
  predicate Scaled(item: Item) {
    forall i :: 0 <= i < |item.baseAttrs| ==>
      var line := item.baseAttrs[i];
      line.value >= line.enhanceBonus && line.value == Scale(TableValue(line), item.bonusPermyriad)
  }

  /** The same attributes with the same table values, line by line. */
  predicate SameTable(a: Item, b: Item) {
    |a.baseAttrs| == |b.baseAttrs| && forall i :: 0 <= i < |a.baseAttrs| ==>
      a.baseAttrs[i].attrId == b.baseAttrs[i].attrId && TableValue(a.baseAttrs[i]) == TableValue(b.baseAttrs[i])
  }

  lemma StepKeepsTable(sorter: Sorter, before: Snapshots, after: Snapshots, id: nat, step: Step)
    requires sorter.Sorts() && Accepted(sorter, before, after, id, step)
    ensures SameTable(before.Find(id).value, after.Find(id).value)
    ensures Scaled(before.Find(id).value) ==> Scaled(after.Find(id).value)
  {
    var was, now := before.Find(id).value, after.Find(id).value;
    match step
    case Enhance(success, level) =>
      if level != was.enhanceLevel {
        assert forall i :: 0 <= i < |was.baseAttrs| ==>
                             LineEnhanced(was.baseAttrs[i], now.baseAttrs[i], now.bonusPermyriad, success);
      }
    case Inlay(number, gem) =>
      assert SocketBlind(was, number).baseAttrs == SocketBlind(now, number).baseAttrs;
      assert SocketBlind(was, number).bonusPermyriad == SocketBlind(now, number).bonusPermyriad;
    case Remove(number) =>
      assert SocketBlind(was, number).baseAttrs == SocketBlind(now, number).baseAttrs;
      assert SocketBlind(was, number).bonusPermyriad == SocketBlind(now, number).bonusPermyriad;
  }

  /** Table values never change over a run, and lines that start out properly scaled stay so after
      every success, failure, level loss, inlay and remove. */
  lemma RunKeepsTable(sorter: Sorter, id: nat, shots: seq<Snapshots>, steps: seq<Step>, n: nat)
    requires sorter.Sorts() && Run(sorter, id, shots, steps) && n <= |steps| && shots[0].Find(id).Some?
    ensures shots[n].Find(id).Some?
    ensures SameTable(shots[0].Find(id).value, shots[n].Find(id).value)
    ensures Scaled(shots[0].Find(id).value) ==> Scaled(shots[n].Find(id).value)
  {
    forall i | 0 <= i < |steps|
      ensures TableKept(shots[i], shots[i + 1], id)
    {
      StepKeepsTable(sorter, shots[i], shots[i + 1], id, steps[i]);
    }
    TelescopeTable(id, shots, n);
  }

  predicate TableKept(a: Snapshots, b: Snapshots, id: nat) {
    && a.Find(id).Some? && b.Find(id).Some?
    && SameTable(a.Find(id).value, b.Find(id).value)
    && (Scaled(a.Find(id).value) ==> Scaled(b.Find(id).value))
  }

  lemma {:induction false} TelescopeTable(id: nat, shots: seq<Snapshots>, n: nat)
    requires n < |shots| && shots[0].Find(id).Some?
    requires forall i :: 0 <= i < |shots| - 1 ==> TableKept(shots[i], shots[i + 1], id)
    ensures TableKept(shots[0], shots[n], id)
  {
    if n > 0 {
      TelescopeTable(id, shots, n - 1);
      assert TableKept(shots[n - 1], shots[n - 1 + 1], id);
    }
  }

  /** A target that passed the display check starts out properly scaled. */
  lemma DisplayCheckStartsScaled(item: Item, want: seq<(nat, UInt64)>)
    requires SoundBaseLines(item, want)
    ensures Scaled(item)
  {
    forall i | 0 <= i < |item.baseAttrs|
      ensures item.baseAttrs[i].value == Scale(TableValue(item.baseAttrs[i]), item.bonusPermyriad)
    {
      assert SoundBaseLine(item.baseAttrs[i], i, want[i].0, want[i].1, item.bonusPermyriad, item.enhanceNext);
    }
  }

  // ---- Inlay and remove undo each other ----

  predicate RulesAscend(rules: seq<SocketRule>) {
    forall i, j :: 0 <= i < j < |rules| ==> rules[i].number < rules[j].number
  }

  /** Two socket lists laid out by the same rules that agree without socket `number` agree in
      every other position. */
  lemma {:induction false} SameElsewhereInList(s: seq<Socket>, t: seq<Socket>, rules: seq<SocketRule>, number: nat)
    requires |s| == |t| == |rules| && RulesAscend(rules)
    requires forall i :: 0 <= i < |rules| ==> s[i].number == t[i].number == rules[i].number
    requires Without(NumberKey, s, number) == Without(NumberKey, t, number)
    ensures forall i :: 0 <= i < |rules| && rules[i].number != number ==> s[i] == t[i]
    decreases |s|
  {
    if s != [] {
      var s', t' := Without(NumberKey, s[1..], number), Without(NumberKey, t[1..], number);
      if rules[0].number != number {
        assert Without(NumberKey, s, number) == [s[0]] + s';
        assert Without(NumberKey, t, number) == [t[0]] + t';
        assert ([s[0]] + s')[0] == ([t[0]] + t')[0];
        assert s' == ([s[0]] + s')[1..] == ([t[0]] + t')[1..] == t';
      } else {
        assert Without(NumberKey, s, number) == s' && Without(NumberKey, t, number) == t';
      }
      SameElsewhereInList(s[1..], t[1..], rules[1..], number);
      forall i | 0 <= i < |rules| && rules[i].number != number
        ensures s[i] == t[i]
      {
        if i > 0 {
          assert s[1..][i - 1] == s[i] && t[1..][i - 1] == t[i] && rules[1..][i - 1] == rules[i];
        }
      }
    }
  }

  /** The index of the socket with a given number under ascending rules. */
  lemma SocketIndex(sockets: seq<Socket>, rules: seq<SocketRule>, number: nat) returns (k: nat)
    requires SoundSockets(sockets, rules) && RulesAscend(rules) && Lookup(NumberKey, sockets, number).Some?
    ensures k < |rules| && rules[k].number == number && Lookup(NumberKey, sockets, number) == Some(sockets[k])
  {
    var found := Lookup(NumberKey, sockets, number).value;
    k :| 0 <= k < |sockets| && sockets[k] == found;
    assert SoundSocket(sockets[k], rules[k]);
  }

  /** Inlay then remove on one socket restores the inventory tally, the gold and the item, except
      that nothing checks the gem icon of that socket: the item comes back exactly when that icon
      does.  The removed gem is the one that was set. */
  lemma InlayThenRemove(sorter: Sorter, first: Snapshots, middle: Snapshots, last: Snapshots,
                        id: nat, number: nat, gem: nat, rules: seq<SocketRule>)
    requires sorter.Sorts()
    requires InlayAccepted(sorter, first, middle, id, number, gem) && RemoveAccepted(sorter, middle, last, id, number)
    requires RulesAscend(rules)
    requires SoundSockets(first.Find(id).value.sockets, rules) && SoundSockets(last.Find(id).value.sockets, rules)
    ensures Gold(last.inventory) == Gold(first.inventory)
    ensures TallyMoves(first, last, gem, 0)
    ensures var was, now := first.Find(id).value, last.Find(id).value;
            now == was <==> SocketOf(now, number).value.gemIconKey == SocketOf(was, number).value.gemIconKey
  {
    var was, now := first.Find(id).value, last.Find(id).value;
    assert SocketBlind(was, number) == SocketBlind(now, number);
    assert SocketOf(middle.Find(id).value, number).value.gemConfigId == gem;
    TallyReturns(first, middle, last, gem);
    assert Without(NumberKey, was.sockets, number) == SocketBlind(was, number).sockets
           == SocketBlind(now, number).sockets == Without(NumberKey, now.sockets, number);
    RestoredSockets(was.sockets, now.sockets, rules, number);
    assert was.(sockets := []) == SocketBlind(was, number).(sockets := [])
           == SocketBlind(now, number).(sockets := []) == now.(sockets := []);
    var a, b := SocketOf(was, number).value, SocketOf(now, number).value;
    assert a.gemType == b.gemType && a.name == b.name && a.number == b.number;
    var k := SocketIndex(was.sockets, rules, number);
    assert SoundSocket(was.sockets[k], rules[k]);
    assert a == b <==> a.gemIconKey == b.gemIconKey;
  }

  lemma TallyReturns(first: Snapshots, middle: Snapshots, last: Snapshots, gem: nat)
    requires TallyMoves(first, middle, gem, -1) && TallyMoves(middle, last, gem, 1)
    ensures TallyMoves(first, last, gem, 0)
  {
  }

  lemma RestoredSockets(s: seq<Socket>, t: seq<Socket>, rules: seq<SocketRule>, number: nat)
    requires SoundSockets(s, rules) && SoundSockets(t, rules) && RulesAscend(rules)
    requires Without(NumberKey, s, number) == Without(NumberKey, t, number)
    requires Lookup(NumberKey, s, number).Some? && Lookup(NumberKey, t, number).Some?
    ensures s == t <==> Lookup(NumberKey, s, number) == Lookup(NumberKey, t, number)
  {
    var k := SocketIndex(s, rules, number);
    var l := SocketIndex(t, rules, number);
    assert forall i :: 0 <= i < |rules| ==> SoundSocket(s[i], rules[i]) && SoundSocket(t[i], rules[i]);
    SameElsewhereInList(s, t, rules, number);
    assert k == l;
    if s[k] == t[k] {
      assert forall i :: 0 <= i < |rules| ==> rules[i].number != number || i == k;
    }
  }

  predicate EmptySocketsBare(item: Item) {
    forall socket :: socket in item.sockets && socket.gemConfigId == 0 ==> socket.gemIconKey == ""
  }

  /** If empty sockets carry no gem icon, as the message definition says, the item is restored. */
  lemma InlayThenRemoveRestores(sorter: Sorter, first: Snapshots, middle: Snapshots, last: Snapshots,
                                id: nat, number: nat, gem: nat, rules: seq<SocketRule>)
    requires sorter.Sorts()
    requires InlayAccepted(sorter, first, middle, id, number, gem) && RemoveAccepted(sorter, middle, last, id, number)
    requires RulesAscend(rules)
    requires SoundSockets(first.Find(id).value.sockets, rules) && SoundSockets(last.Find(id).value.sockets, rules)
    requires EmptySocketsBare(first.Find(id).value) && EmptySocketsBare(last.Find(id).value)
    ensures last.Find(id) == first.Find(id)
  {
    InlayThenRemove(sorter, first, middle, last, id, number, gem, rules);
    var a, b := SocketOf(first.Find(id).value, number).value, SocketOf(last.Find(id).value, number).value;
    assert a in first.Find(id).value.sockets && b in last.Find(id).value.sockets;
    assert a.gemConfigId == 0 && b.gemConfigId == 0;
  }

  // ---- Where the checks stop ----

  const DAMAGE := AttrLine(1, "damage", 0, 10, 0, false, 0, 0, 0)
  const RUBIES := Item(8, 2101, 1, 99, 0, "ruby", "", "", 0, 0, "", [], [], 0, 0, None, [], 1, Some(DAMAGE), 0)
  const SWORD := Item(7, 1101, 1, 1, 11, "sword", "", "", 1, 0, "", [], [], 0, 12, None, [], 0, None, 0)
  const EMPTY := Socket(0, 1, 0, "", "", None, "attack")
  const STALE := EMPTY.(gemIconKey := "ruby-icon")
  const FILLED := Socket(0, 1, 2101, "ruby", "ruby-icon", Some(DAMAGE), "attack")

  /** The sword with these sockets, in an inventory that also holds `stacks`; each item has a cell. */
  function Shot(sockets: seq<Socket>, stacks: seq<Item>): Snapshots {
    var slots := [Slot(0, 7, 1, 1)] + if stacks == [] then [] else [Slot(1, 8, 1, 1)];
    Snapshots(Bag([SWORD.(sockets := sockets)] + stacks, Some(Layout(0, 10, slots, false, [])), None),
              Bag([], Some(Layout(2, 10, [], false, [])), None))
  }

  lemma ShotFacts(sockets: seq<Socket>, stacks: seq<Item>, config: nat)
    requires stacks == [] || stacks == [RUBIES]
    ensures Shot(sockets, stacks).Find(7) == Some(SWORD.(sockets := sockets))
    ensures ConfigCount(Shot(sockets, stacks).inventory.items, config)
            == (if config == 1101 then 1 else 0) + (if config == 2101 then |stacks| else 0)
  {
    var items := Shot(sockets, stacks).inventory.items;
    var sword := SWORD.(sockets := sockets);
    assert items[0] == sword;
    assert ConfigCount([sword], config) == if config == 1101 then 1 else 0;
    if stacks != [] {
      assert items == [sword, RUBIES] && items[..1] == [sword];
    } else {
      assert items == [sword];
    }
  }

  /** Both bags pass the snapshot check that precedes every forge check. */
  ghost predicate Placed(shot: Snapshots) { WellPlaced(shot.inventory) && WellPlaced(shot.equipment) }

  lemma ShotIsPlaced(sockets: seq<Socket>, stacks: seq<Item>)
    requires stacks == [] || stacks == [RUBIES]
    ensures Placed(Shot(sockets, stacks))
  {
    var bag := Shot(sockets, stacks).inventory;
    var items, slots := bag.items, bag.layout.value.slots;
    assert items[0].itemId == 7 && slots[0] == Slot(0, 7, 1, 1);
    if stacks == [] {
      assert |items| == 1 && |slots| == 1;
      assert Keys(ItemKey, items) == {7} == Keys(OwnerKey, slots);
    } else {
      assert |items| == 2 && items[1] == RUBIES && |slots| == 2 && slots[1] == Slot(1, 8, 1, 1);
      assert Keys(ItemKey, items) == {7, 8} == Keys(OwnerKey, slots);
    }
    assert Keys(ItemKey, []) == {} == Keys(OwnerKey, []);
  }

  lemma SwordTally(sockets: seq<Socket>, stacks: seq<Item>, sockets': seq<Socket>, stacks': seq<Item>)
    requires (stacks == [] || stacks == [RUBIES]) && (stacks' == [] || stacks' == [RUBIES])
    ensures TallyMoves(Shot(sockets, stacks), Shot(sockets', stacks'), 2101, |stacks'| - |stacks|)
  {
    forall config
      ensures ConfigCount(Shot(sockets', stacks').inventory.items, config)
              == ConfigCount(Shot(sockets, stacks).inventory.items, config) + if config == 2101 then |stacks'| - |stacks| else 0
    {
      ShotFacts(sockets, stacks, config);
      ShotFacts(sockets', stacks', config);
    }
  }

  lemma OneStackDeclares(sorter: Sorter, items: seq<Item>)
    requires sorter.Sorts() && |items| == 2 && items[0].configId != 2101 && items[1] == RUBIES
    requires ConfigCount(items, 2101) > 0
    ensures DeclaredAttr(sorter, items, 2101) == (1, 10)
  {
    var chosen := OfConfig(items, 2101);
    assert items[..1] == [items[0]] && items[..1][..0] == [];
    assert OfConfig(items[..1], 2101) == [];
    assert chosen == [RUBIES];
    assert SortedPermutation(ItemKey, chosen, sorter.items(chosen));
    SameMembers(chosen, sorter.items(chosen));
    assert sorter.items(chosen)[0] in chosen;
  }

  lemma ZeroSocketBlind(sockets: seq<Socket>)
    requires 1 <= |sockets| <= 2 && forall i :: 0 <= i < |sockets| ==> sockets[i].number == 0
    ensures SocketBlind(SWORD.(sockets := sockets), 0) == SWORD
    ensures SocketOf(SWORD.(sockets := sockets), 0) == Some(sockets[0])
  {
    assert Without(NumberKey, sockets[1..], 0) == [];
    assert Without(NumberKey, sockets, 0) == [];
  }

  lemma SwordLedger(sorter: Sorter, sockets: seq<Socket>, stacks: seq<Item>, sockets': seq<Socket>, stacks': seq<Item>)
    requires sorter.Sorts() && (stacks == [] || stacks == [RUBIES]) && (stacks' == [] || stacks' == [RUBIES])
    ensures Ledger(sorter, Shot(sockets, stacks), Shot(sockets', stacks'), 7, 0)
  {
    ShotFacts(sockets, stacks, 0);
    ShotFacts(sockets', stacks', 0);
  }

  lemma InlayFrom(sorter: Sorter, before: Snapshots, after: Snapshots, id: nat, number: nat, gem: nat, was: Item, now: Item)
    requires sorter.Sorts() && before.Find(id) == Some(was) && after.Find(id) == Some(now)
    requires SocketOf(was, number).Some? && SocketOf(was, number).value.gemConfigId == 0 && SocketOf(now, number).Some?
    requires ConfigCount(before.inventory.items, gem) > 0
    requires Ledger(sorter, before, after, id, 0) && TallyMoves(before, after, gem, -1)
    requires SocketFilled(SocketOf(was, number).value, SocketOf(now, number).value, gem,
                          DeclaredAttr(sorter, before.inventory.items, gem))
    requires SocketBlind(was, number) == SocketBlind(now, number)
    ensures InlayAccepted(sorter, before, after, id, number, gem)
  {
  }

  lemma RubyFits(sorter: Sorter, sockets: seq<Socket>)
    requires sorter.Sorts() && 1 <= |sockets| <= 2 && forall i :: 0 <= i < |sockets| ==> sockets[i] == FILLED
    ensures SocketOf(SWORD.(sockets := [EMPTY]), 0) == Some(EMPTY) && SocketOf(SWORD.(sockets := sockets), 0) == Some(FILLED)
    ensures SocketBlind(SWORD.(sockets := [EMPTY]), 0) == SocketBlind(SWORD.(sockets := sockets), 0)
  {
    ZeroSocketBlind([EMPTY]);
    ZeroSocketBlind(sockets);
  }

  lemma RubyDeclared(sorter: Sorter)
    requires sorter.Sorts()
    ensures var items := Shot([EMPTY], [RUBIES]).inventory.items;
            ConfigCount(items, 2101) > 0 && SocketFilled(EMPTY, FILLED, 2101, DeclaredAttr(sorter, items, 2101))
  {
    ShotFacts([EMPTY], [RUBIES], 2101);
    OneStackDeclares(sorter, Shot([EMPTY], [RUBIES]).inventory.items);
  }

  lemma InlayIntoSword(sorter: Sorter, sockets: seq<Socket>)
    requires sorter.Sorts() && 1 <= |sockets| <= 2 && forall i :: 0 <= i < |sockets| ==> sockets[i] == FILLED
    ensures InlayAccepted(sorter, Shot([EMPTY], [RUBIES]), Shot(sockets, []), 7, 0, 2101)
  {
    SwordTally([EMPTY], [RUBIES], sockets, []);
    ShotFacts([EMPTY], [RUBIES], 2101);
    ShotFacts(sockets, [], 2101);
    SwordLedger(sorter, [EMPTY], [RUBIES], sockets, []);
    RubyFits(sorter, sockets);
    RubyDeclared(sorter);
    InlayFrom(sorter, Shot([EMPTY], [RUBIES]), Shot(sockets, []), 7, 0, 2101,
              SWORD.(sockets := [EMPTY]), SWORD.(sockets := sockets));
  }

  lemma RemoveFromSword(sorter: Sorter)
    requires sorter.Sorts()
    ensures RemoveAccepted(sorter, Shot([FILLED], []), Shot([STALE], [RUBIES]), 7, 0)
  {
    var before, after := Shot([FILLED], []), Shot([STALE], [RUBIES]);
    SwordTally([FILLED], [], [STALE], [RUBIES]);
    ShotFacts([FILLED], [], 2101);
    ShotFacts([STALE], [RUBIES], 2101);
    SwordLedger(sorter, [FILLED], [], [STALE], [RUBIES]);
    ZeroSocketBlind([FILLED]);
    ZeroSocketBlind([STALE]);
  }

  lemma StaleIsSound()
    ensures SoundSockets([EMPTY], [SocketRule(0, 1)]) && SoundSockets([STALE], [SocketRule(0, 1)])
    ensures SWORD.(sockets := [EMPTY]) != SWORD.(sockets := [STALE])
  {
    assert [EMPTY][0] != [STALE][0];
    assert SWORD.(sockets := [EMPTY]).sockets != SWORD.(sockets := [STALE]).sockets;
  }

  /** A stale icon left behind by the removal passes every check. */
  lemma IconNotRestored(sorter: Sorter)
    requires sorter.Sorts()
    ensures var first, middle, last := Shot([EMPTY], [RUBIES]), Shot([FILLED], []), Shot([STALE], [RUBIES]);
            && InlayAccepted(sorter, first, middle, 7, 0, 2101) && RemoveAccepted(sorter, middle, last, 7, 0)
            && SoundSockets(first.Find(7).value.sockets, [SocketRule(0, 1)])
            && SoundSockets(last.Find(7).value.sockets, [SocketRule(0, 1)])
            && first.Find(7) != last.Find(7)
            && Placed(first) && Placed(middle) && Placed(last)
  {
    ShotIsPlaced([EMPTY], [RUBIES]);
    ShotIsPlaced([FILLED], []);
    ShotIsPlaced([STALE], [RUBIES]);
    InlayIntoSword(sorter, [FILLED]);
    RemoveFromSword(sorter);
    ShotFacts([EMPTY], [RUBIES], 2101);
    ShotFacts([STALE], [RUBIES], 2101);
    StaleIsSound();
  }

  lemma RubiesHeld(sockets: seq<Socket>, stacks: seq<Item>)
    requires stacks == [] || stacks == [RUBIES]
    ensures Shot(sockets, stacks).Find(7).Some?
    ensures Holdings(Shot(sockets, stacks), 7, 2101) == |stacks| + GemsIn(sockets, 2101)
  {
    ShotFacts(sockets, stacks, 2101);
  }

  /** Twins that disagree break conservation: an inlay answered with the filled socket twice is
      accepted and creates a gem. */
  lemma DuplicateSocketCreatesGem(sorter: Sorter)
    requires sorter.Sorts()
    ensures var before, after := Shot([EMPTY], [RUBIES]), Shot([FILLED, FILLED], []);
            && InlayAccepted(sorter, before, after, 7, 0, 2101)
            && Holdings(before, 7, 2101) == 1 && Holdings(after, 7, 2101) == 2
            && Placed(before) && Placed(after)
  {
    ShotIsPlaced([EMPTY], [RUBIES]);
    ShotIsPlaced([FILLED, FILLED], []);
    InlayIntoSword(sorter, [FILLED, FILLED]);
    RubiesHeld([EMPTY], [RUBIES]);
    RubiesHeld([FILLED, FILLED], []);
    assert [FILLED, FILLED][1..] == [FILLED];
    assert GemsIn([FILLED, FILLED], 2101) == 1 + GemsIn([FILLED], 2101);
    assert GemsIn([FILLED], 2101) == 1 && GemsIn([EMPTY], 2101) == 0;
  }
}
