/** Attribute panels (robot/equip_smoke_scenario.go, equipPanelCompare and equipPanelDiff;
    robot/equip_forge_smoke_scenario.go, checkEquipForgePanelShift). */
module Panels {
  import opened MachineInts
  import opened Keyed

  datatype Derived = Derived(
    maxHealth: UInt64, maxMana: UInt64, physicalAttack: UInt64, magicAttack: UInt64, speed: UInt64, defense: UInt64,
    health: UInt64, mana: UInt64)

  datatype Dimension = Dimension(id: nat, value: nat, bonus: nat)

  datatype CombatRow = CombatRow(id: nat, value: nat)

  datatype Panel = Panel(derived: Option<Derived>, dimensions: seq<Dimension>, combat: seq<CombatRow>)

  function DimensionKey(row: Dimension): int { row.id }

  function CombatKey(row: CombatRow): int { row.id }

  /** The six compared statistics; a missing block reads as zeros. */
  function Stats(panel: Panel): (stats: seq<nat>)
    ensures |stats| == 6
  {
    if panel.derived.None? then [0, 0, 0, 0, 0, 0]
    else
      var d := panel.derived.value;
      [d.maxHealth, d.maxMana, d.physicalAttack, d.magicAttack, d.speed, d.defense]
  }

  /** The value a map filled row by row keeps: the last one. */
  function LastValue(rows: seq<CombatRow>, id: nat): Option<nat> {
    if rows == [] then None
    else if rows[|rows| - 1].id == id then Some(rows[|rows| - 1].value)
    else LastValue(rows[..|rows| - 1], id)
  }

  type Holds = (nat, nat) -> bool

  predicate StatHolds(before: Panel, after: Panel, holds: Holds, i: nat)
    requires i < 6
  {
    holds(Stats(before)[i], Stats(after)[i])
  }

  predicate DimensionHolds(row: Dimension, after: Panel, holds: Holds) {
    var other := Lookup(DimensionKey, after.dimensions, row.id);
    other.Some? && holds(row.value, other.value.value) && holds(row.bonus, other.value.bonus)
  }

  predicate CombatHolds(row: CombatRow, after: Panel, holds: Holds) {
    var other := LastValue(after.combat, row.id);
    other.Some? && holds(row.value, other.value)
  }

  predicate Compares(before: Panel, after: Panel, holds: Holds) {
    && (forall i :: 0 <= i < 6 ==> StatHolds(before, after, holds, i))
    && (forall i :: 0 <= i < |before.dimensions| ==> DimensionHolds(before.dimensions[i], after, holds))
    && (forall i :: 0 <= i < |before.combat| ==> CombatHolds(before.combat[i], after, holds))
    && |before.dimensions| == |after.dimensions| && |before.combat| == |after.combat|
  }

  datatype Mismatch = StatisticBroken(index: nat) | DimensionBroken(id: nat) | CombatBroken(id: nat) | RowCount

  /** equipPanelCompare: lists what does not hold. */
  method PanelCompare(before: Panel, after: Panel, holds: Holds) returns (broken: seq<Mismatch>)
    ensures broken == [] <==> Compares(before, after, holds)
  {
    broken := [];
    for i := 0 to 6
      invariant broken == [] <==> forall k :: 0 <= k < i ==> StatHolds(before, after, holds, k)
    {
      if !StatHolds(before, after, holds, i) {
        broken := broken + [StatisticBroken(i)];
      }
    }
    ghost var stats := broken == [];
    for i := 0 to |before.dimensions|
      invariant broken == [] <==> stats && forall k :: 0 <= k < i ==> DimensionHolds(before.dimensions[k], after, holds)
    {
      if !DimensionHolds(before.dimensions[i], after, holds) {
        broken := broken + [DimensionBroken(before.dimensions[i].id)];
      }
    }
    ghost var dimensions := broken == [];
    var values := CombatValues(after);
    for i := 0 to |before.combat|
      invariant broken == [] <==> dimensions && forall k :: 0 <= k < i ==> CombatHolds(before.combat[k], after, holds)
    {
      var row := before.combat[i];
      if row.id !in values || !holds(row.value, values[row.id]) {
        broken := broken + [CombatBroken(row.id)];
      }
    }
    if |before.dimensions| != |after.dimensions| || |before.combat| != |after.combat| {
      broken := broken + [RowCount];
    }
  }

  /** equipCombatValues */
  method CombatValues(panel: Panel) returns (values: map<nat, nat>)
    ensures forall id: nat :: (if id in values then Some(values[id]) else None) == LastValue(panel.combat, id)
  {
    values := map[];
    for n := 0 to |panel.combat|
      invariant forall id: nat :: (if id in values then Some(values[id]) else None) == LastValue(panel.combat[..n], id)
    {
      assert panel.combat[..n + 1][..n] == panel.combat[..n];
      values := values[panel.combat[n].id := panel.combat[n].value];
    }
    assert panel.combat[..|panel.combat|] == panel.combat;
  }

  function Equal(was: nat, now: nat): bool { was == now }

  /** equipPanelDiff finds nothing. */
  predicate NoDiff(a: Panel, b: Panel) { Compares(a, b, Equal) }

  lemma StatsAgree(a: Panel, b: Panel)
    ensures (forall i :: 0 <= i < 6 ==> StatHolds(a, b, Equal, i)) <==> Stats(a) == Stats(b)
  {
    forall i | 0 <= i < 6
      ensures StatHolds(a, b, Equal, i) <==> Stats(a)[i] == Stats(b)[i]
    {
    }
  }

  lemma {:induction false} LastValueIsInRows(rows: seq<CombatRow>, id: nat) returns (k: nat)
    requires LastValue(rows, id).Some?
    ensures k < |rows| && rows[k] == CombatRow(id, LastValue(rows, id).value)
  {
    var n := |rows| - 1;
    if rows[n].id == id {
      k := n;
    } else {
      k := LastValueIsInRows(rows[..n], id);
    }
  }

  /** Finding no difference carries over from panel to panel, even with repeated row ids. */
  lemma NoDiffTransitive(a: Panel, b: Panel, c: Panel)
    requires NoDiff(a, b) && NoDiff(b, c)
    ensures NoDiff(a, c)
  {
    StatsAgree(a, b);
    StatsAgree(b, c);
    StatsAgree(a, c);
    forall i | 0 <= i < |a.dimensions|
      ensures DimensionHolds(a.dimensions[i], c, Equal)
    {
      var row := a.dimensions[i];
      assert DimensionHolds(row, b, Equal);
      var other := Lookup(DimensionKey, b.dimensions, row.id).value;
      var j :| 0 <= j < |b.dimensions| && b.dimensions[j] == other;
      assert DimensionHolds(b.dimensions[j], c, Equal);
    }
    forall i | 0 <= i < |a.combat|
      ensures CombatHolds(a.combat[i], c, Equal)
    {
      var row := a.combat[i];
      assert CombatHolds(row, b, Equal);
      var j := LastValueIsInRows(b.combat, row.id);
      assert CombatHolds(b.combat[j], c, Equal);
    }
  }

  /** With distinct row ids, finding no difference means the panels answer every lookup alike. */
  lemma NoDiffExact(a: Panel, b: Panel)
    requires DistinctKeys(DimensionKey, a.dimensions) && DistinctKeys(DimensionKey, b.dimensions)
    requires DistinctKeys(CombatKey, a.combat) && DistinctKeys(CombatKey, b.combat)
    ensures NoDiff(a, b) <==>
              && Stats(a) == Stats(b)
              && SameLookups(DimensionKey, a.dimensions, b.dimensions)
              && SameLookups(CombatKey, a.combat, b.combat)
  {
    StatsAgree(a, b);
    if NoDiff(a, b) {
      forall i | 0 <= i < |a.dimensions|
        ensures Lookup(DimensionKey, b.dimensions, a.dimensions[i].id) == Some(a.dimensions[i])
      {
        assert DimensionHolds(a.dimensions[i], b, Equal);
      }
      RowsDecide(DimensionKey, a.dimensions, b.dimensions);
      forall i | 0 <= i < |a.combat|
        ensures Lookup(CombatKey, b.combat, a.combat[i].id) == Some(a.combat[i])
      {
        assert CombatHolds(a.combat[i], b, Equal);
        var j := LastValueIsInRows(b.combat, a.combat[i].id);
        LookupByKey(CombatKey, b.combat, a.combat[i].id);
      }
      RowsDecide(CombatKey, a.combat, b.combat);
    }
    if Stats(a) == Stats(b) && SameLookups(DimensionKey, a.dimensions, b.dimensions) && SameLookups(CombatKey, a.combat, b.combat) {
      LookupsDecide(DimensionKey, a.dimensions, b.dimensions);
      LookupsDecide(CombatKey, a.combat, b.combat);
      SameMembers(a.dimensions, b.dimensions);
      SameMembers(a.combat, b.combat);
      forall i | 0 <= i < |a.dimensions|
        ensures DimensionHolds(a.dimensions[i], b, Equal)
      {
        LookupByKey(DimensionKey, a.dimensions, a.dimensions[i].id);
        assert Lookup(DimensionKey, a.dimensions, a.dimensions[i].id) == Lookup(DimensionKey, b.dimensions, a.dimensions[i].id);
      }
      forall i | 0 <= i < |a.combat|
        ensures CombatHolds(a.combat[i], b, Equal)
      {
        var row := a.combat[i];
        assert row in b.combat;
        var j :| 0 <= j < |b.combat| && b.combat[j] == row;
        LastValueOf(b.combat, j);
      }
    }
  }

  /** If every row of s is what t finds under its id, and t is no longer, lookups agree. */
  lemma RowsDecide<T(!new)>(key: T -> int, s: seq<T>, t: seq<T>)
    requires DistinctKeys(key, s) && DistinctKeys(key, t) && |s| == |t|
    requires forall i :: 0 <= i < |s| ==> Lookup(key, t, key(s[i])) == Some(s[i])
    ensures SameLookups(key, s, t)
  {
    DistinctKeyCount(key, s);
    DistinctKeyCount(key, t);
    forall k | k in Keys(key, s)
      ensures k in Keys(key, t)
    {
      var i := KeyIndex(key, s, k);
      LookupByKey(key, t, k);
    }
    FullSubset(Keys(key, s), Keys(key, t));
    forall k
      ensures Lookup(key, s, k) == Lookup(key, t, k)
    {
      LookupByKey(key, s, k);
      LookupByKey(key, t, k);
      if k in Keys(key, s) {
        var i := KeyIndex(key, s, k);
      }
    }
  }

  lemma {:induction false} LastValueOf(rows: seq<CombatRow>, j: nat)
    requires DistinctKeys(CombatKey, rows) && j < |rows|
    ensures LastValue(rows, rows[j].id) == Some(rows[j].value)
  {
    var n := |rows| - 1;
    if j < n {
      assert CombatKey(rows[j]) != CombatKey(rows[n]);
      LastValueOf(rows[..n], j);
    }
  }

  // ---- Shifting the two attacks ----

  /** uint64(int64(attack) + delta) */
  function AddSigned(attack: UInt64, delta: Int64): UInt64 { (attack + delta) % TWO_64 }

  /** The panel with both attacks moved by delta. */
  function Shift(panel: Panel, delta: Int64): Panel
    requires panel.derived.Some?
  {
    var d := panel.derived.value;
    panel.(derived := Some(d.(physicalAttack := AddSigned(d.physicalAttack, delta),
                              magicAttack := AddSigned(d.magicAttack, delta))))
  }

  /** uint64(-delta) for a negative delta */
  function Magnitude(delta: Int64): UInt64
    requires delta < 0
  {
    0 - delta
  }

  predicate Shifted(before: Panel, after: Panel, delta: Int64) {
    && before.derived.Some? && after.derived.Some?
    && (delta < 0 ==> before.derived.value.physicalAttack >= Magnitude(delta)
                      && before.derived.value.magicAttack >= Magnitude(delta))
    && NoDiff(Shift(before, delta), after)
  }

  /** checkEquipForgePanelShift */
  method CheckPanelShift(before: Panel, after: Panel, delta: Int64) returns (ok: bool)
    ensures ok <==> Shifted(before, after, delta)
  {
    if before.derived.None? || after.derived.None? {
      return false;
    }
    var d := before.derived.value;
    if delta < 0 && d.physicalAttack < Magnitude(delta) {
      return false;
    }
    d := d.(physicalAttack := AddSigned(d.physicalAttack, delta));
    if delta < 0 && d.magicAttack < Magnitude(delta) {
      return false;
    }
    d := d.(magicAttack := AddSigned(d.magicAttack, delta));
    var broken := PanelCompare(before.(derived := Some(d)), after, Equal);
    ok := broken == [];
  }

  /** A shift carries an empty difference along. */
  lemma ShiftKeepsNoDiff(a: Panel, b: Panel, delta: Int64)
    requires a.derived.Some? && b.derived.Some? && NoDiff(a, b)
    ensures NoDiff(Shift(a, delta), Shift(b, delta))
  {
    StatsAgree(a, b);
    StatsAgree(Shift(a, delta), Shift(b, delta));
    assert Stats(a)[2] == Stats(b)[2] && Stats(a)[3] == Stats(b)[3];
    assert Stats(Shift(a, delta)) == Stats(a)[2 := AddSigned(Stats(a)[2], delta)][3 := AddSigned(Stats(a)[3], delta)];
    assert Stats(Shift(b, delta)) == Stats(b)[2 := AddSigned(Stats(b)[2], delta)][3 := AddSigned(Stats(b)[3], delta)];
    assert forall i :: 0 <= i < |a.dimensions| ==> DimensionHolds(a.dimensions[i], b, Equal);
    assert forall i :: 0 <= i < |a.combat| ==> CombatHolds(a.combat[i], b, Equal);
  }

  /** Two accepted shifts add up to one by the wrapped sum; no row ids need be distinct. */
  lemma ShiftsCompose(a: Panel, b: Panel, c: Panel, delta: Int64, delta': Int64)
    requires Shifted(a, b, delta) && Shifted(b, c, delta')
    ensures NoDiff(Shift(a, Wrap(delta + delta')), c)
  {
    ShiftKeepsNoDiff(Shift(a, delta), b, delta');
    NoDiffTransitive(Shift(Shift(a, delta), delta'), Shift(b, delta'), c);
    var d := a.derived.value;
    AddSignedTwice(d.physicalAttack, delta, delta');
    AddSignedTwice(d.magicAttack, delta, delta');
    assert Shift(Shift(a, delta), delta') == Shift(a, Wrap(delta + delta'));
  }

  lemma ModCases(x: int)
    requires -TWO_64 <= x < 2 * TWO_64
    ensures x % TWO_64 == if x < 0 then x + TWO_64 else if x < TWO_64 then x else x - TWO_64
  {
  }

  lemma WrapCases(x: int)
    requires -TWO_64 <= x < TWO_64
    ensures Wrap(x) == if x < -TWO_63 then x + TWO_64 else if x < TWO_63 then x else x - TWO_64
  {
    ModCases(x + TWO_63);
  }

  lemma AddSignedTwice(attack: UInt64, delta: Int64, delta': Int64)
    ensures AddSigned(AddSigned(attack, delta), delta') == AddSigned(attack, Wrap(delta + delta'))
  {
    ModCases(attack + delta);
    WrapCases(delta + delta');
    ModCases(AddSigned(attack, delta) + delta');
    ModCases(attack + Wrap(delta + delta'));
  }

  lemma OppositeCancels(delta: Int64)
    ensures Wrap(delta + Wrap(0 - delta)) == 0
  {
    WrapCases(0 - delta);
    WrapCases(delta + Wrap(0 - delta));
  }

  lemma ShiftByZero(panel: Panel)
    requires panel.derived.Some?
    ensures Shift(panel, 0) == panel
  {
    ModCases(panel.derived.value.physicalAttack);
    ModCases(panel.derived.value.magicAttack);
  }

  /** A shift and its opposite leave no difference between the first and the last panel. */
  lemma ShiftAndBack(a: Panel, b: Panel, c: Panel, delta: Int64)
    requires Shifted(a, b, delta) && Shifted(b, c, Wrap(0 - delta))
    ensures NoDiff(a, c)
  {
    ShiftsCompose(a, b, c, delta, Wrap(0 - delta));
    OppositeCancels(delta);
    ShiftByZero(a);
  }

  /** An accepted shift moves both attacks by the delta, as long as they do not overflow, and leaves the
      other statistics alone. */
  lemma ShiftMeans(before: Panel, after: Panel, delta: Int64)
    requires Shifted(before, after, delta)
    ensures var was, now := before.derived.value, after.derived.value;
            && (was.physicalAttack + delta < TWO_64 ==> now.physicalAttack == was.physicalAttack + delta)
            && (was.magicAttack + delta < TWO_64 ==> now.magicAttack == was.magicAttack + delta)
            && now.maxHealth == was.maxHealth && now.maxMana == was.maxMana && now.speed == was.speed && now.defense == was.defense
  {
    var was := before.derived.value;
    StatsAgree(Shift(before, delta), after);
    ModCases(was.physicalAttack + delta);
    ModCases(was.magicAttack + delta);
    assert Stats(Shift(before, delta))[0] == Stats(after)[0] && Stats(Shift(before, delta))[1] == Stats(after)[1]
           && Stats(Shift(before, delta))[2] == Stats(after)[2] && Stats(Shift(before, delta))[3] == Stats(after)[3]
           && Stats(Shift(before, delta))[4] == Stats(after)[4] && Stats(Shift(before, delta))[5] == Stats(after)[5];
  }

  function NotLess(was: nat, now: nat): bool { now >= was }

  /** equipPanelDrops finds nothing: no statistic and, with distinct ids, no combat row of the first panel
      is smaller in the second. */
  lemma NoDropMeans(before: Panel, after: Panel, row: CombatRow, other: CombatRow)
    requires Compares(before, after, NotLess)
    ensures forall i :: 0 <= i < 6 ==> Stats(after)[i] >= Stats(before)[i]
    ensures DistinctKeys(CombatKey, after.combat) && row in before.combat && other in after.combat && row.id == other.id ==>
              other.value >= row.value
  {
    forall i | 0 <= i < 6
      ensures Stats(after)[i] >= Stats(before)[i]
    {
      assert StatHolds(before, after, NotLess, i);
    }
    if DistinctKeys(CombatKey, after.combat) && row in before.combat && other in after.combat && row.id == other.id {
      var i :| 0 <= i < |before.combat| && before.combat[i] == row;
      var j :| 0 <= j < |after.combat| && after.combat[j] == other;
      assert CombatHolds(before.combat[i], after, NotLess);
      LastValueOf(after.combat, j);
    }
  }
}
