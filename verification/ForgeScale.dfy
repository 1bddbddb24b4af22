/** Saturating permyriad scaling and level loss
    (robot/equip_forge_smoke_scenario.go, equipForgeScale and equipForgeLevelAfterFailure). */
module ForgeScale {
  import opened MachineInts

  const MAX_U64: UInt64 := 0xffff_ffff_ffff_ffff

  /** The unbounded meaning: base plus the permyriad increase rounded down, saturated. */
  function ScaleSpec(base: UInt64, permyriad: UInt32): UInt64 {
    Min(MAX_U64, base + base * permyriad / 10000)
  }

  /** Splitting the base into whole ten-thousands and a rest loses nothing to rounding. */
  lemma SplitProduct(base: nat, bonus: nat)
    ensures base * bonus / 10000 == base / 10000 * bonus + base % 10000 * bonus / 10000
  {
    var whole, rest := base / 10000, base % 10000;
    assert base * bonus == whole * bonus * 10000 + rest * bonus by {
      assert base == whole * 10000 + rest;
      assert (whole * 10000 + rest) * bonus == whole * 10000 * bonus + rest * bonus;
      assert whole * 10000 * bonus == whole * bonus * 10000;
    }
    DivideShifted(whole * bonus, rest * bonus);
  }

  lemma DivideShifted(q: nat, r: nat)
    ensures (q * 10000 + r) / 10000 == q + r / 10000
  {
  }

  /** The machine's overflow guard whole <= MAX / bonus says exactly that the product fits. */
  lemma GuardIsExact(whole: nat, bonus: nat)
    ensures bonus > 0 ==> (whole <= MAX_U64 / bonus <==> whole * bonus <= MAX_U64)
  {
    if bonus > 0 {
      var limit := MAX_U64 / bonus;
      assert limit * bonus <= MAX_U64 < (limit + 1) * bonus by {
        assert MAX_U64 == bonus * limit + MAX_U64 % bonus;
      }
      if whole <= limit {
        MulMonotone(whole, limit, bonus);
      } else {
        MulMonotone(limit + 1, whole, bonus);
      }
    }
  }

  lemma MulMonotone(x: int, y: int, z: nat)
    requires x <= y
    ensures x * z <= y * z
  {
  }

  lemma RestFits(rest: nat, bonus: UInt32)
    requires rest < 10000
    ensures 0 <= rest * bonus <= 9999 * bonus < TWO_64
  {
    MulMonotone(rest, 9999, bonus);
  }

  /** equipForgeScale.  Every intermediate value is declared a UInt64, so none of them wraps,
      and the result refines the unbounded formula for every input. */
  function Scale(base: UInt64, permyriad: UInt32): (scaled: UInt64)
    ensures scaled == ScaleSpec(base, permyriad)
  {
    var bonus: UInt64 := permyriad;
    var whole: UInt64 := base / 10000;
    SplitProduct(base, bonus);
    RestFits(base % 10000, permyriad);
    GuardIsExact(whole, bonus);
    ScaleParts(base, whole, bonus)
  }

  /** The three saturating steps of equipForgeScale after the split. */
  function ScaleParts(base: UInt64, whole: UInt64, bonus: UInt64): (scaled: UInt64)
    requires whole == base / 10000
    requires base % 10000 * bonus < TWO_64
    requires bonus > 0 ==> (whole <= MAX_U64 / bonus <==> whole * bonus <= MAX_U64)
    ensures scaled == Min(MAX_U64, base + (whole * bonus + base % 10000 * bonus / 10000))
  {
    var increase: UInt64 := if bonus == 0 || whole <= MAX_U64 / bonus then whole * bonus else MAX_U64;
    var product: UInt64 := base % 10000 * bonus;
    var part: UInt64 := product / 10000;
    var total: UInt64 := if increase > MAX_U64 - part then MAX_U64 else increase + part;
    if base > MAX_U64 - total then MAX_U64 else base + total
  }

  /** No bonus is strictly the identity; scaling never shrinks and is monotone in both arguments. */
  lemma ScaleLaws(base: UInt64, base': UInt64, permyriad: UInt32, permyriad': UInt32)
    requires base <= base' && permyriad <= permyriad'
    ensures Scale(base, 0) == base
    ensures base <= Scale(base, permyriad) <= Scale(base', permyriad')
  {
    ProductMonotone(base, base', permyriad, permyriad');
    DivideMonotone(base * permyriad, base' * permyriad');
  }

  lemma ProductMonotone(x: nat, x': nat, y: nat, y': nat)
    requires x <= x' && y <= y'
    ensures 0 <= x * y <= x' * y'
  {
    MulMonotone(y, y', x);
    MulMonotone(x, x', y');
  }

  lemma DivideMonotone(x: nat, y: nat)
    requires x <= y
    ensures x / 10000 <= y / 10000
  {
  }

  /** The table value can be read back from a scaled value that did not saturate:
      two different table values never scale to the same one. */
  lemma ScaleInjective(base: UInt64, base': UInt64, permyriad: UInt32)
    requires base < base' && Scale(base', permyriad) < MAX_U64
    ensures Scale(base, permyriad) < Scale(base', permyriad)
  {
    ScaleLaws(base, base', permyriad, permyriad);
    MulMonotone(base, base', permyriad);
    DivideMonotone(base * permyriad, base' * permyriad);
  }

  /** equipForgeLevelAfterFailure */
  function LevelAfterFailure(level: UInt32, loss: UInt32): UInt32 {
    if level > loss then level - loss else 0
  }

  /** A failure costs the loss, or all there is; losses add up. */
  lemma FailureCosts(level: UInt32, loss: UInt32, loss': UInt32)
    ensures LevelAfterFailure(level, loss) == Max(level - loss, 0) == level - Min(level, loss)
    ensures loss + loss' < TWO_32 ==>
              LevelAfterFailure(LevelAfterFailure(level, loss), loss') == LevelAfterFailure(level, loss + loss')
  {
  }

  /** A permyriad is a ten-thousandth, and fractions are cut off. */
  lemma ScaleRoundsDown(base: UInt64, permyriad: UInt32)
    ensures Scale(10000, permyriad) == 10000 + permyriad
    ensures Scale(base, permyriad) < MAX_U64 ==>
              var increase := Scale(base, permyriad) - base;
              increase * 10000 <= base * permyriad < (increase + 1) * 10000
  {
  }
}
