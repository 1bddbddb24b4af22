/** How long the login-queue client waits between two requests
    (robot/http_assign_gate.go, heldTokenWait and queuePollInterval).
    Durations are nanoseconds held in an int64, so a large retry_after_ms wraps. */
module QueueWait {
  import opened MachineInts

  const MILLISECOND := 1_000_000
  const SECOND := 1_000_000_000
  const POLL_FLOOR := 2 * SECOND
  const BACKOFF_CAP := 30 * SECOND
  const JITTER_PERCENT := 20

  function Pow2(n: nat): (p: int)
    ensures p >= 1
  {
    if n == 0 then 1 else 2 * Pow2(n - 1)
  }

  /** The waiting floor after `failures` consecutive queue-status failures. */
  function Floor(failures: nat): (f: int)
    ensures POLL_FLOOR <= f <= BACKOFF_CAP
  {
    Min(POLL_FLOOR * Pow2(Max(failures, 1) - 1), BACKOFF_CAP)
  }

  /** Two seconds, doubling with every further failure up to thirty. */
  lemma FloorDoubles(failures: nat)
    ensures Floor(0) == Floor(1) == 2_000_000_000
    ensures failures > 0 ==> Floor(failures + 1) == Min(2 * Floor(failures), 30_000_000_000)
  {
    if failures > 0 {
      assert POLL_FLOOR * Pow2(failures) == 2 * (POLL_FLOOR * Pow2(failures - 1));
    }
  }

  function Base(retryAfterMs: Int64, failures: nat): (b: Int64)
    ensures b >= Floor(failures)
  {
    Max(Wrap(retryAfterMs * MILLISECOND), Floor(failures))
  }

  /** The jitter bound as the machine computes it: the product may wrap. */
  function JitterLimit(base: Int64): int {
    QuotTrunc(Wrap(base * JITTER_PERCENT), 100)
  }

  function Jittered(base: Int64, drawn: Int64): int {
    base + Min(Max(drawn, 0), JitterLimit(base))
  }

  /** Whatever the server and the jitter source answer, the final sum does not wrap
      and the wait never drops below two seconds, although the jitter bound may be negative. */
  lemma JitteredStaysInRange(base: Int64, drawn: Int64)
    requires base >= POLL_FLOOR
    ensures POLL_FLOOR <= Jittered(base, drawn) < TWO_63
  {
    var product := base * JITTER_PERCENT;
    var wrapped := Wrap(product);
    if product < TWO_63 {
      assert wrapped == product;
    } else {
      assert base > 461168601842738789;
      assert wrapped >= -TWO_63;
      if base >= 9131138316486228048 {
        // The top hundredth of the range: ten full turns leave a negative remainder.
        assert (product + TWO_63) / TWO_64 == 10;
      }
    }
  }

  /** The documented range [base, base + 20%] holds for every jitter source exactly when
      the wrapped bound is not negative, and its upper end is reachable exactly when
      base * 20 fits an int64. */
  lemma JitterRange(base: Int64)
    requires base >= POLL_FLOOR
    ensures (forall drawn: Int64 :: base <= Jittered(base, drawn) <= base + base * JITTER_PERCENT / 100)
            <==> JitterLimit(base) >= 0
    ensures (exists drawn: Int64 :: Jittered(base, drawn) == base + base * JITTER_PERCENT / 100)
            <==> base * JITTER_PERCENT < TWO_63
  {
    var product := base * JITTER_PERCENT;
    var limit := JitterLimit(base);
    if product < TWO_63 {
      assert Wrap(product) == product;
      assert limit == product / 100;
      assert Jittered(base, limit) == base + product / 100;
    } else {
      assert Wrap(product) < product;
      assert Wrap(product) <= product - TWO_64;
      assert limit < product / 100;
      forall drawn: Int64
        ensures Jittered(base, drawn) < base + product / 100
      {
        assert Min(Max(drawn, 0), limit) <= limit;
      }
    }
    if limit < 0 {
      assert Jittered(base, 0) < base;
    } else {
      assert limit <= product / 100;
    }
  }

  /** A retry hint of 6*10^11 ms makes the wait shorter than the server asked for. */
  lemma JitterRangeFails()
    ensures Base(600_000_000_000, 0) == 600_000_000_000 * MILLISECOND
    ensures forall drawn: Int64 ::
              Jittered(Base(600_000_000_000, 0), drawn) == Base(600_000_000_000, 0) - 64467440737095516
  {
    var base := 600_000_000_000 * MILLISECOND;
    assert Wrap(base) == base;
    assert Floor(0) == POLL_FLOOR;
    assert Wrap(base * JITTER_PERCENT) == base * JITTER_PERCENT - TWO_64;
  }

  /** heldTokenWait: the floor doubles step by step and stops at the cap. */
  method HeldTokenWait(retryAfterMs: Int64, failures: nat, jitter: Int64 -> Int64) returns (wait: Int64)
    ensures var base := Base(retryAfterMs, failures); wait == Jittered(base, jitter(JitterLimit(base)))
    ensures wait >= POLL_FLOOR
    ensures var base := Base(retryAfterMs, failures);
            base * 20 < TWO_63 ==>
              && base <= wait <= base + base * 20 / 100
              && (0 <= jitter(base * 20 / 100) <= base * 20 / 100 ==> wait == base + jitter(base * 20 / 100))
  {
    var floor := POLL_FLOOR;
    var i := 1;
    while i < failures && floor < BACKOFF_CAP
      invariant 1 <= i
      invariant i <= failures || i == 1
      invariant floor == POLL_FLOOR * Pow2(i - 1)
      invariant POLL_FLOOR <= floor < 2 * BACKOFF_CAP
    {
      floor := floor * 2;
      i := i + 1;
    }
    if i < failures {
      Pow2Monotone(i - 1, failures - 1);
    }
    floor := Min(floor, BACKOFF_CAP);
    assert floor == Floor(failures);
    var base: Int64 := Max(Wrap(retryAfterMs * MILLISECOND), floor);
    var limit := QuotTrunc(Wrap(base * JITTER_PERCENT), 100);
    var drawn := jitter(limit);
    JitteredStaysInRange(base, drawn);
    if base * JITTER_PERCENT < TWO_63 {
      assert Wrap(base * JITTER_PERCENT) == base * JITTER_PERCENT;
    }
    wait := base + Min(Max(drawn, 0), limit);
  }

  lemma {:induction false} Pow2Monotone(m: nat, n: nat)
    requires m <= n
    ensures Pow2(m) <= Pow2(n)
  {
    if m < n {
      Pow2Monotone(m, n - 1);
    }
  }

  /** queuePollInterval: the wait of a client that holds no token. */
  function PollInterval(retryAfterMs: Int64): (wait: Int64)
    ensures wait > 0
  {
    var hinted := Wrap(retryAfterMs * MILLISECOND);
    if hinted <= 0 then 2 * SECOND else hinted
  }

  /** Hints that fit are taken at their word: with a token as the least wait above the floor, without one
      as the wait itself, two seconds standing in for a missing hint. */
  lemma FittingHints(retryAfterMs: Int64, failures: nat)
    requires -TWO_63 <= retryAfterMs * 1_000_000 < TWO_63
    ensures Base(retryAfterMs, failures) == Max(retryAfterMs * 1_000_000, Floor(failures))
    ensures PollInterval(retryAfterMs) == if retryAfterMs > 0 then retryAfterMs * 1_000_000 else 2_000_000_000
  {
  }

  /** Hints whose conversion to nanoseconds wraps to less than a millisecond: 10^6 is 64 * 15625, so the
      wrapped product is 64 times the hint's multiple of 15625 modulo 2^58. */
  predicate Shortened(retryAfterMs: Int64) { 0 < 15625 * retryAfterMs % TWO_58 < 15625 }

  /** Wrapping a multiple of 64 is wrapping its 64th part modulo 2^58. */
  lemma WrapsAsSixtyFourths(x: int)
    ensures var m := x % TWO_58; Wrap(64 * x) == if 64 * m < TWO_63 then 64 * m else 64 * m - TWO_64
  {
    var m, q := x % TWO_58, x / TWO_58;
    assert x == q * TWO_58 + m;
    assert 64 * x == q * TWO_64 + 64 * m;
    if 64 * m < TWO_63 {
      WrapIs(64 * x, 64 * m, q);
    } else {
      WrapIs(64 * x, 64 * m - TWO_64, q + 1);
    }
  }

  lemma WrapIs(x: int, r: Int64, turns: int)
    requires x == r + turns * TWO_64
    ensures Wrap(x) == r
  {
    assert (x + TWO_63) == turns * TWO_64 + (r + TWO_63);
  }

  /** The wait is a multiple of 64 ns, hence never shorter than that.  It is below a millisecond exactly
      for the shortened hints, which all wrap. */
  lemma PollIntervalBound(retryAfterMs: Int64)
    ensures PollInterval(retryAfterMs) % 64 == 0 && PollInterval(retryAfterMs) >= 64
    ensures PollInterval(retryAfterMs) < MILLISECOND <==> Shortened(retryAfterMs)
    ensures Shortened(retryAfterMs) ==> !(-TWO_63 <= retryAfterMs * MILLISECOND < TWO_63)
  {
    var x := 15625 * retryAfterMs;
    assert retryAfterMs * MILLISECOND == 64 * x;
    WrapsAsSixtyFourths(x);
  }

  /** One hint for which a token-free client would wait only 64 ns. */
  lemma PollIntervalFails()
    ensures PollInterval(76480200929599801) == 64 && Shortened(76480200929599801)
  {
    assert Wrap(76480200929599801 * MILLISECOND) == 64;
  }
}
