/** The gate's per-message limiter (cpp/libs/engine/core/message_limiter/message_limiter.cpp) and
    the client spacing meant to stay below it (robot/equip_smoke_scenario.go:68-75, 619-627;
    robot/channel_smoke_scenario.go:76-78, 502-527).  Client times are milliseconds, limiter
    stamps whole seconds; a request arrives at the instant it is sent. */
module RateLimit {
  import opened MachineInts

  /** Limit and window, in requests and whole seconds. */
  datatype Quota = Quota(limit: nat, window: nat)

  const DEFAULT := Quota(3, 1)

  // ---- One message id ----

  /** uint64 subtraction of two timestamps */
  function Age(now: nat, stamp: nat): int { if now >= stamp then now - stamp else now - stamp + TWO_64 }

  /** The first index at or after i whose stamp is not older than the window. */
  function FirstFresh(stamps: seq<nat>, now: nat, window: nat, i: nat): (k: nat)
    requires i <= |stamps|
    ensures i <= k <= |stamps|
    ensures k < |stamps| ==> Age(now, stamps[k]) <= window
    decreases |stamps| - i
  {
    if i < |stamps| && Age(now, stamps[i]) > window then FirstFresh(stamps, now, window, i + 1) else i
  }

  /** Drops stamps from the front while they are older than the window. */
  function Evict(stamps: seq<nat>, now: nat, window: nat): seq<nat> {
    stamps[FirstFresh(stamps, now, window, 0)..]
  }

  function Zeros(n: nat): (zeros: seq<nat>)
    ensures |zeros| == n && forall i :: 0 <= i < n ==> zeros[i] == 0
  {
    if n == 0 then [] else Zeros(n - 1) + [0]
  }

  /** An untouched buffer starts out filled with zero stamps. */
  function Primed(stamps: seq<nat>, quota: Quota): seq<nat> {
    if stamps == [] then Zeros(quota.limit) else stamps
  }

  function Admits(stamps: seq<nat>, now: nat, quota: Quota): bool {
    |Evict(Primed(stamps, quota), now, quota.window)| < quota.limit
  }

  function Next(stamps: seq<nat>, now: nat, quota: Quota): seq<nat> {
    var kept := Evict(Primed(stamps, quota), now, quota.window);
    if |kept| < quota.limit then kept + [now] else kept
  }

  /** The eviction loop. */
  method DropStale(stamps: seq<nat>, now: nat, window: nat) returns (kept: seq<nat>)
    ensures kept == Evict(stamps, now, window)
  {
    kept := stamps;
    ghost var dropped := 0;
    while kept != [] && Age(now, kept[0]) > window
      invariant dropped <= |stamps| && kept == stamps[dropped..]
      invariant FirstFresh(stamps, now, window, 0) == FirstFresh(stamps, now, window, dropped)
      decreases |kept|
    {
      assert kept[0] == stamps[dropped];
      kept, dropped := kept[1..], dropped + 1;
    }
    assert kept != [] ==> kept[0] == stamps[dropped];
  }

  /** MessageLimiter: one buffer per message id; the table overrides the default quota of an id. */
  class MessageLimiter {
    const default: Quota
    const table: map<nat, Quota>
    var records: map<nat, seq<nat>>

    constructor (default: Quota, table: map<nat, Quota>)
      ensures this.default == default && this.table == table && records == map[]
    {
      this.default, this.table := default, table;
      records := map[];
    }

    function QuotaOf(id: nat): Quota { if id in table then table[id] else default }

    function Stamps(id: nat): seq<nat>
      reads this
    {
      if id in records then records[id] else []
    }

    method CanSend(id: nat, now: nat) returns (ok: bool)
      modifies this
      ensures ok == Admits(old(Stamps(id)), now, QuotaOf(id))
      ensures records == old(records)[id := Next(old(Stamps(id)), now, QuotaOf(id))]
      ensures Stamps(id) == Next(old(Stamps(id)), now, QuotaOf(id))
      ensures forall other :: other != id ==> Stamps(other) == old(Stamps(other))
    {
      var quota := QuotaOf(id);
      var stamps := Stamps(id);
      if stamps == [] {
        stamps := Zeros(quota.limit);
      }
      stamps := DropStale(stamps, now, quota.window);
      ok := |stamps| < quota.limit;
      if ok {
        stamps := stamps + [now];
      }
      records := records[id := stamps];
    }
  }

  // ---- A run of requests with one message id ----

  type Update = (seq<nat>, nat) -> seq<nat>

  /** A buffer fed with the first n arrival seconds. */
  function Feed(update: Update, seconds: seq<nat>, n: nat): seq<nat>
    requires n <= |seconds|
  {
    if n == 0 then [] else update(Feed(update, seconds, n - 1), seconds[n - 1])
  }

  function Limiter(quota: Quota): Update { (stamps: seq<nat>, now: nat) => Next(stamps, now, quota) }

  /** The buffer after the first n requests, which arrive at the given seconds. */
  function Buffer(seconds: seq<nat>, quota: Quota, n: nat): seq<nat>
    requires n <= |seconds|
  {
    Feed(Limiter(quota), seconds, n)
  }

  /** What every update keeps holds of the buffer after any number of requests. */
  lemma {:induction false} FeedKeeps(update: Update, seconds: seq<nat>, kept: (seq<nat>, nat) -> bool, n: nat)
    requires n <= |seconds| && kept([], 0)
    requires forall stamps, k :: 0 <= k < |seconds| && kept(stamps, k) ==> kept(update(stamps, seconds[k]), k + 1)
    ensures kept(Feed(update, seconds, n), n)
  {
    if n > 0 {
      FeedKeeps(update, seconds, kept, n - 1);
    }
  }

  predicate Admitted(seconds: seq<nat>, quota: Quota, n: nat)
    requires n < |seconds|
  {
    Admits(Buffer(seconds, quota, n), seconds[n], quota)
  }

  /** Clock readings late enough after the epoch for zero stamps to be stale. */
  predicate Clocked(seconds: seq<nat>, window: nat) {
    && (forall i :: 0 <= i < |seconds| ==> window < seconds[i])
    && (forall i, j :: 0 <= i <= j < |seconds| ==> seconds[i] <= seconds[j])
  }

  /** Requests at least m steps apart lie more than a window apart. */
  predicate Apart(seconds: seq<nat>, m: nat, window: nat) {
    forall i, j :: 0 <= i && i + m <= j < |seconds| ==> seconds[j] > seconds[i] + window
  }

  /** The buffer is a run of the latest stamps. */
  predicate Latest(stamps: seq<nat>, seconds: seq<nat>, n: nat)
    requires n <= |seconds|
  {
    |stamps| <= n && forall i :: 0 <= i < |stamps| ==> stamps[i] == seconds[n - |stamps| + i]
  }

  lemma {:induction false} AllStale(stamps: seq<nat>, now: nat, window: nat, i: nat)
    requires i <= |stamps| && forall j :: 0 <= j < |stamps| ==> Age(now, stamps[j]) > window
    ensures FirstFresh(stamps, now, window, i) == |stamps|
    decreases |stamps| - i
  {
    if i < |stamps| {
      AllStale(stamps, now, window, i + 1);
    }
  }

  /** The zero stamps of an untouched buffer go at the first request. */
  lemma EvictZeros(now: nat, quota: Quota)
    requires now > quota.window
    ensures Evict(Primed([], quota), now, quota.window) == []
  {
    AllStale(Primed([], quota), now, quota.window, 0);
  }

  /** After eviction fewer than m of the latest stamps are left. */
  lemma EvictLeavesFew(stamps: seq<nat>, seconds: seq<nat>, quota: Quota, m: nat, n: nat)
    requires Clocked(seconds, quota.window) && Apart(seconds, m, quota.window) && m > 0
    requires n < |seconds| && Latest(stamps, seconds, n)
    ensures var kept := Evict(Primed(stamps, quota), seconds[n], quota.window);
            |kept| < m && Latest(kept, seconds, n)
  {
    if stamps == [] {
      EvictZeros(seconds[n], quota);
    } else {
      var k := FirstFresh(stamps, seconds[n], quota.window, 0);
      var i := n - |stamps| + k;
      assert k < |stamps| ==> stamps[k] == seconds[i];
    }
  }

  lemma StepStaysLow(stamps: seq<nat>, seconds: seq<nat>, quota: Quota, m: nat, n: nat)
    requires Clocked(seconds, quota.window) && Apart(seconds, m, quota.window) && 0 < m <= quota.limit
    requires n < |seconds| && Latest(stamps, seconds, n)
    ensures Admits(stamps, seconds[n], quota)
    ensures |Next(stamps, seconds[n], quota)| <= m && Latest(Next(stamps, seconds[n], quota), seconds, n + 1)
  {
    EvictLeavesFew(stamps, seconds, quota, m, n);
    var kept := Evict(Primed(stamps, quota), seconds[n], quota.window);
    assert Next(stamps, seconds[n], quota) == kept + [seconds[n]];
  }

  /** If m steps exceed the window the buffer never holds more than m stamps. */
  lemma BufferStaysLow(seconds: seq<nat>, quota: Quota, m: nat, n: nat)
    requires Clocked(seconds, quota.window) && Apart(seconds, m, quota.window) && 0 < m <= quota.limit
    requires n <= |seconds|
    ensures |Buffer(seconds, quota, n)| <= m && Latest(Buffer(seconds, quota, n), seconds, n)
  {
    var low := (stamps: seq<nat>, k: nat) => k <= |seconds| && |stamps| <= m && Latest(stamps, seconds, k);
    forall stamps, k | 0 <= k < |seconds| && low(stamps, k)
      ensures low(Limiter(quota)(stamps, seconds[k]), k + 1)
    {
      StepStaysLow(stamps, seconds, quota, m, k);
    }
    FeedKeeps(Limiter(quota), seconds, low, n);
  }

  /** Hence a quota of at least m never rejects. */
  lemma NeverRejected(seconds: seq<nat>, quota: Quota, m: nat, n: nat)
    requires Clocked(seconds, quota.window) && Apart(seconds, m, quota.window) && 0 < m <= quota.limit
    requires n < |seconds|
    ensures Admitted(seconds, quota, n)
  {
    BufferStaysLow(seconds, quota, m, n);
    StepStaysLow(Buffer(seconds, quota, n), seconds, quota, m, n);
  }

  /** If the first limit + 1 requests fall within one window the last of them is rejected. */
  lemma {:induction false} BufferFills(seconds: seq<nat>, quota: Quota, n: nat)
    requires Clocked(seconds, quota.window) && quota.limit < |seconds|
    requires seconds[quota.limit] <= seconds[0] + quota.window
    requires n <= quota.limit
    ensures |Buffer(seconds, quota, n)| == n && (n > 0 ==> Buffer(seconds, quota, n)[0] == seconds[0])
    ensures 0 < n == quota.limit ==> !Admitted(seconds, quota, n)
  {
    if n > 0 {
      BufferFills(seconds, quota, n - 1);
      var stamps := Buffer(seconds, quota, n - 1);
      if n == 1 {
        EvictZeros(seconds[0], quota);
      } else {
        assert seconds[n - 1] <= seconds[quota.limit];
      }
      assert seconds[n] <= seconds[quota.limit];
    }
  }

  // ---- A spaced client ----

  /** Send times in milliseconds, at least `gap` apart. */
  predicate Spaced(times: seq<nat>, gap: nat) {
    forall i, j :: 0 <= i < j < |times| ==> times[j] >= times[i] + gap
  }

  /** Later than one window after the epoch, so that zero stamps are stale. */
  predicate AfterEpoch(times: seq<nat>, window: nat) {
    forall i :: 0 <= i < |times| ==> window < times[i] / 1000
  }

  function Seconds(times: seq<nat>): (seconds: seq<nat>)
    ensures |seconds| == |times| && forall i :: 0 <= i < |times| ==> seconds[i] == times[i] / 1000
  {
    seq(|times|, (i: nat) requires i < |times| => times[i] / 1000)
  }

  lemma {:induction false} SpacedApart(times: seq<nat>, gap: nat, i: nat, k: nat)
    requires Spaced(times, gap) && i + k < |times|
    ensures times[i + k] >= times[i] + k * gap
  {
    if k > 0 {
      SpacedApart(times, gap, i, k - 1);
      assert times[i + k] >= times[i + k - 1] + gap;
      assert k * gap == (k - 1) * gap + gap;
    }
  }

  lemma SpacedSeconds(times: seq<nat>, gap: nat, m: nat, window: nat)
    requires Spaced(times, gap) && AfterEpoch(times, window) && m * gap >= 1000 * (window + 1)
    ensures Clocked(Seconds(times), window) && Apart(Seconds(times), m, window)
  {
    var seconds := Seconds(times);
    forall i, j | 0 <= i <= j < |times|
      ensures seconds[i] <= seconds[j]
    {
      SpacedApart(times, gap, i, j - i);
      assert (j - i) * gap >= 0;
    }
    forall i, j | 0 <= i && i + m <= j < |times|
      ensures seconds[j] > seconds[i] + window
    {
      SpacedApart(times, gap, i, m);
      assert seconds[i + m] <= seconds[j];
    }
  }

  /** Requests every `gap` milliseconds, starting on a whole second. */
  function Steady(start: nat, gap: nat, n: nat): (times: seq<nat>)
    ensures |times| == n
    ensures forall i :: 0 <= i < n ==> times[i] == 1000 * start + i * gap
  {
    seq(n, (i: nat) => 1000 * start + i * gap)
  }

  lemma Multiples(gap: nat, i: nat, j: nat)
    requires i <= j
    ensures i * gap <= j * gap && (i + 1) * gap == i * gap + gap
  {
    assert j * gap == i * gap + (j - i) * gap;
  }

  lemma SteadyTooFast(gap: nat, quota: Quota)
    requires quota.limit * gap < 1000 * (quota.window + 1)
    ensures var times := Steady(quota.window + 1, gap, quota.limit + 1);
            && Spaced(times, gap) && AfterEpoch(times, quota.window) && Clocked(Seconds(times), quota.window)
            && Seconds(times)[quota.limit] <= Seconds(times)[0] + quota.window
  {
    var start := quota.window + 1;
    var times := Steady(start, gap, quota.limit + 1);
    forall i | 0 <= i < |times|
      ensures 1000 * start <= times[i] < 2000 * start
    {
      Multiples(gap, 0, i);
      Multiples(gap, i, quota.limit);
    }
    forall i, j | 0 <= i < j < |times|
      ensures times[j] >= times[i] + gap
    {
      Multiples(gap, i + 1, j);
      Multiples(gap, i, j);
    }
  }

  /** The spacing rule is sharp: a quota never rejects a client spaced by `gap`, for any number of
      requests, if and only if limit * gap covers the window plus one second. */
  lemma SpacingIsSharp(gap: nat, quota: Quota)
    requires quota.limit > 0
    ensures (forall times: seq<nat>, n: nat :: Spaced(times, gap) && AfterEpoch(times, quota.window) && n < |times|
                                               ==> Admitted(Seconds(times), quota, n))
            <==> quota.limit * gap >= 1000 * (quota.window + 1)
  {
    if quota.limit * gap >= 1000 * (quota.window + 1) {
      forall times: seq<nat>, n: nat | Spaced(times, gap) && AfterEpoch(times, quota.window) && n < |times|
        ensures Admitted(Seconds(times), quota, n)
      {
        SpacedSeconds(times, gap, quota.limit, quota.window);
        NeverRejected(Seconds(times), quota, quota.limit, n);
      }
    } else {
      SteadyTooFast(gap, quota);
      var times := Steady(quota.window + 1, gap, quota.limit + 1);
      BufferFills(Seconds(times), quota, quota.limit);
    }
  }

  /** The two spacings used: 700 ms per message id is never rejected by the default quota, and with
      1100 ms the buffer never holds more than two stamps. */
  lemma ClientSpacings(times: seq<nat>, n: nat)
    requires n <= |times| && AfterEpoch(times, 1)
    ensures Spaced(times, 700) && n < |times| ==> Admitted(Seconds(times), DEFAULT, n)
    ensures Spaced(times, 1100) ==> |Buffer(Seconds(times), DEFAULT, n)| <= 2
  {
    if Spaced(times, 700) && n < |times| {
      SpacedSeconds(times, 700, 3, 1);
      NeverRejected(Seconds(times), DEFAULT, 3, n);
    }
    if Spaced(times, 1100) {
      SpacedSeconds(times, 1100, 2, 1);
      BufferStaysLow(Seconds(times), DEFAULT, 2, n);
    }
  }
}
