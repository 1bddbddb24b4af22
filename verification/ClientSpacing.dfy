/** The two client-side throttles driven against the limiter for call sequences of any length
    (robot/equip_smoke_scenario.go:619-627; robot/channel_smoke_scenario.go:499-527). */
module ClientSpacing {
  import opened Keyed
  import opened RateLimit

  const SAME_ID_GAP := 700
  const REQUEST_GAP := 1100

  /** One request: its message id, how long the scenario idles before it, how late the throttle's
      sleep wakes up, and how long after the send the client notes the time. */
  datatype Call = Call(id: nat, idle: nat, late: nat, lag: nat)

  /** equipSmokeSession: the last send time of each message id. */
  class SameIdThrottle {
    var lastSent: map<nat, nat>

    constructor ()
      ensures lastSent == map[]
    {
      lastSent := map[];
    }

    /** throttle: returns the instant at which the request goes out. */
    method Throttle(id: nat, now: nat, late: nat) returns (at: nat)
      modifies this
      ensures at >= now && lastSent == old(lastSent)[id := at]
      ensures id in old(lastSent) ==> at >= old(lastSent)[id] + 700
      ensures at == now || (id in old(lastSent) && at == old(lastSent)[id] + 700 + late)
    {
      at := now;
      if id in lastSent {
        var wait := SAME_ID_GAP - (now - lastSent[id]);
        if wait > 0 {
          at := now + wait + late;
        }
      }
      lastSent := lastSent[id := at];
    }
  }

  /** channelSmokeBot: the last send time of any request; None before the first one. */
  class RequestSpacer {
    var lastRequestAt: Option<nat>

    constructor ()
      ensures lastRequestAt == None
    {
      lastRequestAt := None;
    }

    /** send and call: send notes the time only after the request went out. */
    method Space(now: nat, late: nat, lag: nat) returns (at: nat)
      modifies this
      ensures at >= now && lastRequestAt == Some(at + lag)
      ensures old(lastRequestAt).Some? ==> at >= old(lastRequestAt).value + 1100
      ensures at == now || (old(lastRequestAt).Some? && at == old(lastRequestAt).value + 1100 + late)
    {
      at := now;
      if lastRequestAt.Some? {
        var wait := REQUEST_GAP - (now - lastRequestAt.value);
        if wait > 0 {
          at := now + wait + late;
        }
      }
      lastRequestAt := Some(at + lag);
    }
  }

  // ---- History of one message id ----

  lemma {:induction false} FeedPrefix(update: Update, seconds: seq<nat>, longer: seq<nat>, n: nat)
    requires seconds <= longer && n <= |seconds|
    ensures Feed(update, longer, n) == Feed(update, seconds, n)
  {
    if n > 0 {
      FeedPrefix(update, seconds, longer, n - 1);
    }
  }

  /** What a history leaves in the limiter's buffer. */
  function Left(times: seq<nat>, quota: Quota): seq<nat> { Buffer(Seconds(times), quota, |times|) }

  /** A history the quota can take: spaced and after the epoch. */
  predicate Regular(times: seq<nat>, gap: nat, window: nat) { Spaced(times, gap) && AfterEpoch(times, window) }

  lemma RegularGrows(times: seq<nat>, at: nat, gap: nat, window: nat)
    requires Regular(times, gap, window) && window < at / 1000
    requires times == [] || at >= times[|times| - 1] + gap
    ensures Regular(times + [at], gap, window)
  {
    var longer := times + [at];
    forall i, j | 0 <= i < j < |longer|
      ensures longer[j] >= longer[i] + gap
    {
      if j == |times| && i < |times| - 1 {
        assert times[|times| - 1] >= times[i] + gap;
      }
    }
  }

  /** One more request that keeps the history regular is admitted and updates the buffer. */
  lemma OneMore(times: seq<nat>, at: nat, gap: nat, quota: Quota)
    requires Regular(times + [at], gap, quota.window)
    requires quota.limit > 0 && quota.limit * gap >= 1000 * (quota.window + 1)
    ensures Admits(Left(times, quota), at / 1000, quota)
    ensures Left(times + [at], quota) == Next(Left(times, quota), at / 1000, quota)
  {
    var longer, n := times + [at], |times|;
    var seconds := Seconds(longer);
    SpacedSeconds(longer, gap, quota.limit, quota.window);
    NeverRejected(seconds, quota, quota.limit, n);
    assert Seconds(times) <= seconds;
    FeedPrefix(Limiter(quota), Seconds(times), seconds, n);
  }

  /** A quota that takes a client spaced by `gap`; SpacingIsSharp says it is the only kind. */
  predicate Covers(quota: Quota, gap: nat) { quota.limit > 0 && quota.limit * gap >= 1000 * (quota.window + 1) }

  /** Three requests a second, the default, take both spacings. */
  lemma DefaultCovers()
    ensures Covers(Quota(3, 1), SAME_ID_GAP) && Covers(Quota(3, 1), REQUEST_GAP) && DEFAULT == Quota(3, 1)
  {
  }

  /** A watched history grows by one admitted request. */
  lemma Grows(times: seq<nat>, at: nat, gap: nat, quota: Quota)
    requires Regular(times, gap, quota.window) && Covers(quota, gap) && at >= 1000 * (quota.window + 1)
    requires times == [] || at >= times[|times| - 1] + gap
    ensures Regular(times + [at], gap, quota.window) && Admits(Left(times, quota), at / 1000, quota)
    ensures Left(times + [at], quota) == Next(Left(times, quota), at / 1000, quota)
  {
    RegularGrows(times, at, gap, quota.window);
    OneMore(times, at, gap, quota);
  }

  lemma TwoStampsAtMost(times: seq<nat>, quota: Quota)
    requires Regular(times, REQUEST_GAP, quota.window) && quota.window <= 1 && quota.limit >= 2
    ensures |Left(times, quota)| <= 2
  {
    SpacedSeconds(times, REQUEST_GAP, 2, quota.window);
    BufferStaysLow(Seconds(times), quota, 2, |times|);
  }

  /** The last send of an id is the last time in its history. */
  predicate Remembers(lastSent: map<nat, nat>, id: nat, times: seq<nat>) {
    if times == [] then id !in lastSent else id in lastSent && lastSent[id] == times[|times| - 1]
  }

  /** Replays a call sequence of any length through the per-id throttle.  Whatever message id with a
      covering quota is watched (the default of 3 in 1 s is one), none of its requests is refused. */
  method DriveSameId(session: SameIdThrottle, limiter: MessageLimiter, calls: seq<Call>, start: nat, ghost watch: nat)
    returns (refused: set<nat>)
    requires session.lastSent == map[] && limiter.records == map[]
    requires Covers(limiter.QuotaOf(watch), SAME_ID_GAP) && start >= 1000 * (limiter.QuotaOf(watch).window + 1)
    modifies session, limiter
    ensures watch !in refused
  {
    ghost var quota := limiter.QuotaOf(watch);
    refused := {};
    var now := start;
    ghost var times: seq<nat> := [];
    for k := 0 to |calls|
      invariant watch !in refused && now >= start
      invariant Regular(times, SAME_ID_GAP, quota.window)
      invariant limiter.Stamps(watch) == Left(times, quota)
      invariant Remembers(session.lastSent, watch, times)
    {
      var call := calls[k];
      now := session.Throttle(call.id, now + call.idle, call.late);
      if call.id == watch {
        Grows(times, now, SAME_ID_GAP, quota);
        times := times + [now];
      }
      var ok := limiter.CanSend(call.id, now / 1000);
      if !ok {
        refused := refused + {call.id};
      }
    }
  }

  /** Everything in the history was sent by the noted time. */
  predicate Before(times: seq<nat>, noted: Option<nat>) {
    times != [] ==> noted.Some? && noted.value >= times[|times| - 1]
  }

  /** The same for global spacing; with a window of one second the buffer of the watched id never holds
      more than two stamps. */
  method DriveSpaced(bot: RequestSpacer, limiter: MessageLimiter, calls: seq<Call>, start: nat, ghost watch: nat)
    returns (refused: set<nat>)
    requires bot.lastRequestAt == None && limiter.records == map[]
    requires Covers(limiter.QuotaOf(watch), REQUEST_GAP) && start >= 1000 * (limiter.QuotaOf(watch).window + 1)
    modifies bot, limiter
    ensures watch !in refused
    ensures limiter.QuotaOf(watch).window <= 1 && limiter.QuotaOf(watch).limit >= 2 ==> |limiter.Stamps(watch)| <= 2
  {
    ghost var quota := limiter.QuotaOf(watch);
    refused := {};
    var now := start;
    ghost var times: seq<nat> := [];
    for k := 0 to |calls|
      invariant watch !in refused && now >= start
      invariant Regular(times, REQUEST_GAP, quota.window)
      invariant limiter.Stamps(watch) == Left(times, quota)
      invariant Before(times, bot.lastRequestAt)
    {
      var call := calls[k];
      now := bot.Space(now + call.idle, call.late, call.lag);
      if call.id == watch {
        Grows(times, now, REQUEST_GAP, quota);
        times := times + [now];
      }
      var ok := limiter.CanSend(call.id, now / 1000);
      if !ok {
        refused := refused + {call.id};
      }
    }
    if quota.window <= 1 && quota.limit >= 2 {
      TwoStampsAtMost(times, quota);
    }
  }
}
