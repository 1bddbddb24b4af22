/** The login-queue client contract (robot/http_assign_gate.go:183-208) as a property of what
    an observer sees: the requests, replies, waits and budget checks of one run, in order.
    Replies are chosen by an arbitrary gateway and times by an arbitrary clock. */
module QueueContract {
  import opened MachineInts
  import opened QueueWait

  /** A decoded gateway reply, or a failed exchange (network error, or not HTTP 200). */
  datatype Reply =
    | Broken
    | Reply(code: int, source: string, token: string, retryAfterMs: Int64)

  /** `at` is the instant the event completed. */
  datatype Event =
    | Assign(token: string, reply: Reply, at: int)
    | Status(token: string, reply: Reply, at: int)
    | Slept(duration: int, passed: bool, at: int)
    | Checked(passed: bool, at: int)
  {
    predicate IsRequest() { Assign? || Status? }

    /** A code-100 "login" reply that carries a token. */
    predicate Grants() {
      IsRequest() && reply.Reply? && reply.code == 100 && reply.source == "login" && reply.token != ""
    }

    predicate Gone() { IsRequest() && reply.Reply? && reply.code == 410 }

    /** queue-status itself failed: network error, not HTTP 200, or code 500. */
    predicate FailedStatus() { Status? && (reply.Broken? || reply.code == 500) }

    predicate Completed() { Slept? && passed }
  }

  type Trace = seq<Event>

  function Front(tr: Trace): Trace
    requires tr != []
  {
    tr[..|tr| - 1]
  }

  function Last(tr: Trace): Event
    requires tr != []
  {
    tr[|tr| - 1]
  }

  // ---- What the client holds and remembers, read off the trace ----

  /** The queue token the client must hold after `tr`, starting from `initial`. */
  function Held(initial: string, tr: Trace): string {
    if tr == [] then initial
    else if Last(tr).Grants() then Last(tr).reply.token
    else if Last(tr).Gone() then ""
    else Held(initial, Front(tr))
  }

  /** Consecutive queue-status failures after `tr`. */
  function Failures(tr: Trace): nat {
    if tr == [] then 0
    else if !Last(tr).Status? then Failures(Front(tr))
    else if Last(tr).FailedStatus() then Failures(Front(tr)) + 1
    else 0
  }

  /** Time reached after `tr`. */
  function Clock(start: int, tr: Trace): int {
    if tr == [] then start else Last(tr).at
  }

  // ---- The contract ----

  /** `duration` is what a client in state `tr` may wait before its next request. */
  ghost predicate WaitDue(initial: string, tr: Trace, duration: int)
    requires tr != [] && Last(tr).IsRequest() && Last(tr).reply.Reply?
  {
    var reply := Last(tr).reply;
    if Held(initial, tr) == "" then
      reply.code == 100 && duration == PollInterval(reply.retryAfterMs)
    else
      && (reply.code == 100 || reply.code == 429)
      && exists drawn: Int64 :: duration == Jittered(Base(reply.retryAfterMs, Failures(tr)), drawn)
  }

  /** Event `e` is one the contract allows next after `tr`. */
  ghost predicate Allowed(initial: string, tr: Trace, e: Event) {
    match e
    case Assign(token, _, _) =>
      // first call; re-entry or token-free restart right after a passed check; or a token-free retry
      && token == Held(initial, tr)
      && (tr == [] || (Last(tr).Checked? && Last(tr).passed) || (Last(tr).Completed() && token == ""))
    case Status(token, _, _) =>
      tr != [] && Last(tr).Completed() && token == Held(initial, tr) && token != ""
    case Checked(_, _) =>
      tr != [] && (Last(tr).FailedStatus() || (Last(tr).Gone() && Held(initial, Front(tr)) != ""))
    case Slept(duration, _, _) =>
      tr != [] && Last(tr).IsRequest() && Last(tr).reply.Reply? && WaitDue(initial, tr, duration)
  }

  /** Time only moves forward; a wait takes its full duration, and a wait or check passes
      only before the deadline. */
  predicate InTime(start: int, deadline: int, tr: Trace, e: Event) {
    && e.at >= Clock(start, tr)
    && (e.Slept? && e.passed ==> e.at >= Clock(start, tr) + e.duration)
    && ((e.Slept? || e.Checked?) && e.passed ==> e.at < deadline)
  }

  ghost predicate Conforms(initial: string, start: int, deadline: int, tr: Trace) {
    tr != [] ==>
      && Conforms(initial, start, deadline, Front(tr))
      && Allowed(initial, Front(tr), Last(tr))
      && InTime(start, deadline, Front(tr), Last(tr))
  }

  lemma ConformsExtends(initial: string, start: int, deadline: int, tr: Trace, e: Event)
    requires Conforms(initial, start, deadline, tr)
    requires Allowed(initial, tr, e) && InTime(start, deadline, tr, e)
    ensures Conforms(initial, start, deadline, tr + [e])
  {
    assert Front(tr + [e]) == tr;
  }

  lemma {:induction false} ConformsPrefix(initial: string, start: int, deadline: int, tr: Trace, i: nat)
    requires Conforms(initial, start, deadline, tr) && i < |tr|
    ensures Conforms(initial, start, deadline, tr[..i])
    ensures Allowed(initial, tr[..i], tr[i]) && InTime(start, deadline, tr[..i], tr[i])
  {
    if i < |tr| - 1 {
      ConformsPrefix(initial, start, deadline, Front(tr), i);
      assert Front(tr)[..i] == tr[..i];
    }
  }

  // ---- Safety over every conforming run ----

  ghost predicate Quiet(tr: Trace, from: nat) {
    forall k :: from <= k < |tr| ==> !tr[k].Grants() && !tr[k].Gone()
  }

  /** The held token is the latest one granted since the last 410, or the initial one. */
  lemma {:induction false} HeldIsLatestGrant(initial: string, tr: Trace)
    ensures Held(initial, tr) != "" ==>
              || (Held(initial, tr) == initial && Quiet(tr, 0))
              || (exists j :: 0 <= j < |tr| && tr[j].Grants() && tr[j].reply.token == Held(initial, tr) && Quiet(tr, j + 1))
    ensures Held(initial, tr) == "" ==>
              || (initial == "" && Quiet(tr, 0))
              || (exists j :: 0 <= j < |tr| && tr[j].Gone() && Quiet(tr, j + 1))
  {
    if tr != [] {
      var n := |tr| - 1;
      if tr[n].Grants() || tr[n].Gone() {
        assert Quiet(tr, n + 1);
      } else {
        var front := Front(tr);
        HeldIsLatestGrant(initial, front);
        assert forall from :: Quiet(front, from) && 0 <= from ==> Quiet(tr, from);
        if Quiet(front, 0) && Held(initial, front) == initial {
        } else if Held(initial, front) != "" {
          var j :| 0 <= j < |front| && front[j].Grants() && front[j].reply.token == Held(initial, front) && Quiet(front, j + 1);
          assert tr[j] == front[j];
        } else {
          var j :| 0 <= j < |front| && front[j].Gone() && Quiet(front, j + 1);
          assert tr[j] == front[j];
        }
      }
    }
  }

  /** Only a "login" reply with code 100 and a token changes the token in hand, and only code 410 drops it. */
  lemma TokenChanges(initial: string, tr: Trace, e: Event)
    ensures var held, now := Held(initial, tr), Held(initial, tr + [e]);
            now != held ==>
              && e.IsRequest() && e.reply.Reply?
              && ((now == "" && e.reply.code == 410)
                  || (now == e.reply.token != "" && e.reply.code == 100 && e.reply.source == "login"))
    ensures e.IsRequest() && e.reply.Reply? && e.reply.code == 410 ==> Held(initial, tr + [e]) == ""
    ensures e.IsRequest() && e.reply.Reply? && e.reply.code == 100 && e.reply.source == "login" && e.reply.token != "" ==>
              Held(initial, tr + [e]) == e.reply.token
  {
    assert Front(tr + [e]) == tr && Last(tr + [e]) == e;
  }

  /** Outcomes of the queue-status calls in `tr`: true = failed. */
  function StatusOutcomes(tr: Trace): seq<bool> {
    if tr == [] then []
    else if Last(tr).Status? then StatusOutcomes(Front(tr)) + [Last(tr).FailedStatus()]
    else StatusOutcomes(Front(tr))
  }

  /** The failure counter is the length of the current trailing run of failed queue-status calls. */
  lemma {:induction false} FailuresIsTrailingRun(tr: Trace)
    ensures var outcomes := StatusOutcomes(tr); var n := Failures(tr);
            && n <= |outcomes|
            && (forall k :: |outcomes| - n <= k < |outcomes| ==> outcomes[k])
            && (n < |outcomes| ==> !outcomes[|outcomes| - n - 1])
  {
    if tr != [] {
      FailuresIsTrailingRun(Front(tr));
    }
  }

  /** Queue-status always carries the non-empty held token; every request but the first comes
      directly after a wait or check that passed before the deadline. */
  lemma RequestsAreGuarded(initial: string, start: int, deadline: int, tr: Trace, i: nat)
    requires Conforms(initial, start, deadline, tr) && i < |tr| && tr[i].IsRequest()
    ensures tr[i].token == Held(initial, tr[..i])
    ensures tr[i].Status? ==> tr[i].token != ""
    ensures i > 0 ==> (tr[i - 1].Slept? || tr[i - 1].Checked?) && tr[i - 1].passed && tr[i - 1].at < deadline
  {
    ConformsPrefix(initial, start, deadline, tr, i);
    if i > 0 {
      ConformsPrefix(initial, start, deadline, tr, i - 1);
      assert Last(tr[..i]) == tr[i - 1];
    }
  }

  // ---- Bounded work ----

  /** Requests since the last wait. */
  function Burst(tr: Trace): nat {
    if tr == [] || Last(tr).Slept? then 0
    else Burst(Front(tr)) + if Last(tr).IsRequest() then 1 else 0
  }

  /** At most three requests are sent without a wait in between: a failing queue-status, a
      re-entry that answers 410, and the token-free restart. */
  lemma {:induction false} BurstBound(initial: string, start: int, deadline: int, tr: Trace)
    requires Conforms(initial, start, deadline, tr)
    ensures Burst(tr) <= 3
    ensures tr != [] && Last(tr).Status? ==> Burst(tr) == 1
    ensures tr != [] && Last(tr).Assign? && Last(tr).token != "" ==> Burst(tr) <= 2
    ensures tr != [] && Last(tr).Checked? ==> Burst(tr) <= 2
    ensures tr != [] && Last(tr).Checked? && Held(initial, tr) != "" ==> Burst(tr) == 1
    ensures tr != [] && Last(tr).Assign? && |tr| > 1 && Last(Front(tr)).Slept? ==> Burst(tr) == 1
  {
    if tr != [] {
      BurstBound(initial, start, deadline, Front(tr));
      if Last(tr).Checked? {
        var before := Front(tr);
        if Last(before).Assign? {
          assert Last(before).token == Held(initial, Front(before));
        }
      }
    }
  }

  function Requests(tr: Trace): nat {
    if tr == [] then 0 else Requests(Front(tr)) + if Last(tr).IsRequest() then 1 else 0
  }

  /** Completed waits while holding a token, and while holding none. */
  function Waits(initial: string, tr: Trace, holding: bool): nat {
    if tr == [] then 0
    else Waits(initial, Front(tr), holding)
         + if Last(tr).Completed() && (Held(initial, Front(tr)) != "") == holding then 1 else 0
  }

  ghost predicate FreeWaitsAtLeast(initial: string, tr: Trace, least: nat) {
    forall i :: 0 <= i < |tr| && tr[i].Completed() && Held(initial, tr[..i]) == "" ==> tr[i].duration >= least
  }

  /** Time that waits of both kinds take at least. */
  function Spent(holding: nat, free: nat, least: nat): int { POLL_FLOOR * holding + least * free }

  lemma SpentGrows(holding: nat, free: nat, least: nat)
    ensures Spent(holding + 1, free, least) == Spent(holding, free, least) + POLL_FLOOR
    ensures Spent(holding, free + 1, least) == Spent(holding, free, least) + least
  {
    assert least * (free + 1) == least * free + least;
  }

  lemma FreeWaitsPrefix(initial: string, tr: Trace, least: nat)
    requires tr != [] && FreeWaitsAtLeast(initial, tr, least)
    ensures FreeWaitsAtLeast(initial, Front(tr), least)
  {
    var front := Front(tr);
    assert forall i :: 0 <= i < |front| ==> front[..i] == tr[..i] && front[i] == tr[i];
  }

  lemma WaitTakes(initial: string, tr: Trace, e: Event, least: nat)
    requires Allowed(initial, tr, e) && e.Completed() && FreeWaitsAtLeast(initial, tr + [e], least)
    ensures e.duration >= if Held(initial, tr) != "" then POLL_FLOOR else least
  {
    if Held(initial, tr) != "" {
      var reply := Last(tr).reply;
      var drawn: Int64 :| e.duration == Jittered(Base(reply.retryAfterMs, Failures(tr)), drawn);
      JitteredStaysInRange(Base(reply.retryAfterMs, Failures(tr)), drawn);
    } else {
      assert (tr + [e])[..|tr|] == tr && (tr + [e])[|tr|] == e;
    }
  }

  /** Waits with a token take at least two seconds, so the budget bounds how many complete. */
  lemma {:induction false} WaitsFitBudget(initial: string, start: int, deadline: int, tr: Trace, least: nat)
    requires Conforms(initial, start, deadline, tr) && FreeWaitsAtLeast(initial, tr, least)
    ensures Spent(Waits(initial, tr, true), Waits(initial, tr, false), least) <= Clock(start, tr) - start
  {
    if tr != [] {
      var front, e := Front(tr), Last(tr);
      assert tr == front + [e];
      FreeWaitsPrefix(initial, tr, least);
      WaitsFitBudget(initial, start, deadline, front, least);
      if e.Completed() {
        WaitTakes(initial, front, e, least);
        SpentGrows(Waits(initial, front, true), Waits(initial, front, false), least);
      }
    }
  }

  /** Each completed wait lets at most three requests out with a token, one without; two are
      possible before the first wait. */
  lemma {:induction false} RequestsPerWait(initial: string, start: int, deadline: int, tr: Trace)
    requires Conforms(initial, start, deadline, tr)
    ensures Requests(tr) + Allowance(initial, tr) <= 2 + 3 * Waits(initial, tr, true) + Waits(initial, tr, false)
  {
    if tr != [] {
      var front := Front(tr);
      RequestsPerWait(initial, start, deadline, front);
      match Last(tr)
      case Slept(_, _, _) =>
        assert Allowance(initial, front) >= 0 && Held(initial, tr) == Held(initial, front);
      case Checked(_, _) =>
        assert Held(initial, tr) == Held(initial, front);
        assert Allowance(initial, tr) <= Allowance(initial, front);
      case Status(_, _, _) =>
        assert Allowance(initial, front) == 3;
      case Assign(_, _, _) =>
        assert Allowance(initial, tr) + 1 <= Allowance(initial, front);
    }
  }

  /** Requests the contract may still let out before the next wait. */
  function Allowance(initial: string, tr: Trace): nat {
    if tr == [] then 2
    else if Last(tr).Slept? then (if !Last(tr).passed then 0 else if Held(initial, tr) != "" then 3 else 1)
    else if Last(tr).Checked? then (if Held(initial, tr) != "" then 2 else 1)
    else if Last(tr).FailedStatus() then 2
    else if Last(tr).Gone() && Held(initial, Front(tr)) != "" then 1
    else 0
  }

  /** Where the last wait or check of a run happened, the clock had not passed the deadline. */
  lemma {:induction false} CompletedWaitsBeforeDeadline(
    initial: string, start: int, deadline: int, tr: Trace, least: nat)
    requires Conforms(initial, start, deadline, tr) && FreeWaitsAtLeast(initial, tr, least)
    ensures Spent(Waits(initial, tr, true), Waits(initial, tr, false), least) <= Max(deadline - start, 0)
  {
    if tr != [] {
      var front := Front(tr);
      if Last(tr).Completed() {
        WaitsFitBudget(initial, start, deadline, tr, least);
      } else {
        assert forall i :: 0 <= i < |front| ==> front[..i] == tr[..i] && front[i] == tr[i];
        CompletedWaitsBeforeDeadline(initial, start, deadline, front, least);
      }
    }
  }

  lemma FreeWaitsTake64ns(initial: string, start: int, deadline: int, tr: Trace)
    requires Conforms(initial, start, deadline, tr)
    ensures FreeWaitsAtLeast(initial, tr, 64)
  {
    forall i | 0 <= i < |tr| && tr[i].Completed() && Held(initial, tr[..i]) == ""
      ensures tr[i].duration >= 64
    {
      ConformsPrefix(initial, start, deadline, tr, i);
      PollIntervalBound(Last(tr[..i]).reply.retryAfterMs);
    }
  }

  /** No retry_after_ms of the run is one that wraps to less than a millisecond. */
  ghost predicate NoneShortened(tr: Trace) {
    forall i :: 0 <= i < |tr| && tr[i].IsRequest() && tr[i].reply.Reply? ==> !Shortened(tr[i].reply.retryAfterMs)
  }

  lemma FreeWaitsTakeMillisecond(initial: string, start: int, deadline: int, tr: Trace)
    requires Conforms(initial, start, deadline, tr) && NoneShortened(tr)
    ensures FreeWaitsAtLeast(initial, tr, MILLISECOND)
  {
    forall i | 0 <= i < |tr| && tr[i].Completed() && Held(initial, tr[..i]) == ""
      ensures tr[i].duration >= MILLISECOND
    {
      ConformsPrefix(initial, start, deadline, tr, i);
      assert Last(tr[..i]) == tr[i - 1];
      PollIntervalBound(tr[i - 1].reply.retryAfterMs);
    }
  }

  lemma WaitsFit(holding: nat, free: nat, least: nat, budget: nat)
    requires Spent(holding, free, least) <= budget && least > 0
    ensures holding <= budget / POLL_FLOOR && free <= budget / least
  {
    CountFits(holding, POLL_FLOOR, budget);
    CountFits(free, least, budget);
  }

  lemma CountFits(count: nat, unit: nat, budget: nat)
    requires unit > 0 && unit * count <= budget
    ensures count <= budget / unit
  {
    var q := budget / unit;
    assert budget < unit * (q + 1);
    TimesMonotone(q + 1, count, unit);
  }

  lemma TimesMonotone(x: nat, y: nat, unit: nat)
    ensures x <= y ==> unit * x <= unit * y
  {
    if x <= y {
      assert unit * y == unit * x + unit * (y - x);
    }
  }

  /** Whatever the gateway answers, the number of requests is bounded by the budget. */
  lemma RequestsFitBudget(initial: string, start: int, deadline: int, tr: Trace)
    requires Conforms(initial, start, deadline, tr)
    ensures var budget := Max(deadline - start, 0);
            && Requests(tr) <= 2 + 3 * (budget / POLL_FLOOR) + budget / 64
            && (NoneShortened(tr) ==> Requests(tr) <= 2 + 3 * (budget / POLL_FLOOR) + budget / MILLISECOND)
  {
    var budget := Max(deadline - start, 0);
    RequestsPerWait(initial, start, deadline, tr);
    FreeWaitsTake64ns(initial, start, deadline, tr);
    CompletedWaitsBeforeDeadline(initial, start, deadline, tr, 64);
    WaitsFit(Waits(initial, tr, true), Waits(initial, tr, false), 64, budget);
    if NoneShortened(tr) {
      FreeWaitsTakeMillisecond(initial, start, deadline, tr);
      CompletedWaitsBeforeDeadline(initial, start, deadline, tr, MILLISECOND);
      WaitsFit(Waits(initial, tr, true), Waits(initial, tr, false), MILLISECOND, budget);
    }
  }
}
