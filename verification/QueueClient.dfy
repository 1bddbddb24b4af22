/** The login-queue state machine (robot/http_assign_gate.go, AssignGateWithQueue and
    pollQueueStatus), run against an arbitrary gateway and clock and proved to keep the
    contract of QueueContract. */
module QueueClient {
  import opened MachineInts
  import opened Keyed
  import opened QueueWait
  import opened QueueContract

  /** httpAssignGateRequest, of which only the queue token changes. */
  class AssignRequest {
    var queueToken: string

    constructor (token: string)
      ensures queueToken == token
    {
      queueToken := token;
    }
  }

  /** What the gateway, the network and the clock do: every reply, how long each exchange takes and how
      late each timer fires, by position in the run, and the queue budget. */
  datatype World = World(replies: nat -> Reply, latency: nat -> nat, lateness: nat -> nat, start: int, deadline: int)

  /** Both gateway endpoints, the queue budget and the clock of one run. */
  class Environment {
    const world: World
    var now: int
    var trace: Trace

    constructor (world: World)
      ensures this.world == world && now == world.start && trace == []
    {
      this.world := world;
      now, trace := world.start, [];
    }

    method AssignGate(token: string) returns (reply: Reply)
      modifies this
      ensures reply == world.replies(|old(trace)|) && now == old(now) + world.latency(|old(trace)|)
      ensures trace == old(trace) + [Assign(token, reply, now)]
    {
      reply := world.replies(|trace|);
      now := now + world.latency(|trace|);
      trace := trace + [Assign(token, reply, now)];
    }

    method QueueStatus(token: string) returns (reply: Reply)
      modifies this
      ensures reply == world.replies(|old(trace)|) && now == old(now) + world.latency(|old(trace)|)
      ensures trace == old(trace) + [Status(token, reply, now)]
    {
      reply := world.replies(|trace|);
      now := now + world.latency(|trace|);
      trace := trace + [Status(token, reply, now)];
    }

    /** sleepCtx: passes exactly if the timer fires before the budget runs out. */
    method Sleep(duration: int) returns (passed: bool)
      requires duration > 0
      modifies this
      ensures trace == old(trace) + [Slept(duration, passed, now)]
      ensures passed <==> old(now) + duration + world.lateness(|old(trace)|) < world.deadline
      ensures now == if passed then old(now) + duration + world.lateness(|old(trace)|) else Max(old(now), world.deadline)
    {
      var wake := now + duration + world.lateness(|trace|);
      passed := wake < world.deadline;
      now := if passed then wake else Max(now, world.deadline);
      trace := trace + [Slept(duration, passed, now)];
    }

    /** ctx.Err() == nil */
    method BudgetLeft() returns (passed: bool)
      modifies this
      ensures now == old(now) && trace == old(trace) + [Checked(passed, now)]
      ensures passed <==> now < world.deadline
    {
      passed := now < world.deadline;
      trace := trace + [Checked(passed, now)];
    }
  }

  datatype Outcome =
    | Admitted(reply: Reply)
    | BudgetExceeded
    | ExchangeFailed
    | RateLimited
    | UnexpectedCode(code: int)

  /** What a finished run must report, read off its last event. */
  function Verdict(last: Event): Outcome {
    if !last.IsRequest() then BudgetExceeded
    else if last.reply.Broken? then ExchangeFailed
    else if last.reply.code == 0 then Admitted(last.reply)
    else if last.reply.code == 429 then RateLimited
    else UnexpectedCode(last.reply.code)
  }

  /** A run stops only for one of the reasons the contract names. */
  ghost predicate MayStop(initial: string, tr: Trace)
    requires tr != []
  {
    var last := Last(tr);
    if !last.IsRequest() then !last.passed
    else if last.reply.Broken? then last.Assign?
    else if last.reply.code == 100 then false
    else if last.reply.code == 429 || last.reply.code == 410 then Held(initial, Front(tr)) == ""
    else last.Status? ==> last.reply.code != 500
  }

  // ---- Runs in a given world ----

  /** Event `e` after `tr` is what the world and the jitter source make of it. */
  ghost predicate Happens(world: World, jitter: Int64 -> Int64, initial: string, tr: Trace, e: Event) {
    var clock := Clock(world.start, tr);
    match e
    case Assign(_, reply, at) => reply == world.replies(|tr|) && at == clock + world.latency(|tr|)
    case Status(_, reply, at) => reply == world.replies(|tr|) && at == clock + world.latency(|tr|)
    case Slept(duration, passed, at) =>
      var wake := clock + duration + world.lateness(|tr|);
      && (passed <==> wake < world.deadline) && at == (if passed then wake else Max(clock, world.deadline))
      && (tr != [] && Last(tr).IsRequest() && Last(tr).reply.Reply? && Held(initial, tr) != "" ==>
            var base := Base(Last(tr).reply.retryAfterMs, Failures(tr));
            duration == Jittered(base, jitter(JitterLimit(base))))
    case Checked(passed, at) => at == clock && (passed <==> at < world.deadline)
  }

  /** `tr` keeps the contract, and every event of it is what the world makes of it. */
  ghost predicate Runs(world: World, jitter: Int64 -> Int64, initial: string, tr: Trace) {
    && Conforms(initial, world.start, world.deadline, tr)
    && forall i :: 0 <= i < |tr| ==> Happens(world, jitter, initial, tr[..i], tr[i])
  }

  lemma RunsExtend(world: World, jitter: Int64 -> Int64, initial: string, tr: Trace, e: Event)
    requires Runs(world, jitter, initial, tr) && Allowed(initial, tr, e) && InTime(world.start, world.deadline, tr, e)
    requires Happens(world, jitter, initial, tr, e)
    ensures Runs(world, jitter, initial, tr + [e]) && Front(tr + [e]) == tr && Last(tr + [e]) == e
  {
    var longer := tr + [e];
    ConformsExtends(initial, world.start, world.deadline, tr, e);
    forall i | 0 <= i < |longer|
      ensures Happens(world, jitter, initial, longer[..i], longer[i])
    {
      if i < |tr| {
        assert longer[..i] == tr[..i];
      } else {
        assert longer[..i] == tr;
      }
    }
  }

  /** The contract leaves no choice: what comes next is determined by what came before. */
  lemma NextIsDetermined(world: World, jitter: Int64 -> Int64, initial: string, tr: Trace, e: Event, e': Event)
    requires Allowed(initial, tr, e) && Happens(world, jitter, initial, tr, e)
    requires Allowed(initial, tr, e') && Happens(world, jitter, initial, tr, e')
    ensures e == e'
  {
  }

  /** Where a run may stop it cannot go on. */
  lemma StopsOrGoesOn(initial: string, tr: Trace, e: Event)
    requires tr != [] && MayStop(initial, tr)
    ensures !Allowed(initial, tr, e)
  {
  }

  lemma RunsAgreeAt(world: World, jitter: Int64 -> Int64, initial: string, a: Trace, b: Trace, i: nat)
    requires Runs(world, jitter, initial, a) && Runs(world, jitter, initial, b) && i < |a| && i < |b| && a[..i] == b[..i]
    ensures a[i] == b[i]
  {
    ConformsPrefix(initial, world.start, world.deadline, a, i);
    ConformsPrefix(initial, world.start, world.deadline, b, i);
    NextIsDetermined(world, jitter, initial, a[..i], a[i], b[i]);
  }

  lemma RunsAgree(world: World, jitter: Int64 -> Int64, initial: string, a: Trace, b: Trace, n: nat)
    requires Runs(world, jitter, initial, a) && Runs(world, jitter, initial, b) && n <= |a| && n <= |b|
    ensures a[..n] == b[..n]
  {
    forall i | 0 <= i < n && a[..i] == b[..i]
      ensures a[i] == b[i]
    {
      RunsAgreeAt(world, jitter, initial, a, b, i);
    }
    AgreeStepByStep(a, b, n);
  }

  lemma NoLonger(world: World, jitter: Int64 -> Int64, initial: string, a: Trace, b: Trace)
    requires Runs(world, jitter, initial, a) && a != [] && MayStop(initial, a) && Runs(world, jitter, initial, b)
    ensures |b| <= |a|
  {
    if |a| < |b| {
      RunsAgree(world, jitter, initial, a, b, |a|);
      assert a[..|a|] == a;
      ConformsPrefix(initial, world.start, world.deadline, b, |a|);
      StopsOrGoesOn(initial, a, b[|a|]);
    }
  }

  /** Hence a world has one finished run: any client that keeps the contract sends the same requests at
      the same instants and reports the same. */
  lemma RunIsDetermined(world: World, jitter: Int64 -> Int64, initial: string, a: Trace, b: Trace)
    requires Runs(world, jitter, initial, a) && a != [] && MayStop(initial, a)
    requires Runs(world, jitter, initial, b) && b != [] && MayStop(initial, b)
    ensures a == b
  {
    NoLonger(world, jitter, initial, a, b);
    NoLonger(world, jitter, initial, b, a);
    RunsAgree(world, jitter, initial, a, b, |a|);
    assert a[..|a|] == a && b[..|b|] == b;
  }

  /** What the verdict of a finished run says about its last reply: only code 0 admits, 429 and 410 end a
      run only when no token is held, and a failing queue-status never does. */
  lemma VerdictMeans(initial: string, start: int, deadline: int, tr: Trace)
    requires Conforms(initial, start, deadline, tr) && tr != [] && MayStop(initial, tr)
    ensures var last := Last(tr);
            match Verdict(last)
            case Admitted(reply) => last.IsRequest() && last.reply == reply && reply.Reply? && reply.code == 0
            case BudgetExceeded => (last.Slept? || last.Checked?) && !last.passed
            case ExchangeFailed => last.Assign? && last.reply == Broken
            case RateLimited => last.Assign? && last.token == "" && last.reply.Reply? && last.reply.code == 429
            case UnexpectedCode(code) =>
              && last.IsRequest() && last.reply.Reply? && last.reply.code == code
              && code != 0 && code != 100 && code != 429 && (code == 410 ==> last.Assign? && last.token == "")
              && (code == 500 ==> last.Assign?)
  {
    assert Allowed(initial, Front(tr), Last(tr));
  }

  /** In every run, a wait with a token in hand is the base plus what the jitter source draws, if the base
      times twenty fits and the draw is within a fifth of it. */
  lemma HeldWaitMeans(world: World, jitter: Int64 -> Int64, initial: string, tr: Trace, i: nat)
    requires Runs(world, jitter, initial, tr) && 0 < i < |tr| && tr[i].Slept? && Held(initial, tr[..i]) != ""
    ensures tr[i - 1].IsRequest() && tr[i - 1].reply.Reply?
    ensures var base := Base(tr[i - 1].reply.retryAfterMs, Failures(tr[..i]));
            base * 20 < TWO_63 && 0 <= jitter(base * 20 / 100) <= base * 20 / 100 ==>
              tr[i].duration == base + jitter(base * 20 / 100)
  {
    ConformsPrefix(initial, world.start, world.deadline, tr, i);
    assert Last(tr[..i]) == tr[i - 1];
    assert Happens(world, jitter, initial, tr[..i], tr[i]);
  }

  /** A run that ends out of budget had reached the deadline, or its last wait could not end before. */
  lemma OutOfBudgetIsReal(world: World, jitter: Int64 -> Int64, initial: string, tr: Trace)
    requires Runs(world, jitter, initial, tr) && tr != [] && !Last(tr).IsRequest() && !Last(tr).passed
    ensures Last(tr).at >= world.deadline
    ensures Last(tr).Slept? ==>
              Clock(world.start, Front(tr)) + Last(tr).duration + world.lateness(|tr| - 1) >= world.deadline
  {
    assert Happens(world, jitter, initial, tr[..|tr| - 1], tr[|tr| - 1]);
  }

  /** What one round of requests hands back to the state machine. */
  datatype Polled = Next(reply: Reply) | OutOfBudget | Failed

  /** The run so far keeps the contract and its last event is what `polled` reports. */
  ghost predicate Reports(jitter: Int64 -> Int64, initial: string, env: Environment, polled: Polled)
    reads env
  {
    && env.trace != [] && Runs(env.world, jitter, initial, env.trace)
    && env.now == Last(env.trace).at
    && match polled
       case Next(reply) =>
         Last(env.trace).IsRequest() && !Last(env.trace).FailedStatus() && reply == Last(env.trace).reply && reply.Reply?
       case OutOfBudget => !Last(env.trace).IsRequest() && !Last(env.trace).passed
       case Failed => Last(env.trace).Assign? && Last(env.trace).reply.Broken?
  }

  /** One assign-gate call at a point where the contract allows it. */
  method Call(env: Environment, token: string, ghost jitter: Int64 -> Int64, ghost initial: string) returns (polled: Polled)
    requires Runs(env.world, jitter, initial, env.trace) && env.now == Clock(env.world.start, env.trace)
    requires token == Held(initial, env.trace)
    requires env.trace == [] || (Last(env.trace).Checked? && Last(env.trace).passed) || (Last(env.trace).Completed() && token == "")
    modifies env
    ensures Reports(jitter, initial, env, polled) && !polled.OutOfBudget?
    ensures Front(env.trace) == old(env.trace) && Last(env.trace).Assign? && env.now >= old(env.now)
  {
    ghost var before := env.trace;
    var reply := env.AssignGate(token);
    RunsExtend(env.world, jitter, initial, before, Last(env.trace));
    polled := if reply.Broken? then Failed else Next(reply);
  }

  /** An assign-gate call without a wait: the budget is checked first. */
  method CheckedCall(env: Environment, token: string, ghost jitter: Int64 -> Int64, ghost initial: string) returns (polled: Polled)
    requires Runs(env.world, jitter, initial, env.trace) && env.now == Clock(env.world.start, env.trace)
    requires env.trace != [] && token == Held(initial, env.trace)
    requires Last(env.trace).FailedStatus() || (Last(env.trace).Gone() && Held(initial, Front(env.trace)) != "")
    modifies env
    ensures Reports(jitter, initial, env, polled) && env.now >= old(env.now)
    ensures token == Held(initial, Front(env.trace))
    ensures polled.OutOfBudget? ==> token == Held(initial, env.trace)
    ensures Failures(env.trace) == Failures(old(env.trace))
  {
    ghost var before := env.trace;
    var left := env.BudgetLeft();
    RunsExtend(env.world, jitter, initial, before, Last(env.trace));
    if !left {
      return OutOfBudget;
    }
    polled := Call(env, token, jitter, initial);
  }

  /** pollQueueStatus: one queue-status call and, if it failed, one re-entry with the same token. */
  method PollQueueStatus(env: Environment, token: string, ghost jitter: Int64 -> Int64, ghost initial: string)
    returns (polled: Polled, statusFailed: bool)
    requires Runs(env.world, jitter, initial, env.trace) && env.trace != []
    requires Last(env.trace).Completed() && env.now == Last(env.trace).at
    requires token == Held(initial, env.trace) != ""
    modifies env
    ensures Reports(jitter, initial, env, polled) && env.now >= old(env.now)
    ensures Failures(env.trace) == if statusFailed then Failures(old(env.trace)) + 1 else 0
    ensures token == Held(initial, Front(env.trace))
    ensures !polled.Next? ==> token == Held(initial, env.trace)
  {
    ghost var before := env.trace;
    var reply := env.QueueStatus(token);
    RunsExtend(env.world, jitter, initial, before, Last(env.trace));
    statusFailed := reply.Broken? || reply.code == 500;
    if !statusFailed {
      return Next(reply), false;
    }
    polled := CheckedCall(env, token, jitter, initial);
  }

  /** Waits the token-holding interval and polls queue-status. */
  method HoldAndPoll(env: Environment, reply: Reply, token: string, failures: nat, jitter: Int64 -> Int64, ghost initial: string)
    returns (polled: Polled, failures': nat)
    requires Reports(jitter, initial, env, Next(reply))
    requires reply.code == 100 || reply.code == 429
    requires token == Held(initial, env.trace) != "" && failures == Failures(env.trace)
    modifies env
    ensures Reports(jitter, initial, env, polled)
    ensures token == Held(initial, Front(env.trace)) && failures' == Failures(env.trace)
    ensures !polled.Next? ==> token == Held(initial, env.trace)
    ensures polled.Next? ==> old(env.now) < env.now && old(env.now) < env.world.deadline
  {
    var wait := HeldTokenWait(reply.retryAfterMs, failures, jitter);
    ghost var before := env.trace;
    var passed := env.Sleep(wait);
    RunsExtend(env.world, jitter, initial, before, Last(env.trace));
    if !passed {
      return OutOfBudget, failures;
    }
    var statusFailed;
    polled, statusFailed := PollQueueStatus(env, token, jitter, initial);
    failures' := if statusFailed then failures + 1 else 0;
  }

  /** Without a token: waits the server's interval and calls assign-gate again. */
  method WaitAndCall(env: Environment, reply: Reply, ghost jitter: Int64 -> Int64, ghost initial: string) returns (polled: Polled)
    requires Reports(jitter, initial, env, Next(reply)) && reply.code == 100
    requires Held(initial, env.trace) == ""
    modifies env
    ensures Reports(jitter, initial, env, polled)
    ensures Held(initial, Front(env.trace)) == "" && Failures(env.trace) == Failures(old(env.trace))
    ensures !polled.Next? ==> Held(initial, env.trace) == ""
    ensures polled.Next? ==> old(env.now) < env.now && old(env.now) < env.world.deadline
  {
    ghost var before := env.trace;
    var passed := env.Sleep(PollInterval(reply.retryAfterMs));
    RunsExtend(env.world, jitter, initial, before, Last(env.trace));
    if !passed {
      return OutOfBudget;
    }
    polled := Call(env, "", jitter, initial);
  }

  /** AssignGateWithQueue.  For every environment it terminates, keeps the contract in every
      step, leaves the request holding the right token and reports why it stopped. */
  method AssignGateWithQueue(env: Environment, req: AssignRequest, jitter: Int64 -> Int64) returns (outcome: Outcome)
    requires env.trace == [] && env.now == env.world.start
    modifies env, req
    ensures Runs(env.world, jitter, old(req.queueToken), env.trace)
    ensures env.trace != [] && MayStop(old(req.queueToken), env.trace)
    ensures outcome == Verdict(Last(env.trace)) && (outcome.BudgetExceeded? ==> env.now >= env.world.deadline)
    ensures req.queueToken == Held(old(req.queueToken), env.trace)
  {
    ghost var initial := req.queueToken;
    var statusFailures := 0;
    var polled := Call(env, req.queueToken, jitter, initial);
    while polled.Next?
      invariant Reports(jitter, initial, env, polled)
      invariant req.queueToken == Held(initial, Front(env.trace))
      invariant !polled.Next? ==> req.queueToken == Held(initial, env.trace)
      invariant statusFailures == Failures(env.trace)
      decreases polled.Next?, Max(env.world.deadline - env.now, 0), req.queueToken != ""
    {
      var rsp := polled.reply;
      if rsp.code == 0 {
        return Admitted(rsp);
      } else if rsp.code == 100 {
        if rsp.source == "login" && rsp.token != "" {
          req.queueToken := rsp.token;
        }
        if req.queueToken != "" {
          polled, statusFailures := HoldAndPoll(env, rsp, req.queueToken, statusFailures, jitter, initial);
        } else {
          polled := WaitAndCall(env, rsp, jitter, initial);
        }
      } else if rsp.code == 429 {
        if req.queueToken == "" {
          return RateLimited;
        }
        polled, statusFailures := HoldAndPoll(env, rsp, req.queueToken, statusFailures, jitter, initial);
      } else if rsp.code == 410 {
        if req.queueToken == "" {
          return UnexpectedCode(410);
        }
        req.queueToken := "";
        polled := CheckedCall(env, "", jitter, initial);
      } else {
        return UnexpectedCode(rsp.code);
      }
    }
    outcome := if polled.OutOfBudget? then BudgetExceeded else ExchangeFailed;
  }
}
