/** Waiting for the outcome of a channel switch in an append-only log that another goroutine keeps
    extending (robot/channel_smoke_scenario.go:463-497, 602-693). */
module SwitchLog {
  import opened Keyed

  const POLL_INTERVAL := 50

  /** A recorded push; None stands for a body that does not decode. */
  datatype Record =
    | EnterScene(scene: Option<nat>)
    | Tip(tip: Option<nat>)
    | Kick
    | Other

  datatype Outcome =
    | Arrived
    | Rejected(tip: nat)
    | WrongScene(scene: nat)
    | Kicked
    | Undecodable
    | NoOutcome

  /** What one record decides about a switch to `target`, if anything. */
  function Decides(record: Record, target: nat): Outcome {
    match record
    case EnterScene(None) => Undecodable
    case EnterScene(Some(scene)) => if scene == target then Arrived else WrongScene(scene)
    case Tip(None) => Undecodable
    case Tip(Some(tip)) => if tip != 0 then Rejected(tip) else NoOutcome
    case Kick => Kicked
    case Other => NoOutcome
  }

  /** Each outcome names the records it comes from. */
  lemma OutcomeNamesRecord(record: Record, target: nat, other: nat)
    ensures Decides(record, target) == Arrived <==> record == EnterScene(Some(target))
    ensures Decides(record, target) == WrongScene(other) <==> other != target && record == EnterScene(Some(other))
    ensures Decides(record, target) == Rejected(other) <==> other != 0 && record == Tip(Some(other))
    ensures Decides(record, target) == Kicked <==> record == Kick
    ensures Decides(record, target) == Undecodable <==> record == EnterScene(None) || record == Tip(None)
    ensures Decides(record, target) == NoOutcome <==> record == Other || record == Tip(Some(0))
  {
  }

  predicate Undecided(records: seq<Record>, target: nat) {
    forall i :: 0 <= i < |records| ==> Decides(records[i], target).NoOutcome?
  }

  /** `outcome` is what the first decisive record says; NoOutcome if there is none. */
  ghost predicate IsFirst(records: seq<Record>, target: nat, outcome: Outcome) {
    if outcome.NoOutcome? then Undecided(records, target)
    else exists k :: 0 <= k < |records| && Decides(records[k], target) == outcome && Undecided(records[..k], target)
  }

  /** Appending records never changes a decided outcome, and a log has one outcome only. */
  lemma FirstIsStable(records: seq<Record>, later: seq<Record>, target: nat, outcome: Outcome, outcome': Outcome)
    requires IsFirst(records, target, outcome) && IsFirst(records + later, target, outcome')
    ensures !outcome.NoOutcome? ==> outcome' == outcome
    ensures later == [] ==> outcome' == outcome
  {
    var all := records + later;
    if !outcome.NoOutcome? {
      var k :| 0 <= k < |records| && Decides(records[k], target) == outcome && Undecided(records[..k], target);
      assert all[k] == records[k] && all[..k] == records[..k];
      assert !outcome'.NoOutcome?;
      var k' :| 0 <= k' < |all| && Decides(all[k'], target) == outcome' && Undecided(all[..k'], target);
      assert k' == k;
    } else if later == [] {
      assert all == records;
    }
  }

  /** Hence how polling slices the log does not matter: any two polls of one growing log that see
      an outcome see the same one. */
  lemma PollingIsIrrelevant(records: seq<Record>, since: nat, early: nat, late: nat, target: nat, a: Outcome, b: Outcome)
    requires since <= early <= late <= |records|
    requires IsFirst(records[since..early], target, a) && IsFirst(records[since..late], target, b)
    ensures !a.NoOutcome? ==> b == a
  {
    assert records[since..late] == records[since..early] + records[early..late];
    FirstIsStable(records[since..early], records[early..late], target, a, b);
  }

  /** snapshot: the records from `since` on. */
  function Snapshot(records: seq<Record>, since: nat): seq<Record> {
    if since > |records| then [] else records[since..]
  }

  /** The scan inside waitSwitchOutcome. */
  method Scan(records: seq<Record>, target: nat) returns (outcome: Outcome)
    ensures IsFirst(records, target, outcome)
  {
    for k := 0 to |records|
      invariant Undecided(records[..k], target)
    {
      match records[k]
      case EnterScene(scene) =>
        if scene.None? { return Undecodable; }
        if scene.value != target { return WrongScene(scene.value); }
        return Arrived;
      case Tip(tip) =>
        if tip.None? { return Undecodable; }
        if tip.value != 0 { return Rejected(tip.value); }
      case Kick => return Kicked;
      case Other =>
      assert records[..k + 1] == records[..k] + [records[k]];
    }
    assert records[..|records|] == records;
    outcome := NoOutcome;
  }

  /** The receiving goroutine and the clock: what arrives before the n-th poll, and how much longer
      than planned each round takes. */
  datatype Environment = Environment(arrivals: nat -> seq<Record>, delay: nat -> nat)

  /** What arrives before the first n polls. */
  function Sent(env: Environment, n: nat): seq<Record> {
    if n == 0 then [] else Sent(env, n - 1) + env.arrivals(n - 1)
  }

  /** When the poll after n others is made. */
  function PollAt(env: Environment, start: nat, n: nat): nat {
    if n == 0 then start else PollAt(env, start, n - 1) + POLL_INTERVAL + env.delay(n - 1)
  }

  /** Polls come every 50 ms, or later by what delays them. */
  lemma {:induction false} PollsEveryFifty(env: Environment, start: nat, n: nat)
    ensures PollAt(env, start, n) >= start + 50 * n
    ensures (forall i :: 0 <= i < n ==> env.delay(i) == 0) ==> PollAt(env, start, n) == start + 50 * n
  {
    if n > 0 {
      PollsEveryFifty(env, start, n - 1);
    }
  }

  /** After poll q of a log that held `first` the wait goes on: nothing was decided, and there is time. */
  ghost predicate GoesOn(env: Environment, first: seq<Record>, since: nat, target: nat, start: nat, timeout: nat, q: nat) {
    Undecided(Snapshot(first + Sent(env, q + 1), since), target) && PollAt(env, start, q) < start + timeout
  }

  /** Poll number `last` ends it with `outcome`: it found it, or the deadline had passed. */
  ghost predicate EndsAt(env: Environment, first: seq<Record>, since: nat, target: nat, start: nat, timeout: nat,
                         last: nat, outcome: Outcome) {
    && IsFirst(Snapshot(first + Sent(env, last + 1), since), target, outcome)
    && (outcome.NoOutcome? ==> PollAt(env, start, last) >= start + timeout)
    && forall q :: 0 <= q < last ==> GoesOn(env, first, since, target, start, timeout, q)
  }

  lemma DecidedIsNotUndecided(records: seq<Record>, target: nat, outcome: Outcome)
    requires IsFirst(records, target, outcome)
    ensures Undecided(records, target) <==> outcome.NoOutcome?
  {
    if !outcome.NoOutcome? {
      var k :| 0 <= k < |records| && Decides(records[k], target) == outcome && Undecided(records[..k], target);
    }
  }

  lemma EndStops(env: Environment, first: seq<Record>, since: nat, target: nat, start: nat, timeout: nat,
                 last: nat, outcome: Outcome)
    requires EndsAt(env, first, since, target, start, timeout, last, outcome)
    ensures !GoesOn(env, first, since, target, start, timeout, last)
  {
    DecidedIsNotUndecided(Snapshot(first + Sent(env, last + 1), since), target, outcome);
  }

  /** The wait has one end. */
  lemma EndIsDetermined(env: Environment, first: seq<Record>, since: nat, target: nat, start: nat, timeout: nat,
                        a: nat, x: Outcome, b: nat, y: Outcome)
    requires EndsAt(env, first, since, target, start, timeout, a, x)
    requires EndsAt(env, first, since, target, start, timeout, b, y)
    ensures a == b && x == y
  {
    EndStops(env, first, since, target, start, timeout, a, x);
    EndStops(env, first, since, target, start, timeout, b, y);
    assert a == b;
    var seen := Snapshot(first + Sent(env, a + 1), since);
    assert seen + [] == seen;
    FirstIsStable(seen, [], target, x, y);
  }

  /** How the EnterScene call itself ended. */
  datatype Answer = Replied(tip: nat) | Envelope(tip: nat) | TimedOut | CallFailed

  /** What switchTo returns. */
  datatype Switch = Reached | Declined(tip: nat) | Error

  class ChannelLog {
    var records: seq<Record>

    constructor ()
      ensures records == []
    {
      records := [];
    }

    /** onMessage, for a batch of recorded pushes */
    method Append(batch: seq<Record>)
      modifies this
      ensures records == old(records) + batch
    {
      records := records + batch;
    }

    method Mark() returns (since: nat)
      ensures since == |records|
    {
      since := |records|;
    }

    /** waitSwitchOutcome: polls until the first decisive record since the mark or the deadline; the last
        poll is made at `finished` and sees everything that had arrived by then. */
    method WaitSwitchOutcome(since: nat, target: nat, timeout: nat, start: nat, env: Environment)
      returns (outcome: Outcome, finished: nat, ghost last: nat)
      modifies this
      ensures records == old(records) + Sent(env, last + 1) && finished == PollAt(env, start, last)
      ensures EndsAt(env, old(records), since, target, start, timeout, last, outcome)
      ensures since <= |records| ==> IsFirst(records[since..], target, outcome)
    {
      var deadline := start + timeout;
      var now, poll := start, 0;
      ghost var first := records;
      while true
        invariant records == first + Sent(env, poll) && now == PollAt(env, start, poll)
        invariant forall q :: 0 <= q < poll ==> GoesOn(env, first, since, target, start, timeout, q)
        decreases Later(deadline, now)
      {
        Append(env.arrivals(poll));
        assert records == first + Sent(env, poll + 1);
        outcome := Scan(Snapshot(records, since), target);
        if !outcome.NoOutcome? || now >= deadline {
          return outcome, now, poll;
        }
        now := now + POLL_INTERVAL + env.delay(poll);
        poll := poll + 1;
      }
    }

    /** requestEnterScene: the mark is taken before the request.  Only a reply of the scene itself
        carries a tip; an envelope refusal, a timeout or a failed call is an error. */
    method RequestEnterScene(answer: Answer, duringCall: seq<Record>) returns (since: nat, tip: Option<nat>)
      modifies this
      ensures since == |old(records)| && records == old(records) + duringCall
      ensures tip == if answer.Replied? then Some(answer.tip) else None
    {
      since := Mark();
      Append(duringCall);
      tip := None;
      if answer.Replied? {
        tip := Some(answer.tip);
      }
    }

    /** switchTo: nothing recorded before the request is blamed on it and nothing that arrives during
        the call is missed.  It reports arrival or refusal exactly if the request was accepted and the
        first decisive record since the mark says so; everything else is an error. */
    method SwitchTo(target: nat, answer: Answer, duringCall: seq<Record>, timeout: nat, start: nat, env: Environment)
      returns (result: Switch, ghost outcome: Outcome, ghost last: nat)
      modifies this
      ensures answer != Replied(0) ==> result == Error && records == old(records) + duringCall
      ensures answer == Replied(0) ==>
                && records == old(records) + duringCall + Sent(env, last + 1)
                && EndsAt(env, old(records) + duringCall, |old(records)|, target, start, timeout, last, outcome)
                && IsFirst(records[|old(records)|..], target, outcome)
                && result == (match outcome case Arrived => Reached case Rejected(tip) => Declined(tip) case _ => Error)
    {
      var since, tip := RequestEnterScene(answer, duringCall);
      last := 0;
      if tip != Some(0) {
        return Error, NoOutcome, 0;
      }
      var seen, finished;
      seen, finished, last := WaitSwitchOutcome(since, target, timeout, start, env);
      outcome := seen;
      match seen
      case Arrived => result := Reached;
      case Rejected(reason) => result := Declined(reason);
      case _ => result := Error;
    }
  }

  function Later(deadline: int, now: int): nat { if now < deadline then deadline - now else 0 }
}
