/** The retry loop of one robot (robot/main.go, runRobot): it decrements its own attempt counter
    after a token expiry, so termination needs both budgets. */
module RobotRetry {
  import opened MachineInts
  import QueueWait

  const MAX_RETRIES := 5
  const MAX_EXPIRED := 20
  const FIRST_BACKOFF := 3000
  const SHORT_BACKOFF := 200
  const BACKOFF_CAP := 30000

  /** What one runRobotOnce call reports. */
  datatype Attempt = Played | Failed | TokenExpired

  /** Why runRobot returned. */
  datatype Verdict = Done | Stopped | GaveUpRetries | GaveUpExpired

  /** The environment: outcome of the n-th attempt, and whether the stop signal is seen before the
      n-th attempt or during the wait in front of it. */
  datatype Script = Script(outcome: nat -> Attempt, stop: nat -> bool)

  function Count(script: Script, what: Attempt, n: nat): nat {
    if n == 0 then 0 else Count(script, what, n - 1) + if script.outcome(n - 1) == what then 1 else 0
  }

  /** After n attempts, none of them successful, the loop goes on. */
  predicate GoesOn(script: Script, n: nat) {
    && Count(script, Played, n) == 0
    && Count(script, Failed, n) < MAX_RETRIES
    && Count(script, TokenExpired, n) <= MAX_EXPIRED
  }

  lemma {:induction false} CountSplits(script: Script, n: nat)
    ensures Count(script, Played, n) + Count(script, Failed, n) + Count(script, TokenExpired, n) == n
  {
    if n > 0 {
      CountSplits(script, n - 1);
    }
  }

  /** How many of the first n attempts come after an ordinary failure: only those are preceded by a
      wait. */
  function Waited(script: Script, n: nat): nat {
    if n == 0 then 0 else Waited(script, n - 1) + if Count(script, Failed, n - 1) > 0 then 1 else 0
  }

  /** The backoff in force before attempt n. */
  function Due(script: Script, n: nat): nat {
    if n == 0 then FIRST_BACKOFF
    else if script.outcome(n - 1).TokenExpired? then SHORT_BACKOFF
    else if Count(script, Failed, n - 1) > 0 then Min(2 * Due(script, n - 1), BACKOFF_CAP)
    else Due(script, n - 1)
  }

  /** The waits before the first n attempts. */
  function Waits(script: Script, n: nat): (waits: seq<nat>)
    ensures |waits| == Waited(script, n)
  {
    if n == 0 then []
    else Waits(script, n - 1) + if Count(script, Failed, n - 1) > 0 then [Due(script, n - 1)] else []
  }

  /** Counted from the start or from the last token expiry, the backoff doubles with every wait and
      stops at thirty seconds. */
  lemma {:induction false} BackoffDoubles(script: Script, reset: nat, n: nat)
    requires reset <= n && (reset > 0 ==> script.outcome(reset - 1).TokenExpired?)
    requires forall i :: reset <= i < n ==> !script.outcome(i).TokenExpired?
    ensures Waited(script, reset) <= Waited(script, n)
    ensures var first := if reset == 0 then FIRST_BACKOFF else SHORT_BACKOFF;
            Due(script, n) == Min(first * QueueWait.Pow2(Waited(script, n) - Waited(script, reset)), BACKOFF_CAP)
  {
    if n > reset {
      BackoffDoubles(script, reset, n - 1);
      var k := Waited(script, n - 1) - Waited(script, reset);
      var first := if reset == 0 then FIRST_BACKOFF else SHORT_BACKOFF;
      assert first * QueueWait.Pow2(k + 1) == 2 * (first * QueueWait.Pow2(k));
    }
  }

  /** The same of the waits slept: the one after k others since then is first * 2^k, up to the cap. */
  lemma {:induction false} SleptWaitsDouble(script: Script, reset: nat, n: nat, k: nat)
    requires reset <= n && (reset > 0 ==> script.outcome(reset - 1).TokenExpired?)
    requires forall i :: reset <= i < n ==> !script.outcome(i).TokenExpired?
    requires Waited(script, reset) + k < Waited(script, n)
    ensures var first := if reset == 0 then 3000 else 200;
            Waits(script, n)[Waited(script, reset) + k] == Min(first * QueueWait.Pow2(k), 30000)
  {
    if n > reset {
      BackoffDoubles(script, reset, n - 1);
      if Waited(script, reset) + k < Waited(script, n - 1) {
        SleptWaitsDouble(script, reset, n - 1, k);
      }
    }
  }

  /** No wait exceeds thirty seconds. */
  lemma {:induction false} WaitsCapped(script: Script, n: nat)
    ensures SHORT_BACKOFF <= Due(script, n) <= BACKOFF_CAP
    ensures forall i :: 0 <= i < |Waits(script, n)| ==> SHORT_BACKOFF <= Waits(script, n)[i] <= BACKOFF_CAP
  {
    if n > 0 {
      WaitsCapped(script, n - 1);
    }
  }

  /** How a run may end after `attempts` calls of runRobotOnce: the loop went on until the last of them
      without seeing the stop signal, and the verdict says why it did not go on after that. */
  ghost predicate Ends(script: Script, verdict: Verdict, attempts: nat) {
    && (forall n :: 0 <= n < attempts ==> GoesOn(script, n) && !script.stop(n))
    && match verdict
       case Stopped => GoesOn(script, attempts) && script.stop(attempts)
       case Done => attempts > 0 && script.outcome(attempts - 1).Played?
       case GaveUpRetries =>
         && Count(script, Played, attempts) == 0 && Count(script, Failed, attempts) == MAX_RETRIES
         && Count(script, TokenExpired, attempts) <= MAX_EXPIRED
       case GaveUpExpired =>
         && Count(script, Played, attempts) == 0 && Count(script, Failed, attempts) < MAX_RETRIES
         && Count(script, TokenExpired, attempts) == MAX_EXPIRED + 1
  }

  lemma EndStops(script: Script, verdict: Verdict, attempts: nat)
    requires Ends(script, verdict, attempts)
    ensures !(GoesOn(script, attempts) && !script.stop(attempts))
  {
    if verdict.Done? {
      assert Count(script, Played, attempts) == Count(script, Played, attempts - 1) + 1;
    }
  }

  /** A script has one end. */
  lemma EndIsDetermined(script: Script, a: Verdict, m: nat, b: Verdict, n: nat)
    requires Ends(script, a, m) && Ends(script, b, n)
    ensures a == b && m == n
  {
    EndStops(script, a, m);
    EndStops(script, b, n);
    assert m == n;
    if m > 0 && script.outcome(m - 1).Played? {
      assert Count(script, Played, m) == Count(script, Played, m - 1) + 1;
    }
  }

  /** runRobot: `attempts` calls of runRobotOnce were made, `waits` are the backoffs slept. */
  method RunRobot(script: Script) returns (verdict: Verdict, attempts: nat, waits: seq<nat>)
    ensures Ends(script, verdict, attempts) && waits == Waits(script, attempts)
    ensures attempts <= 25
  {
    var backoff, expired := FIRST_BACKOFF, 0;
    attempts, waits := 0, [];
    var attempt := 1;
    while attempt <= MAX_RETRIES
      invariant 1 <= attempt <= MAX_RETRIES + 1
      invariant attempt == 1 + Count(script, Failed, attempts)
      invariant expired == Count(script, TokenExpired, attempts) <= MAX_EXPIRED
      invariant Count(script, Played, attempts) == 0
      invariant forall n :: 0 <= n < attempts ==> GoesOn(script, n) && !script.stop(n)
      invariant waits == Waits(script, attempts) && backoff == Due(script, attempts)
      decreases MAX_RETRIES + 1 - attempt, MAX_EXPIRED - expired
    {
      AttemptsBounded(script, attempts);
      if script.stop(attempts) {
        return Stopped, attempts, waits;
      }
      if attempt > 1 {
        waits := waits + [backoff];
        backoff := Min(backoff * 2, BACKOFF_CAP);
      }
      var result := script.outcome(attempts);
      attempts := attempts + 1;
      AttemptsBounded(script, attempts);
      if result.Played? {
        return Done, attempts, waits;
      }
      if result.TokenExpired? {
        expired := expired + 1;
        if expired > MAX_EXPIRED {
          return GaveUpExpired, attempts, waits;
        }
        attempt := attempt - 1;
        backoff := SHORT_BACKOFF;
      }
      attempt := attempt + 1;
    }
    AttemptsBounded(script, attempts);
    verdict := GaveUpRetries;
  }

  /** How many attempts a finished run can have made. */
  lemma AttemptsBounded(script: Script, attempts: nat)
    requires attempts > 0 ==> GoesOn(script, attempts - 1)
    ensures attempts <= MAX_RETRIES + MAX_EXPIRED
  {
    if attempts > 0 {
      CountSplits(script, attempts - 1);
    }
  }

  /** Twenty expiries, then only failures, and no stop signal. */
  function Worst(): Script {
    Script((n: nat) => if n < MAX_EXPIRED then TokenExpired else Failed, (n: nat) => false)
  }

  lemma {:induction false} WorstCounts(n: nat)
    ensures Count(Worst(), Played, n) == 0
    ensures Count(Worst(), TokenExpired, n) == Min(n, MAX_EXPIRED)
    ensures Count(Worst(), Failed, n) == Max(n - MAX_EXPIRED, 0)
  {
    if n > 0 {
      WorstCounts(n - 1);
    }
  }

  /** The bound is reached: every run of that script makes twenty-five attempts and gives up, and the
      twenty refetches after its expiries are made without any wait. */
  lemma BoundIsReached(verdict: Verdict, attempts: nat)
    requires Ends(Worst(), verdict, attempts)
    ensures verdict == GaveUpRetries && attempts == 25
    ensures Waits(Worst(), 21) == []
  {
    WorstCounts(attempts);
    if attempts > 0 {
      WorstCounts(attempts - 1);
    }
    WorstCounts(MAX_EXPIRED);
    WaitsAfterFailure(Worst(), MAX_EXPIRED + 1);
  }

  lemma {:induction false} FailuresGrow(script: Script, m: nat, n: nat)
    requires m <= n
    ensures Count(script, Failed, m) <= Count(script, Failed, n)
  {
    if m < n {
      FailuresGrow(script, m, n - 1);
    }
  }

  /** The first n attempts are made without any wait exactly when no ordinary failure came before the
      last of them. */
  lemma {:induction false} WaitsAfterFailure(script: Script, n: nat)
    requires n > 0
    ensures Waited(script, n) == 0 <==> Count(script, Failed, n - 1) == 0
  {
    if n > 1 {
      WaitsAfterFailure(script, n - 1);
      FailuresGrow(script, n - 2, n - 1);
    }
  }

  /** The short backoff set after a token expiry is slept before the next attempt if and only if there
      was an ordinary failure earlier; otherwise the robot refetches at once. */
  lemma ExpiryWait(script: Script, n: nat)
    requires n > 0 && script.outcome(n - 1).TokenExpired?
    ensures Waits(script, n + 1) == Waits(script, n) + if Count(script, Failed, n) > 0 then [SHORT_BACKOFF] else []
  {
  }
}
