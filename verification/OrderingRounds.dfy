/** Detecting out-of-order execution (robot/ordering_smoke_groups.go): each round sends two requests
    back to back and infers from the replies and the final state in which order they ran. */
module OrderingRounds {
  import opened Keyed

  const ROUNDS: nat := 5

  /** How a group ended: as sent, with displaced rounds, or with a failure that is not about order. */
  datatype Verdict =
    | InSendOrder
    | Displaced(rounds: seq<nat>, busy: seq<nat>)
    | Failed(round: nat)

  /** The rounds up to n in which something holds. */
  function RoundsWhere(n: nat, wanted: nat -> bool): seq<nat> {
    if n == 0 then [] else RoundsWhere(n - 1, wanted) + if wanted(n) then [n] else []
  }

  lemma {:induction false} RoundsWhereMembers(n: nat, wanted: nat -> bool, r: nat)
    ensures r in RoundsWhere(n, wanted) <==> 1 <= r <= n && wanted(r)
  {
    if n > 0 {
      RoundsWhereMembers(n - 1, wanted, r);
    }
  }

  /** Each once and in order. */
  lemma {:induction false} RoundsWhereAscends(n: nat, wanted: nat -> bool, i: nat, j: nat)
    requires i < j < |RoundsWhere(n, wanted)|
    ensures RoundsWhere(n, wanted)[i] < RoundsWhere(n, wanted)[j]
  {
    var front := RoundsWhere(n - 1, wanted);
    if j < |front| {
      RoundsWhereAscends(n - 1, wanted, i, j);
    } else {
      RoundsWhereMembers(n - 1, wanted, front[i]);
    }
  }

  lemma {:induction false} SameRounds(n: nat, wanted: nat -> bool, wanted': nat -> bool)
    requires forall r :: 1 <= r <= n ==> wanted(r) == wanted'(r)
    ensures RoundsWhere(n, wanted) == RoundsWhere(n, wanted')
  {
    if n > 0 {
      SameRounds(n - 1, wanted, wanted');
    }
  }

  /** The first round from k on that cannot be judged, or the one after the last. */
  function FirstFailure(goes: nat -> bool, k: nat): (r: nat)
    requires k <= ROUNDS + 1
    ensures k <= r <= ROUNDS + 1 && (r <= ROUNDS ==> !goes(r))
    ensures forall q :: k <= q < r ==> goes(q)
    decreases ROUNDS + 1 - k
  {
    if k <= ROUNDS && goes(k) then FirstFailure(goes, k + 1) else k
  }

  /** The verdict of a group whose rounds can be judged, look reordered and look busy as given. */
  function GroupVerdict(goes: nat -> bool, looks: nat -> bool, busy: nat -> bool, lastStepFails: bool): Verdict {
    if FirstFailure(goes, 1) <= ROUNDS then Failed(FirstFailure(goes, 1))
    else if lastStepFails then Failed(ROUNDS + 1)
    else if RoundsWhere(ROUNDS, looks) == [] then InSendOrder
    else Displaced(RoundsWhere(ROUNDS, looks), RoundsWhere(ROUNDS, busy))
  }

  /** In rounds in which the server can be trusted, what the client sees is what happened. */
  ghost predicate Tells(trusted: nat -> bool, goes: nat -> bool, looks: nat -> bool, wanted: nat -> bool) {
    forall r :: trusted(r) ==> goes(r) && (looks(r) <==> wanted(r))
  }

  /** Then the verdict is right round by round: a failed round is one in which the server misbehaved, and
      of the others with a trusted server exactly those out of order are listed. */
  lemma VerdictIsRight(trusted: nat -> bool, goes: nat -> bool, looks: nat -> bool, busy: nat -> bool, lastStepFails: bool,
                       wanted: nat -> bool, r: nat)
    requires Tells(trusted, goes, looks, wanted) && 1 <= r <= ROUNDS
    ensures var verdict := GroupVerdict(goes, looks, busy, lastStepFails);
            && (verdict == Failed(r) ==> !trusted(r))
            && (verdict.InSendOrder? && trusted(r) ==> !wanted(r))
            && (verdict.Displaced? && trusted(r) ==> (r in verdict.rounds <==> wanted(r)))
  {
    RoundsWhereMembers(ROUNDS, looks, r);
  }

  /** With a server that can be trusted throughout, the verdict lists exactly the rounds out of order. */
  lemma TrustedVerdict(trusted: nat -> bool, goes: nat -> bool, looks: nat -> bool, busy: nat -> bool,
                       wanted: nat -> bool, conflicting: nat -> bool)
    requires Tells(trusted, goes, looks, wanted) && Tells(trusted, goes, busy, conflicting)
    requires forall r :: 1 <= r <= ROUNDS ==> trusted(r)
    ensures GroupVerdict(goes, looks, busy, false)
            == if RoundsWhere(ROUNDS, wanted) == [] then InSendOrder
               else Displaced(RoundsWhere(ROUNDS, wanted), RoundsWhere(ROUNDS, conflicting))
  {
    SameRounds(ROUNDS, looks, wanted);
    SameRounds(ROUNDS, busy, conflicting);
    assert forall r :: 1 <= r <= ROUNDS ==> goes(r);
  }

  // ---- Guild: ApplyJoinGuild, then CancelGuildApplication ----

  datatype Tip = Accepted | NotFound | BusyRetry | OtherTip

  /** What happened to the two requests.  The last two are faults: replies and state that no execution
      explains, or a lost reply. */
  datatype GuildExecution =
    | ApplyThenCancel
    | CancelThenApply
    | Conflict(applyLoses: bool, cancelLoses: bool)
    | Unexplained(applyTip: Tip, cancelTip: Tip, pendingAfter: bool)
    | NoReply(pendingAfter: bool)

  /** A later cancel either runs or misbehaves. */
  datatype CancelRun = Runs | Misbehaves(tip: Tip, pendingAfter: bool) | CancelLost(pendingAfter: bool)

  /** What the server does in one round: the pipelined pair, the list query, the clean-up cancel and
      the list query that checks it. */
  datatype GuildRound = GuildRound(execution: GuildExecution, listFails: bool, cancel: CancelRun, verifyFails: bool) {
    /** The server did nothing but run requests, one after the other or in a write conflict. */
    predicate Trusted() {
      && !execution.Unexplained? && !execution.NoReply?
      && (execution.Conflict? ==> execution.applyLoses || execution.cancelLoses)
      && !listFails && cancel.Runs? && !verifyFails
    }

    predicate OutOfOrder() { execution.CancelThenApply? || execution.Conflict? }

    /** The two replies and the pending application after them, from a clean start; each request that
        runs is atomic, and the loser of a conflict changes nothing. */
    function Seen(): (Tip, Tip, bool) {
      match execution
      case ApplyThenCancel => (Accepted, Accepted, false)
      case CancelThenApply => (Accepted, NotFound, true)
      case Conflict(applyLoses, cancelLoses) =>
        (if applyLoses then BusyRetry else Accepted, if cancelLoses then BusyRetry else NotFound, !applyLoses)
      case Unexplained(applyTip, cancelTip, pendingAfter) => (applyTip, cancelTip, pendingAfter)
      case NoReply(pendingAfter) => (OtherTip, OtherTip, pendingAfter)
    }

    predicate LooksBusy() { Seen().0 == BusyRetry || Seen().1 == BusyRetry }

    predicate LooksReordered() { LooksBusy() || Seen().2 }

    /** Some execution gives these replies and this state. */
    predicate Plausible() {
      && (Seen().0 == Accepted || Seen().0 == BusyRetry) && Seen().1 != OtherTip
      && (LooksBusy() || (Seen().2 <==> Seen().1 == NotFound))
    }

    /** The clean-up works. */
    predicate Cleans() {
      && !verifyFails
      && match cancel
         case Runs => true
         case Misbehaves(tip, pendingAfter) => (tip == Accepted || tip == NotFound) && !pendingAfter
         case CancelLost(_) => false
    }

    /** The round can be judged and the next one started. */
    predicate Goes() { Plausible() && (LooksBusy() || !listFails) && (LooksReordered() ==> Cleans()) }
  }

  /** A trusted round can be judged, looks reordered exactly if it was not run in send order, and looks
      busy exactly if there was a conflict. */
  lemma TrustedGuildRound(round: GuildRound)
    requires round.Trusted()
    ensures round.Goes() && (round.LooksReordered() <==> round.OutOfOrder()) && (round.LooksBusy() <==> round.execution.Conflict?)
  {
  }

  class GuildServer {
    const script: nat -> GuildRound
    const disbandFails: bool
    /** The applicant has a pending application. */
    var pending: bool

    ghost function Trusted(): nat -> bool { (r: nat) => script(r).Trusted() }

    ghost function OutOfOrder(): nat -> bool { (r: nat) => script(r).OutOfOrder() }

    ghost function Conflicting(): nat -> bool { (r: nat) => script(r).execution.Conflict? }

    ghost function Goes(): nat -> bool { (r: nat) => script(r).Goes() }

    ghost function Looks(): nat -> bool { (r: nat) => script(r).LooksReordered() }

    ghost function Busy(): nat -> bool { (r: nat) => script(r).LooksBusy() }

    ghost function Verdict(): Verdict { GroupVerdict(Goes(), Looks(), Busy(), disbandFails) }

    /** A new guild has no applications. */
    constructor (script: nat -> GuildRound, disbandFails: bool)
      ensures !pending && this.script == script && this.disbandFails == disbandFails
    {
      this.script, this.disbandFails, pending := script, disbandFails, false;
    }

    method Apply() returns (tip: Tip)
      modifies this
      ensures pending && tip == Accepted
    {
      pending, tip := true, Accepted;
    }

    method Cancel() returns (tip: Tip)
      modifies this
      ensures !pending && tip == if old(pending) then Accepted else NotFound
    {
      tip := if pending then Accepted else NotFound;
      pending := false;
    }

    /** The pipelined pair, run as the script says. */
    method Pipeline(round: nat) returns (applyTip: Tip, cancelTip: Tip, ok: bool)
      modifies this
      ensures ok <==> !script(round).execution.NoReply?
      ensures ok && !old(pending) ==> (applyTip, cancelTip, pending) == script(round).Seen()
    {
      applyTip, cancelTip, ok := Accepted, Accepted, true;
      match script(round).execution
      case ApplyThenCancel =>
        applyTip := Apply();
        cancelTip := Cancel();
      case CancelThenApply =>
        cancelTip := Cancel();
        applyTip := Apply();
      case Conflict(applyLoses, cancelLoses) =>
        if cancelLoses {
          cancelTip := BusyRetry;
        } else {
          cancelTip := Cancel();
        }
        if applyLoses {
          applyTip := BusyRetry;
        } else {
          applyTip := Apply();
        }
      case Unexplained(a, c, p) =>
        applyTip, cancelTip, pending := a, c, p;
      case NoReply(p) =>
        pending, ok := p, false;
    }

    /** orderingGuildCancelAndVerify: succeeds only when the application is gone. */
    method CancelAndVerify(round: nat) returns (ok: bool)
      modifies this
      ensures ok ==> !pending
      ensures ok <==> script(round).Cleans()
    {
      var tip := OtherTip;
      match script(round).cancel {
        case Runs =>
          tip := Cancel();
        case Misbehaves(t, p) =>
          tip, pending := t, p;
        case CancelLost(p) =>
          pending := p;
          return false;
      }
      if tip != Accepted && tip != NotFound {
        return false;
      }
      if script(round).verifyFails {
        return false;
      }
      ok := !pending;
    }

    /** One round: what it is recorded as, or not `ok` when the run must stop. */
    method Round(round: nat) returns (ok: bool, reordered: bool, busy: bool)
      requires !pending
      modifies this
      ensures ok <==> script(round).Goes()
      ensures ok ==> !pending && (reordered <==> script(round).LooksReordered()) && (busy <==> script(round).LooksBusy())
    {
      ok, reordered, busy := true, false, false;
      var applyTip, cancelTip, answered := Pipeline(round);
      if !answered {
        return false, false, false;
      }
      if applyTip != Accepted && applyTip != BusyRetry {
        return false, false, false;
      }
      if cancelTip == OtherTip {
        return false, false, false;
      }
      if applyTip == BusyRetry || cancelTip == BusyRetry {
        reordered, busy := true, true;
        ok := CancelAndVerify(round);
        return;
      }
      if script(round).listFails {
        return false, false, false;
      }
      if !pending && cancelTip == Accepted {
      } else if pending && cancelTip == NotFound {
        reordered := true;
        ok := CancelAndVerify(round);
      } else {
        ok := false;
      }
    }
  }

  /** runOrderingGuildGroup after login and guild creation: every round starts without an application. */
  method RunGuildGroup(server: GuildServer) returns (verdict: Verdict)
    requires !server.pending
    modifies server
    ensures verdict == server.Verdict() && (!verdict.Failed? ==> !server.pending)
  {
    var reordered: seq<nat>, busyRounds: seq<nat> := [], [];
    var round := 1;
    while round <= ROUNDS
      invariant 1 <= round <= ROUNDS + 1 && !server.pending
      invariant reordered == RoundsWhere(round - 1, server.Looks())
      invariant busyRounds == RoundsWhere(round - 1, server.Busy())
      invariant FirstFailure(server.Goes(), 1) == FirstFailure(server.Goes(), round)
    {
      var ok, displaced, busy := server.Round(round);
      if !ok {
        return Failed(round);
      }
      if displaced {
        reordered := reordered + [round];
      }
      if busy {
        busyRounds := busyRounds + [round];
      }
      round := round + 1;
    }
    if server.disbandFails {
      return Failed(ROUNDS + 1);
    }
    verdict := if reordered != [] then Displaced(reordered, busyRounds) else InSendOrder;
  }

  /** What the guild verdict says about each round. */
  lemma GuildVerdictIsRight(server: GuildServer, r: nat)
    requires 1 <= r <= ROUNDS
    ensures var verdict := server.Verdict();
            && (verdict == Failed(r) ==> !server.script(r).Trusted())
            && (verdict.InSendOrder? && server.script(r).Trusted() ==> !server.script(r).OutOfOrder())
            && (verdict.Displaced? && server.script(r).Trusted() ==> (r in verdict.rounds <==> server.script(r).OutOfOrder()))
  {
    GuildTells(server);
    VerdictIsRight(server.Trusted(), server.Goes(), server.Looks(), server.Busy(), server.disbandFails, server.OutOfOrder(), r);
  }

  lemma GuildTells(server: GuildServer)
    ensures Tells(server.Trusted(), server.Goes(), server.Looks(), server.OutOfOrder())
    ensures Tells(server.Trusted(), server.Goes(), server.Busy(), server.Conflicting())
  {
    forall r: nat | server.script(r).Trusted()
      ensures server.script(r).Goes() && (server.script(r).LooksReordered() <==> server.script(r).OutOfOrder())
      ensures server.script(r).LooksBusy() <==> server.script(r).execution.Conflict?
    {
      TrustedGuildRound(server.script(r));
    }
  }

  /** With a trusted server the guild group never fails, and it lists exactly the rounds not run in send
      order and exactly those in conflict. */
  lemma TrustedGuildVerdict(server: GuildServer)
    requires !server.disbandFails && forall r :: 1 <= r <= ROUNDS ==> server.script(r).Trusted()
    ensures server.Verdict()
            == if RoundsWhere(ROUNDS, server.OutOfOrder()) == [] then InSendOrder
               else Displaced(RoundsWhere(ROUNDS, server.OutOfOrder()), RoundsWhere(ROUNDS, server.Conflicting()))
  {
    GuildTells(server);
    TrustedVerdict(server.Trusted(), server.Goes(), server.Looks(), server.Busy(), server.OutOfOrder(), server.Conflicting());
  }

  // ---- Friends: AcceptFriend, then RemoveFriend ----

  /** Both replies accept in either order, so only the two friend lists tell the orders apart. */
  datatype FriendExecution =
    | AcceptThenRemove
    | RemoveThenAccept
    | FriendUnexplained(acceptTip: Tip, removeTip: Tip, accepterAfter: bool, requesterAfter: bool)
    | FriendNoReply(accepterAfter: bool, requesterAfter: bool)

  datatype RemoveRun = RemoveRuns | RemoveMisbehaves(tip: Tip, accepterAfter: bool, requesterAfter: bool)

  /** One round: the friend request, the pipelined pair, the two list queries, and the clean-up. */
  datatype FriendRound = FriendRound(
    requestFails: bool, execution: FriendExecution, listFails: bool, remove: RemoveRun, verifyFails: bool)
  {
    predicate Trusted() {
      && !requestFails && !listFails && remove.RemoveRuns? && !verifyFails
      && (execution.AcceptThenRemove? || execution.RemoveThenAccept?)
    }

    predicate OutOfOrder() { execution.RemoveThenAccept? }

    /** The two replies and the two edges after them, between strangers with a waiting request. */
    function Seen(): (Tip, Tip, bool, bool) {
      match execution
      case AcceptThenRemove => (Accepted, Accepted, false, false)
      case RemoveThenAccept => (Accepted, Accepted, true, true)
      case FriendUnexplained(acceptTip, removeTip, accepterAfter, requesterAfter) =>
        (acceptTip, removeTip, accepterAfter, requesterAfter)
      case FriendNoReply(accepterAfter, requesterAfter) => (OtherTip, OtherTip, accepterAfter, requesterAfter)
    }

    predicate LooksReordered() { Seen().2 }

    /** The clean-up works. */
    predicate Cleans() {
      && !verifyFails
      && (remove.RemoveMisbehaves? ==> remove.tip == Accepted && !remove.accepterAfter && !remove.requesterAfter)
    }

    /** The round can be judged and the next one started: both requests were accepted and neither side
        sees an edge the other does not. */
    predicate Goes() {
      && !requestFails && !listFails && Seen().0 == Accepted && Seen().1 == Accepted && Seen().2 == Seen().3
      && (LooksReordered() ==> Cleans())
    }
  }

  lemma TrustedFriendRound(round: FriendRound)
    requires round.Trusted()
    ensures round.Goes() && (round.LooksReordered() <==> round.OutOfOrder())
  {
  }

  /** A request the accepter finds in the list of waiting ones. */
  datatype Waiting = Waiting(fromRequester: bool, id: nat, open: bool) {
    predicate Rejectable() { fromRequester && id != 0 && open }
  }

  class FriendServer {
    const script: nat -> FriendRound
    /** What the precheck sees: the waiting requests, if listed, and the replies to rejecting them;
        NotFound says that the request is no longer waiting. */
    const waiting: Option<seq<Waiting>>
    const rejectTips: nat -> Tip
    /** The two friend edges, and whether a request of the requester waits for an answer. */
    var accepterSees: bool
    var requesterSees: bool
    var request: bool

    ghost predicate Strangers()
      reads this
    {
      !accepterSees && !requesterSees
    }

    ghost function Trusted(): nat -> bool { (r: nat) => script(r).Trusted() }

    ghost function OutOfOrder(): nat -> bool { (r: nat) => script(r).OutOfOrder() }

    ghost function Goes(): nat -> bool { (r: nat) => script(r).Goes() }

    ghost function Looks(): nat -> bool { (r: nat) => script(r).LooksReordered() }

    /** A failing precheck counts as round 0; no friend round is busy. */
    ghost function Verdict(): Verdict {
      if !PrecheckWorks() then Failed(0) else GroupVerdict(Goes(), Looks(), (r: nat) => false, false)
    }

    /** Every waiting request of the requester that can be rejected is out of the way. */
    ghost predicate AllRejected() {
      && waiting.Some?
      && forall k :: 0 <= k < |waiting.value| && waiting.value[k].Rejectable() ==>
           rejectTips(k) == Accepted || rejectTips(k) == NotFound
    }

    ghost predicate PrecheckWorks() { AllRejected() && script(0).Cleans() }

    /** orderingFriendReset: rejects what waits, removes the friendship and checks both lists. */
    method Reset() returns (ok: bool)
      modifies this
      ensures ok ==> Strangers()
      ensures ok <==> PrecheckWorks()
    {
      if waiting.None? {
        return false;
      }
      for k := 0 to |waiting.value|
        invariant forall j :: 0 <= j < k && waiting.value[j].Rejectable() ==>
                    rejectTips(j) == Accepted || rejectTips(j) == NotFound
      {
        if waiting.value[k].Rejectable() {
          if rejectTips(k) != Accepted && rejectTips(k) != NotFound {
            return false;
          }
          request := false;
        }
      }
      ok := RemoveAndVerify(0);
    }

    /** AddFriend is refused between friends; a waiting request is returned again. */
    method AddFriend(round: nat) returns (ok: bool)
      modifies `request
      ensures request == (old(request) || ok)
      ensures ok <==> !script(round).requestFails && Strangers()
    {
      ok := !script(round).requestFails && !accepterSees && !requesterSees;
      request := request || ok;
    }

    /** Accepting a waiting request makes both edges at once. */
    method Accept() returns (tip: Tip)
      modifies this
      ensures tip == (if old(request) then Accepted else OtherTip) && !request
      ensures old(request) ==> accepterSees && requesterSees
      ensures !old(request) ==> accepterSees == old(accepterSees) && requesterSees == old(requesterSees)
    {
      tip := OtherTip;
      if request {
        tip, accepterSees, requesterSees, request := Accepted, true, true, false;
      }
    }

    /** Removing deletes both edges, and succeeds between strangers too. */
    method Remove() returns (tip: Tip)
      modifies `accepterSees, `requesterSees
      ensures tip == Accepted && Strangers()
    {
      tip, accepterSees, requesterSees := Accepted, false, false;
    }

    method Pipeline(round: nat) returns (acceptTip: Tip, removeTip: Tip, ok: bool)
      modifies this
      ensures ok <==> !script(round).execution.FriendNoReply?
      ensures ok && old(request) ==> (acceptTip, removeTip, accepterSees, requesterSees) == script(round).Seen()
    {
      acceptTip, removeTip, ok := Accepted, Accepted, true;
      match script(round).execution
      case AcceptThenRemove =>
        acceptTip := Accept();
        removeTip := Remove();
      case RemoveThenAccept =>
        removeTip := Remove();
        acceptTip := Accept();
      case FriendUnexplained(a, r, accepter, requester) =>
        acceptTip, removeTip, accepterSees, requesterSees := a, r, accepter, requester;
      case FriendNoReply(accepter, requester) =>
        accepterSees, requesterSees, ok := accepter, requester, false;
    }

    /** orderingFriendRemoveAndVerify: succeeds only when neither sees the other. */
    method RemoveAndVerify(round: nat) returns (ok: bool)
      modifies `accepterSees, `requesterSees
      ensures ok ==> Strangers()
      ensures ok <==> script(round).Cleans()
    {
      var tip := OtherTip;
      match script(round).remove {
        case RemoveRuns =>
          tip := Remove();
        case RemoveMisbehaves(t, accepter, requester) =>
          tip, accepterSees, requesterSees := t, accepter, requester;
      }
      ok := tip == Accepted && !script(round).verifyFails && !accepterSees && !requesterSees;
    }

    method Round(round: nat) returns (ok: bool, reordered: bool)
      requires Strangers()
      modifies this
      ensures ok <==> script(round).Goes()
      ensures ok ==> Strangers() && (reordered <==> script(round).LooksReordered())
    {
      ok, reordered := false, false;
      var added := AddFriend(round);
      if !added {
        return;
      }
      var acceptTip, removeTip, answered := Pipeline(round);
      if !answered || acceptTip != Accepted || removeTip != Accepted || script(round).listFails {
        return;
      }
      if !accepterSees && !requesterSees {
        ok := true;
      } else if accepterSees && requesterSees {
        reordered := true;
        ok := RemoveAndVerify(round);
      }
    }
  }

  /** runOrderingFriendGroup after login, from any friendship: every round starts between strangers. */
  method RunFriendGroup(server: FriendServer) returns (verdict: Verdict)
    modifies server
    ensures verdict == server.Verdict() && (!verdict.Failed? ==> server.Strangers())
  {
    var clean := server.Reset();
    if !clean {
      return Failed(0);
    }
    var reordered: seq<nat> := [];
    var round := 1;
    while round <= ROUNDS
      invariant 1 <= round <= ROUNDS + 1 && server.Strangers()
      invariant reordered == RoundsWhere(round - 1, server.Looks())
      invariant FirstFailure(server.Goes(), 1) == FirstFailure(server.Goes(), round)
    {
      var ok, displaced := server.Round(round);
      if !ok {
        return Failed(round);
      }
      if displaced {
        reordered := reordered + [round];
      }
      round := round + 1;
    }
    NoRounds(ROUNDS, (r: nat) => false);
    verdict := if reordered != [] then Displaced(reordered, []) else InSendOrder;
  }

  lemma {:induction false} NoRounds(n: nat, wanted: nat -> bool)
    requires forall r :: 1 <= r <= n ==> !wanted(r)
    ensures RoundsWhere(n, wanted) == []
  {
    if n > 0 {
      NoRounds(n - 1, wanted);
    }
  }

  lemma FriendTells(server: FriendServer)
    ensures Tells(server.Trusted(), server.Goes(), server.Looks(), server.OutOfOrder())
  {
    forall r: nat | server.script(r).Trusted()
      ensures server.script(r).Goes() && (server.script(r).LooksReordered() <==> server.script(r).OutOfOrder())
    {
      TrustedFriendRound(server.script(r));
    }
  }

  /** What the friend verdict says about each round. */
  lemma FriendVerdictIsRight(server: FriendServer, r: nat)
    requires 1 <= r <= ROUNDS
    ensures var verdict := server.Verdict();
            && (verdict == Failed(r) ==> !server.script(r).Trusted())
            && (verdict.InSendOrder? && server.script(r).Trusted() ==> !server.script(r).OutOfOrder())
            && (verdict.Displaced? && server.script(r).Trusted() ==> (r in verdict.rounds <==> server.script(r).OutOfOrder()))
  {
    FriendTells(server);
    VerdictIsRight(server.Trusted(), server.Goes(), server.Looks(), (r: nat) => false, false, server.OutOfOrder(), r);
  }

  /** With a trusted server the friend group never fails, a one-sided edge is never seen, and it lists
      exactly the rounds not run in send order. */
  lemma TrustedFriendVerdict(server: FriendServer)
    requires server.PrecheckWorks() && forall r :: 1 <= r <= ROUNDS ==> server.script(r).Trusted()
    ensures server.Verdict()
            == if RoundsWhere(ROUNDS, server.OutOfOrder()) == [] then InSendOrder
               else Displaced(RoundsWhere(ROUNDS, server.OutOfOrder()), [])
  {
    var never := (r: nat) => false;
    FriendTells(server);
    NoRounds(ROUNDS, never);
    TrustedVerdict(server.Trusted(), server.Goes(), server.Looks(), never, server.OutOfOrder(), never);
  }

  // ---- All groups ----

  datatype Group = Guild | Friend | LoginGroup

  /** The first group from k on that failed. */
  function FirstFailed(groups: seq<(Group, Verdict)>, k: nat): (r: nat)
    requires k <= |groups|
    ensures k <= r <= |groups| && (r < |groups| ==> groups[r].1.Failed?)
    ensures forall i :: k <= i < r ==> !groups[i].1.Failed?
    decreases |groups| - k
  {
    if k < |groups| && !groups[k].1.Failed? then FirstFailed(groups, k + 1) else k
  }

  /** The displaced ones among the first n groups. */
  function Noted(groups: seq<(Group, Verdict)>, n: nat): seq<Group>
    requires n <= |groups|
  {
    if n == 0 then [] else Noted(groups, n - 1) + if groups[n - 1].1.Displaced? then [groups[n - 1].0] else []
  }

  /** The displaced groups before the first that failed, and that one. */
  function Summary(groups: seq<(Group, Verdict)>): (seq<Group>, Option<Group>) {
    var k := FirstFailed(groups, 0);
    (Noted(groups, k), if k < |groups| then Some(groups[k].0) else None)
  }

  lemma {:induction false} NotedMeans(groups: seq<(Group, Verdict)>, n: nat, g: Group)
    requires n <= |groups|
    ensures g in Noted(groups, n) <==> exists i :: 0 <= i < n && groups[i].0 == g && groups[i].1.Displaced?
  {
    if n > 0 {
      NotedMeans(groups, n - 1, g);
    }
  }

  /** The guild group is named exactly if it was displaced; the friend group exactly if it was and the
      guild group did not fail; and so on.  Nothing after a failure is named. */
  lemma SummaryMeans(guild: Verdict, friend: Verdict, login: Verdict)
    ensures var (reorders, failure) := Summary([(Guild, guild), (Friend, friend), (LoginGroup, login)]);
            && (Guild in reorders <==> guild.Displaced?)
            && (Friend in reorders <==> !guild.Failed? && friend.Displaced?)
            && (LoginGroup in reorders <==> !guild.Failed? && !friend.Failed? && login.Displaced?)
            && failure == if guild.Failed? then Some(Guild) else if friend.Failed? then Some(Friend)
                          else if login.Failed? then Some(LoginGroup) else None
  {
    var all := [(Guild, guild), (Friend, friend), (LoginGroup, login)];
    var k := FirstFailed(all, 0);
    assert all[0].1 == guild && all[1].1 == friend && all[2].1 == login;
    NotedMeans(all, k, Guild);
    NotedMeans(all, k, Friend);
    NotedMeans(all, k, LoginGroup);
  }

  /** runOrderingSmokeGroups: displaced groups are noted and the run goes on; the first other failure
      ends it before the next group is run. */
  method RunGroups(guild: GuildServer, friend: FriendServer, login: Verdict)
    returns (reorders: seq<Group>, failure: Option<Group>)
    requires !guild.pending
    modifies guild, friend
    ensures (reorders, failure) == Summary([(Guild, guild.Verdict()), (Friend, friend.Verdict()), (LoginGroup, login)])
    ensures failure == Some(Guild) ==> unchanged(friend)
  {
    ghost var all := [(Guild, guild.Verdict()), (Friend, friend.Verdict()), (LoginGroup, login)];
    reorders, failure := [], None;
    for g := 0 to 3
      invariant FirstFailed(all, 0) == FirstFailed(all, g)
      invariant reorders == Noted(all, g) && failure.None?
      invariant g == 0 ==> !guild.pending
      invariant g <= 1 ==> unchanged(friend)
    {
      var verdict;
      if g == 0 {
        verdict := RunGuildGroup(guild);
      } else if g == 1 {
        verdict := RunFriendGroup(friend);
      } else {
        verdict := login;
      }
      var group := if g == 0 then Guild else if g == 1 then Friend else LoginGroup;
      assert all[g] == (group, verdict);
      if verdict.Failed? {
        return reorders, Some(group);
      }
      if verdict.Displaced? {
        reorders := reorders + [group];
      }
    }
  }

  // ---- What can be judged ----

  /** Replies without a conflict are judged exactly if they are those of one of the two orders. */
  lemma JudgedIsExplained(round: GuildRound)
    requires !round.LooksBusy()
    ensures round.Plausible() <==> round.Seen() == (Accepted, Accepted, false) || round.Seen() == (Accepted, NotFound, true)
  {
  }

  lemma FriendJudgedIsExplained(round: FriendRound)
    requires !round.requestFails && !round.listFails && round.Cleans()
    ensures round.Goes() <==>
              round.Seen() == (Accepted, Accepted, false, false) || round.Seen() == (Accepted, Accepted, true, true)
  {
  }
}
