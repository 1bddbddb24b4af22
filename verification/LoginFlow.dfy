/** Login with fallback between authentication paths on one connection (robot/main.go:808-1036,
    robot/login.go:118-192, 359-493), against an arbitrary server, gateway and token service. */
module LoginFlow {
  import opened Keyed

  datatype Auth = AccessToken(token: string) | SaToken(token: string) | Password

  datatype Request = Login(auth: Auth) | CreatePlayer | EnterGame(player: nat)

  /** How one request on the connection ended.  A body may carry a business error; Login and
      CreatePlayer list players, Login may hand out a token, EnterGame returns the player id. */
  datatype Answer =
    | NotSent
    | Stuck
    | Broken
    | Envelope(tip: nat)
    | Undecodable
    | Body(error: bool, players: seq<nat>, token: string, player: nat)
  {
    predicate Clean() { Body? && !error }
  }

  /** The authentication path a request belongs to, in the order they are tried. */
  datatype Path = Reconnect | Gateway | Primary

  function Rank(path: Path): nat { match path case Reconnect => 0 case Gateway => 1 case Primary => 2 }

  /** `upto` counts the messages received on the connection when the request had ended. */
  datatype Event = Event(path: Path, request: Request, answer: Answer, upto: nat)

  type Log = seq<Event>

  function Front(log: Log): Log
    requires log != []
  {
    log[..|log| - 1]
  }

  function Last(log: Log): Event
    requires log != []
  {
    log[|log| - 1]
  }

  // ---- What may be sent when ----

  /** A path starts with Login, and only after the path before it failed without timing out.
      CreatePlayer follows an error-free Login that listed no player; EnterGame follows an error-free
      reply of the same path that listed players, and names the first. */
  predicate Allowed(log: Log, path: Path, request: Request) {
    && (log != [] ==> !Last(log).answer.Stuck?)
    && match request
       case Login(_) =>
         log != [] ==> Rank(Last(log).path) < Rank(path) && !(Last(log).request.EnterGame? && Last(log).answer.Clean())
       case CreatePlayer =>
         && log != [] && Last(log).path == path && Last(log).request.Login?
         && Last(log).answer.Clean() && Last(log).answer.players == []
       case EnterGame(player) =>
         && log != [] && Last(log).path == path && !Last(log).request.EnterGame?
         && Last(log).answer.Clean() && Last(log).answer.players != [] && Last(log).answer.players[0] == player
  }

  predicate Sound(log: Log) {
    log != [] ==> Sound(Front(log)) && Allowed(Front(log), Last(log).path, Last(log).request)
  }

  lemma SoundExtends(log: Log, e: Event)
    requires Sound(log) && Allowed(log, e.path, e.request)
    ensures Sound(log + [e])
  {
    assert Front(log + [e]) == log;
  }

  lemma {:induction false} SoundAt(log: Log, i: nat)
    requires Sound(log) && i < |log|
    ensures Sound(log[..i]) && Allowed(log[..i], log[i].path, log[i].request)
  {
    if i < |log| - 1 {
      SoundAt(Front(log), i);
      assert Front(log)[..i] == log[..i];
    }
  }

  /** Nothing is sent on a connection after a handshake on it timed out. */
  lemma {:induction false} NothingAfterStuck(log: Log, i: nat)
    requires Sound(log) && i < |log| && log[i].answer.Stuck?
    ensures i == |log| - 1
  {
    if i + 1 < |log| {
      SoundAt(log, i + 1);
    }
  }

  /** EnterGame is sent only after an error-free Login of the same path, for the first player that
      login or the creation right after it listed. */
  lemma {:induction false} EnterGameFollowsLogin(log: Log, i: nat)
    requires Sound(log) && i < |log| && log[i].request.EnterGame?
    ensures exists j :: i - 2 <= j < i && 0 <= j && log[j].request.Login? && log[j].path == log[i].path && log[j].answer.Clean()
                        && (j == i - 2 ==> log[j].answer.players == [] && log[i - 1].request.CreatePlayer?)
    ensures i > 0 && log[i - 1].answer.Clean() && log[i - 1].answer.players != []
            && log[i - 1].answer.players[0] == log[i].request.player
  {
    SoundAt(log, i);
    assert Last(log[..i]) == log[i - 1];
    if log[i - 1].request.CreatePlayer? {
      SoundAt(log, i - 1);
      assert Last(log[..i - 1]) == log[i - 2];
      assert log[i - 2].request.Login?;
    } else {
      assert log[i - 1].request.Login?;
    }
  }

  /** Where in its path a request can come at the latest. */
  function Stage(request: Request): nat { match request case Login(_) => 1 case CreatePlayer => 2 case EnterGame(_) => 3 }

  /** At most three paths of at most three requests. */
  lemma {:induction false} LogIsShort(log: Log)
    requires Sound(log)
    ensures log != [] ==> |log| <= 3 * Rank(Last(log).path) + Stage(Last(log).request)
  {
    if log != [] {
      LogIsShort(Front(log));
    }
  }

  // ---- What is heard on the wire ----

  /** One thing RecvOne can return: a message, an error, or nothing before the deadline. */
  datatype Incoming = Message(id: nat, tip: nat, body: Option<Answer>) | Failure | Silence

  function MessageId(request: Request): nat {
    match request case Login(_) => 48 case CreatePlayer => 14 case EnterGame(_) => 26
  }

  /** Replies are told apart by the message ids of the protocol. */
  lemma RepliesAreToldApart(auth: Auth, player: nat)
    ensures MessageId(Login(auth)) == 48 && MessageId(CreatePlayer) == 14 && MessageId(EnterGame(player)) == 26
  {
  }

  /** What a matching message means: an envelope tip wins over the body. */
  function Decode(m: Incoming): Answer
    requires m.Message?
  {
    if m.tip != 0 then Envelope(m.tip)
    else if m.body.Some? && m.body.value.Body? then m.body.value
    else Undecodable
  }

  /** A reply lets the login go on exactly if its envelope carries no tip and its body no error; then the
      body is handed on as it is. */
  lemma EnvelopeWins(m: Incoming)
    requires m.Message?
    ensures Decode(m).Clean() <==> m.tip == 0 && m.body.Some? && m.body.value.Clean()
    ensures Decode(m).Body? ==> m.tip == 0 && m.body == Some(Decode(m))
    ensures m.tip != 0 ==> Decode(m) == Envelope(m.tip)
  {
  }

  /** What arrives, which sends fail, and how many messages fit into the n-th handshake's budget. */
  datatype Wire = Wire(incoming: nat -> Incoming, sendFails: nat -> bool, patience: nat -> nat)

  /** A message for somebody else. */
  predicate Foreign(m: Incoming, request: Request) { m.Message? && m.id != MessageId(request) }

  /** The message that ends a wait: the reply, or an error. */
  predicate Concludes(m: Incoming, request: Request, answer: Answer) {
    (m == Failure && answer == Broken) || (m.Message? && m.id == MessageId(request) && answer == Decode(m))
  }

  ghost predicate AllForeign(wire: Wire, a: nat, b: nat, request: Request) {
    forall i :: a <= i < b ==> Foreign(wire.incoming(i), request)
  }

  /** Handshake number n, which finds message a next on the wire, ends with this answer and leaves message
      b next: it was not sent; or the first message not for somebody else concluded it within the
      budget; or there was none before the budget ended or the line fell silent. */
  ghost predicate Exchange(wire: Wire, n: nat, a: nat, b: nat, request: Request, answer: Answer) {
    if wire.sendFails(n) then b == a && answer == NotSent
    else if answer == Stuck then
      && a <= b <= a + wire.patience(n) && AllForeign(wire, a, b, request)
      && (b == a + wire.patience(n) || wire.incoming(b) == Silence)
    else
      && a < b <= a + wire.patience(n) && AllForeign(wire, a, b - 1, request)
      && Concludes(wire.incoming(b - 1), request, answer)
  }

  /** Where an exchange ended: at its budget, at silence, or behind a message for this request. */
  lemma StopsAt(wire: Wire, n: nat, a: nat, b: nat, request: Request, answer: Answer)
    requires Exchange(wire, n, a, b, request, answer) && !wire.sendFails(n)
    ensures answer == Stuck ==> b == a + wire.patience(n) || !Foreign(wire.incoming(b), request)
    ensures answer != Stuck ==> a < b && !Foreign(wire.incoming(b - 1), request)
  {
  }

  lemma NotLater(wire: Wire, n: nat, a: nat, b: nat, answer: Answer, b': nat, answer': Answer, request: Request)
    requires Exchange(wire, n, a, b, request, answer) && Exchange(wire, n, a, b', request, answer')
    ensures b <= b'
  {
    if !wire.sendFails(n) {
      StopsAt(wire, n, a, b', request, answer');
    }
  }

  /** An exchange has one result. */
  lemma ExchangeIsDetermined(wire: Wire, n: nat, a: nat, b: nat, answer: Answer, b': nat, answer': Answer, request: Request)
    requires Exchange(wire, n, a, b, request, answer) && Exchange(wire, n, a, b', request, answer')
    ensures b == b' && answer == answer'
  {
    NotLater(wire, n, a, b, answer, b', answer', request);
    NotLater(wire, n, a, b', answer', b, answer, request);
  }

  /** The messages for somebody else among a to b - 1, in order. */
  function Others(wire: Wire, a: nat, b: nat, request: Request): seq<Incoming>
    requires a <= b
  {
    if a == b then []
    else Others(wire, a, b - 1, request) + if Foreign(wire.incoming(b - 1), request) then [wire.incoming(b - 1)] else []
  }

  /** The next message after a log. */
  function Position(log: Log): nat { if log == [] then 0 else Last(log).upto }

  /** Every answer of the log is what was heard on the wire. */
  ghost predicate Heard(wire: Wire, log: Log) {
    log != [] ==>
      && Heard(wire, Front(log))
      && Exchange(wire, |log| - 1, Position(Front(log)), Last(log).upto, Last(log).request, Last(log).answer)
  }

  lemma {:induction false} HeardAt(wire: Wire, log: Log, i: nat)
    requires Heard(wire, log) && i < |log|
    ensures Exchange(wire, i, Position(log[..i]), log[i].upto, log[i].request, log[i].answer)
  {
    if i < |log| - 1 {
      HeardAt(wire, Front(log), i);
      assert Front(log)[..i] == log[..i];
    }
  }

  /** What a log leaves for later delivery. */
  function Deferred(wire: Wire, log: Log): seq<Incoming> {
    if log == [] then []
    else
      var a, b := Position(Front(log)), Last(log).upto;
      Deferred(wire, Front(log)) + if a <= b then Others(wire, a, b, Last(log).request) else []
  }

  /** Nothing is swallowed: a message received is deferred, unless it ended a handshake. */
  lemma {:induction false} NothingSwallowed(wire: Wire, log: Log, i: nat)
    requires Heard(wire, log) && i < Position(log)
    ensures wire.incoming(i) in Deferred(wire, log)
            || exists k :: 0 <= k < |log| && log[k].upto == i + 1 && Concludes(wire.incoming(i), log[k].request, log[k].answer)
  {
    var front, last := Front(log), Last(log);
    if i < Position(front) {
      NothingSwallowed(wire, front, i);
      if wire.incoming(i) !in Deferred(wire, front) {
        var k :| 0 <= k < |front| && front[k].upto == i + 1 && Concludes(wire.incoming(i), front[k].request, front[k].answer);
        assert log[k] == front[k];
      }
    } else if Foreign(wire.incoming(i), last.request) {
      ForeignIsKept(wire, Position(front), last.upto, last.request, i);
    } else {
      assert log[|log| - 1] == last;
    }
  }

  lemma {:induction false} ForeignIsKept(wire: Wire, a: nat, b: nat, request: Request, i: nat)
    requires a <= i < b && Foreign(wire.incoming(i), request)
    ensures wire.incoming(i) in Others(wire, a, b, request)
  {
    if i < b - 1 {
      ForeignIsKept(wire, a, b - 1, request, i);
    }
  }

  // ---- What is sent next ----

  datatype GatewayReply = Unreachable | GatewayReply(code: int, token: string)

  /** Configuration and the services outside the connection. */
  datatype Setup = Setup(
    satoken: bool, useHttpLogin: bool, prevToken: string, prevExpire: int, now: int,
    saTokenForGateway: Option<string>, saTokenForLogin: Option<string>, gateway: GatewayReply)
  {
    /** A cached token is tried only with more than a minute left. */
    predicate CanReconnect() { prevToken != "" && (prevExpire == 0 || now < prevExpire - 60) }

    /** /api/login handed out an access token. */
    predicate GatewayGrants() {
      (satoken ==> saTokenForGateway.Some?) && gateway.GatewayReply? && gateway.code == 0 && gateway.token != ""
    }

    /** The credential of each path, if the path can be tried at all. */
    function Credential(path: Path): Option<Auth> {
      match path
      case Reconnect => if CanReconnect() then Some(AccessToken(prevToken)) else None
      case Gateway => if useHttpLogin && GatewayGrants() then Some(AccessToken(gateway.token)) else None
      case Primary =>
        if !satoken then Some(Password) else if saTokenForLogin.Some? then Some(SaToken(saTokenForLogin.value)) else None
    }
  }

  datatype Plan = Send(path: Path, request: Request) | Finish

  /** The first path that can be tried, from a rank on. */
  function Begin(setup: Setup, rank: nat): Plan {
    if rank <= 0 && setup.Credential(Reconnect).Some? then Send(Reconnect, Login(setup.Credential(Reconnect).value))
    else if rank <= 1 && setup.Credential(Gateway).Some? then Send(Gateway, Login(setup.Credential(Gateway).value))
    else if rank <= 2 && setup.Credential(Primary).Some? then Send(Primary, Login(setup.Credential(Primary).value))
    else Finish
  }

  /** What comes after an event: the next request of its path while that goes well, nothing after a
      timeout or success, and else the next path. */
  function Continue(setup: Setup, e: Event): Plan {
    if e.answer.Stuck? then Finish
    else if !e.answer.Clean() then Begin(setup, Rank(e.path) + 1)
    else if e.request.EnterGame? then Finish
    else if e.answer.players != [] then Send(e.path, EnterGame(e.answer.players[0]))
    else if e.request.Login? then Send(e.path, CreatePlayer)
    else Begin(setup, Rank(e.path) + 1)
  }

  function Next(setup: Setup, log: Log): Plan { if log == [] then Begin(setup, 0) else Continue(setup, Last(log)) }

  /** Every request of the log was the next one when it was sent. */
  predicate Follows(setup: Setup, log: Log) {
    log != [] ==> Follows(setup, Front(log)) && Next(setup, Front(log)) == Send(Last(log).path, Last(log).request)
  }

  lemma {:induction false} FollowsAt(setup: Setup, log: Log, i: nat)
    requires Follows(setup, log) && i < |log|
    ensures Next(setup, log[..i]) == Send(log[i].path, log[i].request)
  {
    if i < |log| - 1 {
      FollowsAt(setup, Front(log), i);
      assert Front(log)[..i] == log[..i];
    }
  }

  /** Such a log is sound, and every path logs in with its own credential. */
  lemma {:induction false} FollowsIsSound(setup: Setup, log: Log)
    requires Follows(setup, log)
    ensures Sound(log)
    ensures forall i :: 0 <= i < |log| && log[i].request.Login? ==> setup.Credential(log[i].path) == Some(log[i].request.auth)
  {
    if log != [] {
      FollowsIsSound(setup, Front(log));
      assert forall i :: 0 <= i < |log| - 1 ==> log[i] == Front(log)[i];
    }
  }

  /** A path ends with a request other than Login only if that came after its Login. */
  lemma {:induction false} PathOfLog(setup: Setup, log: Log)
    requires Follows(setup, log) && log != []
    ensures Tried(log, Last(log).path)
  {
    if Last(log).request.Login? {
      assert log[|log| - 1].request.Login?;
    } else {
      PathOfLog(setup, Front(log));
      TriedStays(log, Last(log).path);
    }
  }

  ghost predicate Tried(log: Log, path: Path) { exists i :: 0 <= i < |log| && log[i].path == path && log[i].request.Login? }

  lemma TriedStays(log: Log, path: Path)
    requires log != [] && Tried(Front(log), path)
    ensures Tried(log, path)
  {
    var i :| 0 <= i < |Front(log)| && Front(log)[i].path == path && Front(log)[i].request.Login?;
    assert log[i] == Front(log)[i];
  }

  /** The paths are tried in order, none that can be tried is left out. */
  lemma {:induction false} TriedInOrder(setup: Setup, log: Log, path: Path)
    requires Follows(setup, log) && log != [] && Rank(path) <= Rank(Last(log).path) && setup.Credential(path).Some?
    ensures Tried(log, path)
  {
    if path == Last(log).path {
      PathOfLog(setup, log);
    } else {
      if Front(log) != [] && Rank(path) <= Rank(Last(Front(log)).path) {
        TriedInOrder(setup, Front(log), path);
        TriedStays(log, path);
      }
    }
  }

  /** A login that is refused tried every path that can be tried. */
  lemma RefusedTriedAll(setup: Setup, log: Log, path: Path)
    requires Follows(setup, log) && Next(setup, log) == Finish && ResultOf(log) == Refused && setup.Credential(path).Some?
    ensures Tried(log, path)
  {
    if log != [] && Rank(path) <= Rank(Last(log).path) {
      TriedInOrder(setup, log, path);
    }
  }

  /** In a finished login every error-free reply is followed up on its path: a Login without players by
      CreatePlayer, and players by EnterGame with the first. */
  lemma GoodReplyGoesOn(setup: Setup, log: Log, i: nat)
    requires Follows(setup, log) && Next(setup, log) == Finish
    requires i < |log| && log[i].answer.Clean() && !log[i].request.EnterGame?
    ensures log[i].answer.players != [] ==>
              i + 1 < |log| && log[i + 1].path == log[i].path && log[i + 1].request == EnterGame(log[i].answer.players[0])
    ensures log[i].answer.players == [] && log[i].request.Login? ==>
              i + 1 < |log| && log[i + 1].path == log[i].path && log[i + 1].request == CreatePlayer
  {
    if i + 1 < |log| {
      FollowsAt(setup, log, i + 1);
      assert Last(log[..i + 1]) == log[i];
    }
  }

  /** A cached token is tried, and first, exactly if it has more than a minute left. */
  lemma ReconnectComesFirst(setup: Setup, log: Log)
    requires Follows(setup, log) && Next(setup, log) == Finish
    ensures log != [] && log[0].path == Reconnect && log[0].request == Login(AccessToken(setup.prevToken))
            <==> setup.prevToken != "" && (setup.prevExpire == 0 || setup.prevExpire - setup.now > 60)
  {
    if log != [] {
      FollowsAt(setup, log, 0);
    }
  }

  /** A timeout is real: the budget was used up on other messages, or the line was silent. */
  lemma TimeoutIsReal(wire: Wire, log: Log, i: nat)
    requires Heard(wire, log) && i < |log| && log[i].answer.Stuck?
    ensures !wire.sendFails(i) && AllForeign(wire, Position(log[..i]), log[i].upto, log[i].request)
    ensures log[i].upto == Position(log[..i]) + wire.patience(i) || wire.incoming(log[i].upto) == Silence
  {
    HeardAt(wire, log, i);
  }

  datatype Result = Entered(player: nat) | TimedOut | Refused

  /** What a finished login reports, read off its last event. */
  function ResultOf(log: Log): Result {
    if log != [] && Last(log).request.EnterGame? && Last(log).answer.Clean() then Entered(Last(log).answer.player)
    else if log != [] && Last(log).answer.Stuck? then TimedOut
    else Refused
  }

  /** It has entered exactly if the last request was an error-free EnterGame, with the player its reply
      names, and timed out exactly if that got no reply. */
  lemma ResultMeans(log: Log, player: nat)
    ensures ResultOf(log) == Entered(player) <==>
              log != [] && Last(log).request.EnterGame? && Last(log).answer.Clean() && Last(log).answer.player == player
    ensures ResultOf(log) == TimedOut <==> log != [] && Last(log).answer.Stuck?
  {
  }

  /** The access token held after a log: the gateway hands one out before its path begins; a Login with
      other credentials brings a new one; access-token logins keep it. */
  function TokenAfter(setup: Setup, initial: string, log: Log): string {
    if log == [] then initial
    else
      var token := TokenAfter(setup, initial, Front(log));
      if !Last(log).request.Login? then token
      else if Last(log).path == Gateway && setup.gateway.GatewayReply? then setup.gateway.token
      else if !Last(log).request.auth.AccessToken? && Last(log).answer.Clean() && Last(log).answer.token != ""
      then Last(log).answer.token
      else token
  }

  /** A Login with a password or SA token brings the token its reply carries; the gateway's token is held
      once its path has begun. */
  lemma LoginBringsToken(setup: Setup, initial: string, log: Log)
    requires Follows(setup, log) && log != [] && Last(log).request.Login?
    ensures Last(log).path == Primary && Last(log).answer.Clean() && Last(log).answer.token != "" ==>
              TokenAfter(setup, initial, log) == Last(log).answer.token
    ensures Last(log).path == Gateway ==> setup.gateway.GatewayReply? && TokenAfter(setup, initial, log) == setup.gateway.token
  {
    FollowsIsSound(setup, log);
    assert log[|log| - 1].request.Login?;
  }

  /** The credentials: the cached token, the gateway's token, and an SA token or the password. */
  lemma CredentialsMean(setup: Setup, log: Log, i: nat)
    requires Follows(setup, log) && i < |log| && log[i].request.Login?
    ensures log[i].path == Reconnect ==> log[i].request.auth == AccessToken(setup.prevToken)
    ensures log[i].path == Gateway ==>
              setup.useHttpLogin && setup.gateway.GatewayReply? && setup.gateway.code == 0
              && log[i].request.auth == AccessToken(setup.gateway.token)
    ensures log[i].path == Primary && !setup.satoken ==> log[i].request.auth == Password
    ensures log[i].path == Primary && setup.satoken ==>
              setup.saTokenForLogin.Some? && log[i].request.auth == SaToken(setup.saTokenForLogin.value)
  {
    FollowsIsSound(setup, log);
  }

  /** A login that succeeds over the cached token keeps the token. */
  lemma {:induction false} ReconnectKeepsToken(setup: Setup, initial: string, log: Log)
    requires Follows(setup, log) && log != [] && Last(log).path == Reconnect
    ensures TokenAfter(setup, initial, log) == initial
  {
    if Front(log) != [] {
      ReconnectKeepsToken(setup, initial, Front(log));
    }
  }

  lemma LoginsAgreeAt(setup: Setup, wire: Wire, a: Log, b: Log, i: nat)
    requires Follows(setup, a) && Heard(wire, a) && Follows(setup, b) && Heard(wire, b)
    requires i < |a| && i < |b| && a[..i] == b[..i]
    ensures a[i] == b[i]
  {
    FollowsAt(setup, a, i);
    FollowsAt(setup, b, i);
    HeardAt(wire, a, i);
    HeardAt(wire, b, i);
    ExchangeIsDetermined(wire, i, Position(a[..i]), a[i].upto, a[i].answer, b[i].upto, b[i].answer, a[i].request);
  }

  lemma LoginsAgree(setup: Setup, wire: Wire, a: Log, b: Log, n: nat)
    requires Follows(setup, a) && Heard(wire, a) && Follows(setup, b) && Heard(wire, b) && n <= |a| && n <= |b|
    ensures a[..n] == b[..n]
  {
    forall i | 0 <= i < n && a[..i] == b[..i]
      ensures a[i] == b[i]
    {
      LoginsAgreeAt(setup, wire, a, b, i);
    }
    AgreeStepByStep(a, b, n);
  }

  lemma NoLonger(setup: Setup, wire: Wire, a: Log, b: Log)
    requires Follows(setup, a) && Heard(wire, a) && Next(setup, a) == Finish && Follows(setup, b) && Heard(wire, b)
    ensures |b| <= |a|
  {
    if |a| < |b| {
      LoginsAgree(setup, wire, a, b, |a|);
      assert a[..|a|] == a;
      FollowsAt(setup, b, |a|);
    }
  }

  /** A configuration and a wire have one finished login. */
  lemma LoginIsDetermined(setup: Setup, wire: Wire, a: Log, b: Log)
    requires Follows(setup, a) && Heard(wire, a) && Next(setup, a) == Finish
    requires Follows(setup, b) && Heard(wire, b) && Next(setup, b) == Finish
    ensures a == b
  {
    NoLonger(setup, wire, a, b);
    NoLonger(setup, wire, b, a);
    LoginsAgree(setup, wire, a, b, |a|);
    assert a[..|a|] == a && b[..|b|] == b;
  }

  // ---- The connection ----

  class Connection {
    const wire: Wire
    var received: nat
    var deferred: seq<Incoming>
    var log: Log
    var accessToken: string

    constructor (wire: Wire, accessToken: string)
      ensures this.wire == wire && log == [] && this.accessToken == accessToken && Valid()
    {
      this.wire, this.accessToken := wire, accessToken;
      received, deferred, log := 0, [], [];
    }

    /** What was received and put aside is what the log says. */
    ghost predicate Valid()
      reads this
    {
      Heard(wire, log) && received == Position(log) && deferred == Deferred(wire, log)
    }

    /** Takes messages until one concludes the request or the budget ends; every other one is put aside. */
    method Receive(request: Request) returns (answer: Answer)
      requires !wire.sendFails(|log|)
      modifies `received, `deferred
      ensures Exchange(wire, |log|, old(received), received, request, answer) && old(received) <= received
      ensures deferred == old(deferred) + Others(wire, old(received), received, request)
    {
      ghost var first := received;
      var taken := 0;
      while taken < wire.patience(|log|)
        invariant first <= received == first + taken <= first + wire.patience(|log|)
        invariant AllForeign(wire, first, received, request)
        invariant deferred == old(deferred) + Others(wire, first, received, request)
      {
        var m := wire.incoming(received);
        if m == Silence {
          break;
        }
        received := received + 1;
        if m == Failure {
          return Broken;
        }
        if m.id == MessageId(request) {
          return Decode(m);
        }
        deferred := deferred + [m];
        taken := taken + 1;
      }
      answer := Stuck;
    }

    /** sendAndRecv: sends a request and waits for its reply. */
    method SendAndRecv(path: Path, request: Request, ghost setup: Setup) returns (answer: Answer)
      requires Valid() && Follows(setup, log) && Next(setup, log) == Send(path, request)
      modifies `received, `deferred, `log
      ensures Valid() && Follows(setup, log) && log != [] && Front(log) == old(log)
      ensures Last(log) == Event(path, request, answer, received)
      ensures answer.NotSent? <==> wire.sendFails(|old(log)|)
    {
      ghost var before := log;
      answer := NotSent;
      if !wire.sendFails(|log|) {
        answer := Receive(request);
      }
      log := log + [Event(path, request, answer, received)];
      assert Front(log) == before;
    }
  }

  /** The second half of every path: create a player if there is none, then enter with the first. */
  method Enter(conn: Connection, path: Path, listed: seq<nat>, ghost setup: Setup, ghost initial: string) returns (result: Result)
    requires conn.Valid() && Follows(setup, conn.log) && conn.accessToken == TokenAfter(setup, initial, conn.log)
    requires conn.log != [] && Last(conn.log).path == path && Last(conn.log).request.Login?
    requires Last(conn.log).answer.Clean() && Last(conn.log).answer.players == listed
    modifies conn
    ensures conn.Valid() && Follows(setup, conn.log) && conn.accessToken == TokenAfter(setup, initial, conn.log)
    ensures Leaves(setup, conn.log, path, result)
  {
    var players := listed;
    if players == [] {
      var created := conn.SendAndRecv(path, CreatePlayer, setup);
      if !created.Clean() {
        return Failed(created);
      }
      players := created.players;
    }
    if players == [] {
      return Refused;
    }
    var entered := conn.SendAndRecv(path, EnterGame(players[0]), setup);
    if !entered.Clean() {
      return Failed(entered);
    }
    result := Entered(entered.player);
  }

  function Failed(answer: Answer): Result { if answer.Stuck? then TimedOut else Refused }

  /** A path that is over: refused, so that the next one comes, or else finished. */
  ghost predicate Leaves(setup: Setup, log: Log, path: Path, result: Result) {
    && log != [] && Last(log).path == path && result == ResultOf(log)
    && Next(setup, log) == if result.Refused? then Begin(setup, Rank(path) + 1) else Finish
  }

  /** The handshake all paths share: login, create a player if there is none, enter the game. */
  method LoginAndEnter(conn: Connection, path: Path, auth: Auth, ghost setup: Setup, ghost initial: string)
    returns (result: Result)
    requires conn.Valid() && Follows(setup, conn.log) && Next(setup, conn.log) == Send(path, Login(auth))
    requires path == Gateway ==> setup.gateway.GatewayReply? && conn.accessToken == setup.gateway.token && auth.AccessToken?
    requires path != Gateway ==> conn.accessToken == TokenAfter(setup, initial, conn.log)
    modifies conn
    ensures conn.Valid() && Follows(setup, conn.log) && conn.accessToken == TokenAfter(setup, initial, conn.log)
    ensures Leaves(setup, conn.log, path, result)
  {
    var login := conn.SendAndRecv(path, Login(auth), setup);
    if !login.Clean() {
      return Failed(login);
    }
    if !auth.AccessToken? && login.token != "" {
      conn.accessToken := login.token;
    }
    result := Enter(conn, path, login.players, setup, initial);
  }

  /** loginAndEnterViaHttpGateway: without a token from the gateway nothing is sent. */
  method LoginViaGateway(conn: Connection, setup: Setup, ghost initial: string) returns (result: Result)
    requires conn.Valid() && Follows(setup, conn.log) && conn.accessToken == TokenAfter(setup, initial, conn.log)
    requires setup.useHttpLogin && Next(setup, conn.log) == Begin(setup, 1)
    modifies conn
    ensures conn.Valid() && Follows(setup, conn.log) && conn.accessToken == TokenAfter(setup, initial, conn.log)
    ensures if setup.GatewayGrants() then Leaves(setup, conn.log, Gateway, result) else conn.log == old(conn.log) && result == Refused
  {
    if setup.satoken && setup.saTokenForGateway.None? {
      return Refused;
    }
    if setup.gateway.Unreachable? || setup.gateway.code != 0 || setup.gateway.token == "" {
      return Refused;
    }
    conn.accessToken := setup.gateway.token;
    result := LoginAndEnter(conn, Gateway, AccessToken(setup.gateway.token), setup, initial);
  }

  /** loginAndEnterWithAuth: tries the cached token, the HTTP gateway and the configured primary path in
      turn, and falls back after any failure except a timeout.  Its log is the one login that the
      configuration and the wire determine. */
  method LoginAndEnterWithAuth(conn: Connection, setup: Setup) returns (result: Result)
    requires conn.Valid() && conn.log == []
    modifies conn
    ensures conn.Valid() && Follows(setup, conn.log) && Next(setup, conn.log) == Finish
    ensures result == ResultOf(conn.log) && conn.accessToken == TokenAfter(setup, old(conn.accessToken), conn.log)
  {
    ghost var initial := conn.accessToken;
    if setup.CanReconnect() {
      result := LoginAndEnter(conn, Reconnect, AccessToken(setup.prevToken), setup, initial);
      if !result.Refused? {
        return;
      }
    }
    if setup.useHttpLogin {
      result := LoginViaGateway(conn, setup, initial);
      if !result.Refused? {
        return;
      }
    }
    if setup.satoken {
      if setup.saTokenForLogin.None? {
        return Refused;
      }
      result := LoginAndEnter(conn, Primary, SaToken(setup.saTokenForLogin.value), setup, initial);
    } else {
      result := LoginAndEnter(conn, Primary, Password, setup, initial);
    }
  }
}
