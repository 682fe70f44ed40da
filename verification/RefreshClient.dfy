/**
 One ApiClient of src/services/api.ts against the refresh handler. Requests that come back with
 401 share one refresh call (`refreshPromise`); when it settles, they are woken one after the
 other, store what it returned and are sent once more.

 The only scheduling fact used is the one JavaScript gives: the answer of a later network call is
 not handled before the requests woken by an earlier one have run.
 */
module RefreshClient {
  import opened Wrappers
  import opened GraceStore
  import opened RefreshRotation
  import opened RefreshRotationProofs

  type CallId = nat
  type RequestId = nat

  datatype Outcome = Renewed(token: Token) | Failed

  // A refresh call: on its way to the server, inside the await of the handler, or answered.
  datatype Call = OnTheWay(token: Token) | InAwait(token: Token) | Settled(outcome: Outcome)

  datatype Phase = InFlight | Waiting(call: CallId) | Woken(outcome: Outcome) | Retrying | Done

  datatype Request = Request(phase: Phase, sends: nat)

  datatype Client = Client(
    stored: Option<Token>,
    promise: Option<CallId>,
    calls: map<CallId, Call>,
    requests: map<RequestId, Request>,
    nextCall: CallId)

  datatype Joint = Joint(server: Server, client: Client)

  // ---------- steps of the client ----------

  ghost predicate Send(c: Client, q: RequestId, d: Client) {
    q !in c.requests && d == c.(requests := c.requests[q := Request(InFlight, 1)])
  }

  ghost predicate In(c: Client, q: RequestId, phase: Phase) { q in c.requests && c.requests[q].phase == phase }

  // Any answer that is not handled as an expired token, and the answer to the second sending.
  ghost predicate Answer(c: Client, q: RequestId, d: Client) {
    (In(c, q, InFlight) || In(c, q, Retrying)) && d == c.(requests := c.requests[q := c.requests[q].(phase := Done)])
  }

  ghost predicate Unauthorized(c: Client, q: RequestId, d: Client) {
    && In(c, q, InFlight) && c.stored.Some?
    && match c.promise
       case Some(k) => d == c.(requests := c.requests[q := c.requests[q].(phase := Waiting(k))])
       case None =>
         var k := c.nextCall;
         d == c.(calls := c.calls[k := OnTheWay(c.stored.value)], promise := Some(k), nextCall := k + 1,
                 requests := c.requests[q := c.requests[q].(phase := Waiting(k))])
  }

  ghost predicate SomeoneWoken(c: Client) {
    exists q :: q in c.requests && c.requests[q].phase.Woken?
  }

  // `.finally` clears the promise, and everybody who waited is woken.
  ghost predicate Deliver(c: Client, k: CallId, d: Client) {
    && k in c.calls && c.calls[k].Settled? && !SomeoneWoken(c)
    && d == c.(calls := c.calls - {k}, promise := None,
               requests := map q | q in c.requests ::
                 if c.requests[q].phase == Waiting(k) then c.requests[q].(phase := Woken(c.calls[k].outcome)) else c.requests[q])
  }

  ghost predicate Resume(c: Client, q: RequestId, d: Client) {
    && q in c.requests && c.requests[q].phase.Woken?
    && match c.requests[q].phase.outcome
       case Renewed(u) => d == c.(stored := Some(u), requests := c.requests[q := Request(Retrying, c.requests[q].sends + 1)])
       case Failed => d == c.(stored := None, requests := c.requests[q := c.requests[q].(phase := Done)])
  }

  // The second sending fails on the network: the client clears its session.
  ghost predicate Abort(c: Client, q: RequestId, d: Client) {
    In(c, q, Retrying) && d == c.(stored := None, requests := c.requests[q := c.requests[q].(phase := Done)])
  }

  ghost function WithCall(c: Client, k: CallId, call: Call): Client { c.(calls := c.calls[k := call]) }

  // The network may lose a call or its answer at any point; the client sees a failure.
  ghost predicate Lose(c: Client, k: CallId, d: Client) {
    k in c.calls && d == WithCall(c, k, Settled(Failed))
  }

  // ---------- steps of both ----------

  ghost predicate Reach(j: Joint, k: CallId, active: bool, drawn: Token, reply: Reply, r: Joint) {
    && k in j.client.calls && j.client.calls[k].OnTheWay?
    && var t := j.client.calls[k].token;
    && drawn !in j.server.births
    && Begin(j.server, t, active, drawn, r.server, reply)
    && r.client == WithCall(j.client, k,
         match reply
         case Granted(u, _) => Settled(Renewed(u))
         case Refused(_) => Settled(Failed)
         case Suspended => InAwait(t))
  }

  ghost predicate Complete(j: Joint, k: CallId, access: string, r: Joint) {
    && k in j.client.calls && j.client.calls[k].InAwait?
    && var t := j.client.calls[k].token;
    && t in j.server.pending
    && r == Joint(Finish(j.server, t, access), WithCall(j.client, k, Settled(Renewed(j.server.pending[t]))))
  }

  // What else happens on the server. Nobody else presents tokens of this session, and the
  // rotation inside the await of a call of this client is completed by that call.
  ghost predicate Elsewhere(j: Joint, sid: SessionId, a: Action) {
    && (a.DoBegin? ==> a.t in j.server.births ==> j.server.births[a.t].sid != sid)
    && (a.DoFinish? ==> forall k | k in j.client.calls :: j.client.calls[k] != InAwait(a.t))
  }

  datatype Event =
    | Sends(q: RequestId)
    | Answers(q: RequestId)
    | Unauthorizes(q: RequestId)
    | Delivers(k: CallId)
    | Resumes(q: RequestId)
    | Aborts(q: RequestId)
    | Loses(k: CallId)
    | Reaches(k: CallId, active: bool, drawn: Token, reply: Reply)
    | Completes(k: CallId, access: string)
    | Other(a: Action)

  ghost predicate Moves(j: Joint, sid: SessionId, e: Event, r: Joint) {
    match e
    case Sends(q) => Send(j.client, q, r.client) && r.server == j.server
    case Answers(q) => Answer(j.client, q, r.client) && r.server == j.server
    case Unauthorizes(q) => Unauthorized(j.client, q, r.client) && r.server == j.server
    case Delivers(k) => Deliver(j.client, k, r.client) && r.server == j.server
    case Resumes(q) => Resume(j.client, q, r.client) && r.server == j.server
    case Aborts(q) => Abort(j.client, q, r.client) && r.server == j.server
    case Loses(k) => Lose(j.client, k, r.client) && r.server == j.server
    case Reaches(k, active, drawn, reply) => Reach(j, k, active, drawn, reply, r)
    case Completes(k, access) => Complete(j, k, access, r)
    case Other(a) => Elsewhere(j, sid, a) && Next(j.server, a, r.server) && r.client == j.client
  }

  // Right after a login that gave the client the first token of its session.
  ghost predicate Begins(j: Joint, sid: SessionId) {
    && Inv(j.server) && sid in j.server.newest
    && j.server.newest[sid] in j.server.sent
    && j.client == Client(Some(j.server.newest[sid]), None, map[], map[], 0)
  }

  // ---------- the invariant ----------

  // The newest token of the session or the one it replaced, and known to clients.
  ghost predicate Near(s: Server, sid: SessionId, t: Token) {
    && sid in s.newest && t in s.sent
    && (s.newest[sid] == t || Maps(s.next, t, s.newest[sid]))
  }

  ghost predicate Newest(s: Server, sid: SessionId, t: Token) {
    t in s.sent && Maps(s.newest, sid, t)
  }

  // At most one call is outstanding, it is the one `refreshPromise` stands for, and everybody waits for it.
  ghost predicate SingleFlight(c: Client) {
    && (forall k | k in c.calls :: c.promise == Some(k))
    && (c.promise.Some? ==> c.promise.value in c.calls)
    && (forall q | q in c.requests && c.requests[q].phase.Waiting? :: c.promise == Some(c.requests[q].phase.call))
  }

  ghost predicate SentTwiceAtMost(c: Client) {
    forall q | q in c.requests :: c.requests[q].sends == match c.requests[q].phase
      case Retrying => 2
      case Done => c.requests[q].sends
      case _ => 1
  }

  ghost predicate WokenWith(c: Client, q: RequestId, u: Token) { In(c, q, Woken(Renewed(u))) }

  ghost predicate TokensNear(s: Server, sid: SessionId, c: Client) {
    && (c.stored.Some? ==> Near(s, sid, c.stored.value))
    && (forall q, u | WokenWith(c, q, u) :: Near(s, sid, u))
    && (forall k | k in c.calls :: match c.calls[k]
          case OnTheWay(t) => Near(s, sid, t)
          case InAwait(t) => t in s.pending && sid in s.newest && Maps(s.next, t, s.newest[sid])
          case Settled(Renewed(u)) => Newest(s, sid, u)
          case Settled(Failed) => true)
  }

  // As long as the server has not yet handled a new call, what woken requests are about to store
  // is the newest token, and a call that presents the newest token was made by a client holding it.
  ghost predicate NotBehind(s: Server, sid: SessionId, c: Client) {
    && ((forall k | k in c.calls :: c.calls[k].OnTheWay?) ==> forall q, u | WokenWith(c, q, u) :: Newest(s, sid, u))
    && (forall k | k in c.calls && c.calls[k].OnTheWay? && Newest(s, sid, c.calls[k].token) ::
          c.stored.None? || c.stored.value == c.calls[k].token)
  }

  ghost predicate JInv(j: Joint, sid: SessionId) {
    && Inv(j.server) && sid in j.server.newest
    && SingleFlight(j.client)
    && (forall q | q in j.client.requests :: 1 <= j.client.requests[q].sends <= 2)
    && SentTwiceAtMost(j.client)
    && TokensNear(j.server, sid, j.client)
    && NotBehind(j.server, sid, j.client)
  }

  // ---------- the client's own steps ----------

  lemma RequestStepKeeps(j: Joint, sid: SessionId, q: RequestId, d: Client)
    requires JInv(j, sid) && (Send(j.client, q, d) || Answer(j.client, q, d) || Abort(j.client, q, d))
    ensures JInv(Joint(j.server, d), sid)
  {
    assert forall p, u | WokenWith(d, p, u) :: WokenWith(j.client, p, u);
  }

  lemma UnauthorizedKeeps(j: Joint, sid: SessionId, q: RequestId, d: Client)
    requires JInv(j, sid) && Unauthorized(j.client, q, d)
    ensures JInv(Joint(j.server, d), sid)
  {
    assert forall p, u | WokenWith(d, p, u) :: WokenWith(j.client, p, u);
  }

  lemma DeliverKeeps(j: Joint, sid: SessionId, k: CallId, d: Client)
    requires JInv(j, sid) && Deliver(j.client, k, d)
    ensures JInv(Joint(j.server, d), sid)
  {
    assert d.calls == map[];
    assert forall p, u | WokenWith(d, p, u) :: j.client.calls[k] == Settled(Renewed(u));
  }

  lemma ResumeKeeps(j: Joint, sid: SessionId, q: RequestId, d: Client)
    requires JInv(j, sid) && Resume(j.client, q, d)
    ensures JInv(Joint(j.server, d), sid)
  {
    assert forall p, u | WokenWith(d, p, u) :: WokenWith(j.client, p, u);
    var o := j.client.requests[q].phase.outcome;
    if o.Renewed? {
      assert WokenWith(j.client, q, o.token);
    }
  }

  lemma LoseKeeps(j: Joint, sid: SessionId, k: CallId, d: Client)
    requires JInv(j, sid) && Lose(j.client, k, d)
    ensures JInv(Joint(j.server, d), sid)
  {
    assert forall p, u | WokenWith(d, p, u) :: WokenWith(j.client, p, u);
  }

  // ---------- the server's steps ----------

  // The server moved, and the newest token of the session did not.
  ghost predicate Undisturbed(s: Server, r: Server, sid: SessionId) {
    && sid in s.newest && sid in r.newest && r.newest[sid] == s.newest[sid]
    && s.sent <= r.sent
    && (forall t, u | Maps(s.next, t, u) :: Maps(r.next, t, u))
  }

  lemma NearStays(s: Server, r: Server, sid: SessionId)
    requires Undisturbed(s, r, sid)
    ensures forall t | Near(s, sid, t) :: Near(r, sid, t)
    ensures forall t | Newest(s, sid, t) :: Newest(r, sid, t)
    ensures forall t | Newest(r, sid, t) && Near(s, sid, t) :: Newest(s, sid, t)
  {
  }

  lemma UndisturbedKeeps(j: Joint, r: Server, sid: SessionId)
    requires JInv(j, sid) && Undisturbed(j.server, r, sid) && Inv(r)
    requires forall k | k in j.client.calls && j.client.calls[k].InAwait? :: j.client.calls[k].token in r.pending
    ensures JInv(Joint(r, j.client), sid)
  {
    NearStays(j.server, r, sid);
  }

  lemma BeginElsewhere(s: Server, sid: SessionId, t: Token, active: bool, drawn: Token, r: Server, reply: Reply)
    requires Inv(s) && sid in s.newest && Presentable(s, t) && Begin(s, t, active, drawn, r, reply)
    requires t in s.births ==> s.births[t].sid != sid
    ensures r.newest == s.newest || (sid in r.newest && r.newest[sid] == s.newest[sid])
    ensures forall x | x in s.pending :: x in r.pending
  {
    if Lookup(s.grace, t, s.now).None? && exists i :: Holds(s, i, t) {
      var looked := s.(grace := AfterLookup(s.grace, t, s.now));
      var i :| Holds(s, i, t) && BeginFound(looked, i, t, active, drawn, r, reply);
      assert Maps(s.newest, i, t);
    }
  }

  lemma OtherKeeps(j: Joint, sid: SessionId, a: Action, r: Server)
    requires JInv(j, sid) && Elsewhere(j, sid, a) && Next(j.server, a, r)
    ensures JInv(Joint(r, j.client), sid)
  {
    StepKeeps(j.server, a, r);
    if a.DoBegin? {
      BeginElsewhere(j.server, sid, a.t, a.active, a.drawn, r, a.reply);
    } else {
      QuietElsewhere(j.server, sid, a, r);
    }
    UndisturbedKeeps(j, r, sid);
  }

  lemma {:induction false} QuietElsewhere(s: Server, sid: SessionId, a: Action, r: Server)
    requires sid in s.newest && !a.DoBegin? && Next(s, a, r)
    ensures sid in r.newest && r.newest[sid] == s.newest[sid]
    ensures forall t | t in s.pending :: t in r.pending || (a.DoFinish? && t == a.t)
  {
  }

  lemma CompleteKeeps(j: Joint, sid: SessionId, k: CallId, access: string, r: Joint)
    requires JInv(j, sid) && Complete(j, k, access, r)
    ensures JInv(r, sid)
  {
    var s := j.server;
    var t := j.client.calls[k].token;
    FinishKeeps(s, t, access);
    assert Maps(s.pending, t, s.pending[t]) && Maps(s.next, t, s.newest[sid]);
    NearStays(s, r.server, sid);
    assert Newest(r.server, sid, s.pending[t]);
    assert forall p, u | WokenWith(r.client, p, u) :: WokenWith(j.client, p, u);
  }

  // A call the server answers at once.
  lemma AnsweredKeeps(j: Joint, sid: SessionId, k: CallId, active: bool, drawn: Token, reply: Reply, r: Joint)
    requires JInv(j, sid) && Reach(j, k, active, drawn, reply, r) && !reply.Suspended?
    ensures JInv(r, sid)
  {
    var s := j.server;
    var t := j.client.calls[k].token;
    assert Near(s, sid, t);
    BeginKeeps(s, t, active, drawn, r.server, reply);
    AnswerExactly(s, t, active, drawn, r.server, reply);
    AnsweredUndisturbed(s, sid, t, active, drawn, r.server, reply);
    NearStays(s, r.server, sid);
    assert forall p, u | WokenWith(r.client, p, u) :: WokenWith(j.client, p, u);
    if reply.Granted? {
      assert Newest(r.server, sid, reply.token);
    }
  }

  lemma AnsweredUndisturbed(s: Server, sid: SessionId, t: Token, active: bool, drawn: Token, r: Server, reply: Reply)
    requires Inv(s) && Near(s, sid, t) && drawn !in s.births && Begin(s, t, active, drawn, r, reply) && !reply.Suspended?
    ensures Undisturbed(s, r, sid)
    ensures reply.Granted? ==> Newest(r, sid, reply.token)
  {
    AnsweredUnchanged(s, t, active, drawn, r, reply);
    if Lookup(s.grace, t, s.now).Some? {
      GraceIsNewest(s, sid, t);
    }
  }

  lemma AnsweredUnchanged(s: Server, t: Token, active: bool, drawn: Token, r: Server, reply: Reply)
    requires Begin(s, t, active, drawn, r, reply) && !reply.Suspended?
    ensures r.newest == s.newest && r.next == s.next && s.sent <= r.sent
    ensures reply.Granted? <==> Lookup(s.grace, t, s.now).Some?
    ensures reply.Granted? ==> reply.token == s.grace[t].token && reply.token in r.sent
  {
    if Lookup(s.grace, t, s.now).None? && exists i :: Holds(s, i, t) {
      var looked := s.(grace := AfterLookup(s.grace, t, s.now));
      var i :| Holds(s, i, t) && BeginFound(looked, i, t, active, drawn, r, reply);
    }
  }

  // What the grace record of a client's token holds is the newest token.
  lemma GraceIsNewest(s: Server, sid: SessionId, t: Token)
    requires Inv(s) && Near(s, sid, t) && t in s.grace
    ensures Maps(s.newest, sid, s.grace[t].token)
  {
    assert Maps(s.next, t, s.grace[t].token);
    assert Maps(s.newest, sid, t) ==> t !in s.next;
  }

  // A call that starts a rotation: the token it presented was the newest one.
  lemma SuspendedRotates(s: Server, sid: SessionId, t: Token, active: bool, drawn: Token, r: Server)
    requires Inv(s) && Near(s, sid, t) && drawn !in s.births && Begin(s, t, active, drawn, r, Suspended)
    ensures Newest(s, sid, t)
    ensures r.sent == s.sent && t in r.pending
    ensures Maps(r.newest, sid, drawn) && Maps(r.next, t, drawn)
  {
    var looked := s.(grace := AfterLookup(s.grace, t, s.now));
    var i :| Holds(s, i, t) && BeginFound(looked, i, t, active, drawn, r, Suspended);
    assert Maps(s.newest, i, t);
    assert t !in s.next;
    assert Maps(s.newest, sid, t);
  }

  lemma SuspendedKeeps(j: Joint, sid: SessionId, k: CallId, active: bool, drawn: Token, r: Joint)
    requires JInv(j, sid) && Reach(j, k, active, drawn, Suspended, r)
    ensures JInv(r, sid)
  {
    var s := j.server;
    var t := j.client.calls[k].token;
    assert Near(s, sid, t);
    BeginKeeps(s, t, active, drawn, r.server, Suspended);
    SuspendedRotates(s, sid, t, active, drawn, r.server);
    assert forall p, u | WokenWith(r.client, p, u) :: WokenWith(j.client, p, u);
    assert forall i | i in j.client.calls :: j.client.calls[i].OnTheWay?;
    assert forall p, u | WokenWith(j.client, p, u) :: u == t;
    assert Near(r.server, sid, t);
  }

  lemma {:induction false} MoveKeeps(j: Joint, sid: SessionId, e: Event, r: Joint)
    requires JInv(j, sid) && Moves(j, sid, e, r)
    ensures JInv(r, sid)
  {
    match e
    case Sends(q) => RequestStepKeeps(j, sid, q, r.client);
    case Answers(q) => RequestStepKeeps(j, sid, q, r.client);
    case Unauthorizes(q) => UnauthorizedKeeps(j, sid, q, r.client);
    case Delivers(k) => DeliverKeeps(j, sid, k, r.client);
    case Resumes(q) => ResumeKeeps(j, sid, q, r.client);
    case Aborts(q) => RequestStepKeeps(j, sid, q, r.client);
    case Loses(k) => LoseKeeps(j, sid, k, r.client);
    case Reaches(k, active, drawn, reply) =>
      if reply.Suspended? {
        SuspendedKeeps(j, sid, k, active, drawn, r);
      } else {
        AnsweredKeeps(j, sid, k, active, drawn, reply, r);
      }
    case Completes(k, access) => CompleteKeeps(j, sid, k, access, r);
    case Other(a) => OtherKeeps(j, sid, a, r.server);
  }

  // ---------- what the client's steps do ----------

  // The first 401 starts a refresh call with the stored token; while one is outstanding, a request
  // waits for that one.
  lemma {:induction false} UnauthorizedExactly(c: Client, q: RequestId, d: Client)
    requires Unauthorized(c, q, d)
    ensures c.requests[q].phase == InFlight && c.stored.Some?
    ensures c.promise.None? ==>
      d == Client(c.stored, Some(c.nextCall), c.calls[c.nextCall := OnTheWay(c.stored.value)],
                  c.requests[q := Request(Waiting(c.nextCall), c.requests[q].sends)], c.nextCall + 1)
    ensures c.promise.Some? ==>
      d == Client(c.stored, c.promise, c.calls, c.requests[q := Request(Waiting(c.promise.value), c.requests[q].sends)], c.nextCall)
  {
  }

  // When a call settles, the next 401 may start another, and exactly the requests that waited for
  // it are woken, with what it returned.
  lemma {:induction false} DeliverExactly(c: Client, k: CallId, outcome: Outcome, d: Client)
    requires Deliver(c, k, d) && c.calls[k] == Settled(outcome)
    ensures d == Client(c.stored, None, c.calls - {k}, d.requests, c.nextCall) && d.requests.Keys == c.requests.Keys
    ensures forall q | q in c.requests ::
      d.requests[q] == if c.requests[q].phase == Waiting(k) then Request(Woken(outcome), c.requests[q].sends) else c.requests[q]
  {
  }

  // What a call returns is what the server answered it.
  lemma {:induction false} ReachExactly(j: Joint, k: CallId, active: bool, drawn: Token, reply: Reply, r: Joint)
    requires Reach(j, k, active, drawn, reply, r)
    ensures j.client.calls[k].OnTheWay? && Begin(j.server, j.client.calls[k].token, active, drawn, r.server, reply)
    ensures r.client == j.client.(calls := r.client.calls) && r.client.calls.Keys == j.client.calls.Keys
    ensures forall i | i in j.client.calls && i != k :: r.client.calls[i] == j.client.calls[i]
    ensures reply.Granted? ==> r.client.calls[k] == Settled(Renewed(reply.token))
    ensures reply.Refused? ==> r.client.calls[k] == Settled(Failed)
    ensures reply.Suspended? ==> r.client.calls[k] == InAwait(j.client.calls[k].token)
  {
  }

  lemma {:induction false} CompleteExactly(j: Joint, k: CallId, access: string, r: Joint)
    requires Complete(j, k, access, r)
    ensures j.client.calls[k].InAwait? && j.client.calls[k].token in j.server.pending
    ensures var t := j.client.calls[k].token;
      && r.server == Finish(j.server, t, access)
      && r.client == j.client.(calls := j.client.calls[k := Settled(Renewed(j.server.pending[t]))])
  {
  }

  lemma {:induction false} LoseExactly(c: Client, k: CallId, d: Client)
    requires Lose(c, k, d)
    ensures k in c.calls && d == Client(c.stored, c.promise, c.calls[k := Settled(Failed)], c.requests, c.nextCall)
  {
  }

  // A request woken by a renewal stores the token and is sent again. One woken by a failure, and one
  // whose second sending fails, ends and clears the session.
  lemma {:induction false} ResumeExactly(c: Client, q: RequestId, d: Client)
    requires q in c.requests
    ensures Abort(c, q, d) ==> c.requests[q].phase == Retrying
    ensures (Resume(c, q, d) && In(c, q, Woken(Failed))) || Abort(c, q, d) ==>
      d == Client(None, c.promise, c.calls, c.requests[q := Request(Done, c.requests[q].sends)], c.nextCall)
    ensures forall u | Resume(c, q, d) && WokenWith(c, q, u) ::
      d == Client(Some(u), c.promise, c.calls, c.requests[q := Request(Retrying, c.requests[q].sends + 1)], c.nextCall)
  {
  }

  // Any other request is sent, and ends with an answer to its first or its second sending.
  lemma {:induction false} SendExactly(c: Client, q: RequestId, d: Client)
    ensures Send(c, q, d) ==> q !in c.requests && d == Client(c.stored, c.promise, c.calls, c.requests[q := Request(InFlight, 1)], c.nextCall)
    ensures Answer(c, q, d) ==>
      && q in c.requests && (c.requests[q].phase == InFlight || c.requests[q].phase == Retrying)
      && d == Client(c.stored, c.promise, c.calls, c.requests[q := Request(Done, c.requests[q].sends)], c.nextCall)
    ensures (Send(c, q, c.(requests := c.requests[q := Request(InFlight, 1)])) <==> q !in c.requests)
    ensures forall n | q in c.requests && (c.requests[q] == Request(InFlight, n) || c.requests[q] == Request(Retrying, n)) ::
      Answer(c, q, c.(requests := c.requests[q := Request(Done, n)]))
  {
  }

  ghost predicate Renews(c: Client, e: Event) { e.Resumes? && exists u :: WokenWith(c, e.q, u) }

  ghost predicate Gives(c: Client, e: Event) { e.Aborts? || (e.Resumes? && In(c, e.q, Woken(Failed))) }

  // The session is cleared by a step exactly if a refresh failed for a request or its second sending
  // did, and stays cleared until a request is woken with a renewal.
  lemma {:induction false} ClearedIff(j: Joint, sid: SessionId, e: Event, r: Joint)
    requires Moves(j, sid, e, r)
    ensures r.client.stored.None? <==> Gives(j.client, e) || (j.client.stored.None? && !Renews(j.client, e))
  {
    if e.Resumes? {
      var o := j.client.requests[e.q].phase.outcome;
      assert o.Renewed? ==> WokenWith(j.client, e.q, o.token);
    }
  }

  // While nothing is stored, no refresh call is started.
  lemma {:induction false} NoCallWithoutToken(trace: seq<Joint>, sid: SessionId, events: seq<Event>, i: nat, j: nat)
    requires IsJointRun(trace, sid, events) && i <= j < |trace| && trace[i].client.stored.None?
    requires forall k | i <= k < j :: !Renews(trace[k].client, events[k])
    ensures trace[j].client.stored.None? && trace[j].client.nextCall == trace[i].client.nextCall
  {
    if i < j {
      NoCallWithoutToken(trace, sid, events, i, j - 1);
      assert MoveAt(trace, sid, events, j - 1);
      ClearedIff(trace[j - 1], sid, events[j - 1], trace[j]);
    }
  }

  // ---------- main results ----------

  ghost predicate MoveAt(trace: seq<Joint>, sid: SessionId, events: seq<Event>, i: nat)
    requires i < |events| < |trace|
  {
    Moves(trace[i], sid, events[i], trace[i + 1])
  }

  ghost predicate IsJointRun(trace: seq<Joint>, sid: SessionId, events: seq<Event>) {
    && |trace| == |events| + 1
    && Begins(trace[0], sid)
    && (forall i {:trigger MoveAt(trace, sid, events, i)} | 0 <= i < |events| :: MoveAt(trace, sid, events, i))
  }

  lemma JointStep(trace: seq<Joint>, sid: SessionId, events: seq<Event>, i: nat)
    requires IsJointRun(trace, sid, events) && i < |events| && JInv(trace[i], sid)
    ensures JInv(trace[i + 1], sid)
  {
    assert MoveAt(trace, sid, events, i);
    MoveKeeps(trace[i], sid, events[i], trace[i + 1]);
  }

  lemma {:induction false} JointRunKeeps(trace: seq<Joint>, sid: SessionId, events: seq<Event>, i: nat)
    requires IsJointRun(trace, sid, events) && i < |trace|
    ensures JInv(trace[i], sid)
  {
    if i > 0 {
      JointRunKeeps(trace, sid, events, i - 1);
      JointStep(trace, sid, events, i - 1);
    }
  }

  // Over every run: at most one refresh call is outstanding, every waiting request waits for it, no
  // request is sent more than twice, and the refresh token the client holds is the newest one of its
  // session or the one that the newest replaced. Lost answers, revocations and expired grace records included.
  lemma ClientStaysNear(trace: seq<Joint>, sid: SessionId, events: seq<Event>, i: nat)
    requires IsJointRun(trace, sid, events) && i < |trace|
    ensures var c, s := trace[i].client, trace[i].server;
      && (forall i, k | i in c.calls && k in c.calls :: i == k)
      && (forall q | q in c.requests :: c.requests[q].sends <= 2)
      && (forall q | q in c.requests && c.requests[q].phase.Waiting? :: c.requests[q].phase.call in c.calls)
      && sid in s.newest
      && (sid in s.sessions ==> s.sessions[sid].current == s.newest[sid])
      && (c.stored.Some? ==> c.stored.value == s.newest[sid] || Maps(s.next, c.stored.value, s.newest[sid]))
  {
    JointRunKeeps(trace, sid, events, i);
    var s := trace[i].server;
    if sid in s.sessions {
      assert Maps(s.newest, sid, s.sessions[sid].current);
    }
  }

  // A refresh call that the server handles after the previous rotation of the session was
  // registered and within its grace period is never refused as invalid while the session lives.
  lemma TimelyRefreshIsNotInvalid(trace: seq<Joint>, sid: SessionId, events: seq<Event>, i: nat, k: CallId, active: bool,
                                  drawn: Token, reply: Reply, r: Joint)
    requires IsJointRun(trace, sid, events) && i < |trace|
    requires var s := trace[i].server;
      && sid in s.sessions
      && (forall t | t in s.pending && t in s.births :: s.births[t].sid != sid)
      && (forall t | t in s.deadlines && Maps(s.next, t, s.sessions[sid].current) :: s.now <= s.deadlines[t])
    requires Reach(trace[i], k, active, drawn, reply, r)
    ensures reply != Refused(InvalidToken)
  {
    JointRunKeeps(trace, sid, events, i);
    var s := trace[i].server;
    var t := trace[i].client.calls[k].token;
    assert Maps(s.newest, sid, s.sessions[sid].current);
    NearIsNotInvalid(s, sid, t, active, drawn, r.server, reply);
  }

  lemma {:induction false} NearIsNotInvalid(s: Server, sid: SessionId, t: Token, active: bool, drawn: Token, r: Server, reply: Reply)
    requires Inv(s) && Near(s, sid, t) && sid in s.sessions && s.sessions[sid].current == s.newest[sid]
    requires forall t | t in s.pending && t in s.births :: s.births[t].sid != sid
    requires forall t | t in s.deadlines && Maps(s.next, t, s.sessions[sid].current) :: s.now <= s.deadlines[t]
    requires Begin(s, t, active, drawn, r, reply)
    ensures reply != Refused(InvalidToken)
  {
    InvalidExactly(s, t, active, drawn, r, reply);
    if s.newest[sid] == t {
      assert Holds(s, sid, t);
    } else {
      assert Maps(s.next, t, s.newest[sid]);
      assert Younger(s.births, t, s.newest[sid]);
      GraceIsDeadline(s, t);
    }
  }
}
