/**
 One unforked chain of refresh tokens per session, in every interleaving of the handler's steps.
 */
module RefreshRotationProofs {
  import opened Wrappers
  import opened GraceStore
  import opened RefreshRotation

  // ---------- the invariant survives every step ----------

  lemma LookupKeeps(s: Server, t: Token)
    requires Inv(s)
    ensures Inv(s.(grace := AfterLookup(s.grace, t, s.now)))
  {
  }

  lemma ReplayKeeps(s: Server, t: Token)
    requires Inv(s) && t in s.grace
    ensures Inv(s.(answers := s.answers + {(t, s.grace[t].token, s.grace[t].access)}, sent := s.sent + {s.grace[t].token}))
  {
    assert s.sent + {s.grace[t].token} == s.sent;
  }

  lemma NeverReplaced(next: map<Token, Token>, births: map<Token, Birth>, newest: map<SessionId, Token>, drawn: Token)
    requires Chained(next, births, newest) && drawn !in births
    ensures drawn !in next
    ensures forall t, u | Maps(next, t, u) :: t != drawn && u != drawn
  {
    assert forall t, u | Maps(next, t, u) :: t != drawn && u != drawn;
    if drawn in next { assert Maps(next, drawn, next[drawn]); }
  }

  // A first token for a session that never had one.
  lemma StillYounger(next: map<Token, Token>, births: map<Token, Birth>, drawn: Token, b: Birth)
    requires drawn !in births && forall t, u | Maps(next, t, u) :: Younger(births, t, u)
    ensures forall t, u | Maps(next, t, u) :: Younger(births[drawn := b], t, u)
  {
    forall t, u | Maps(next, t, u) ensures Younger(births[drawn := b], t, u) {
      assert Younger(births, t, u);
    }
  }

  lemma LoginChained(next: map<Token, Token>, births: map<Token, Birth>, newest: map<SessionId, Token>, sid: SessionId, drawn: Token)
    requires Chained(next, births, newest) && sid !in newest && drawn !in births
    ensures Chained(next, births[drawn := Birth(sid, |births|)], newest[sid := drawn])
  {
    var births' := births[drawn := Birth(sid, |births|)];
    var newest' := newest[sid := drawn];
    NeverReplaced(next, births, newest, drawn);
    StillYounger(next, births, drawn, Birth(sid, |births|));
    assert |births'| == |births| + 1;
    assert forall i, x | Maps(newest', i, x) :: (i == sid && x == drawn) || Maps(newest, i, x);
    forall t | t in births' ensures t in next || Maps(newest', births'[t].sid, t) {
      assert t == drawn || t in next || Maps(newest, births[t].sid, t);
    }
  }

  lemma NewestChanges(sessions: map<SessionId, Session>, newest: map<SessionId, Token>, sid: SessionId, drawn: Token, expiresAt: int)
    requires Current(sessions, newest)
    ensures Current(sessions[sid := Session(drawn, expiresAt)], newest[sid := drawn])
  {
    assert forall i, x | Maps(newest, i, x) && i != sid :: Maps(newest[sid := drawn], i, x);
  }

  // Sending a token that replaced nothing.
  lemma FirstSent(next: map<Token, Token>, sent: set<Token>, deadlines: map<Token, int>, drawn: Token)
    requires Ordered(next, sent, deadlines)
    requires forall t, u | Maps(next, t, u) :: u != drawn
    ensures Ordered(next, sent + {drawn}, deadlines)
  {
  }

  lemma LoginKeeps(s: Server, sid: SessionId, drawn: Token)
    requires Inv(s) && sid !in s.newest && drawn !in s.births
    ensures Inv(Login(s, sid, drawn))
  {
    LoginChained(s.next, s.births, s.newest, sid, drawn);
    NeverReplaced(s.next, s.births, s.newest, drawn);
    NewestChanges(s.sessions, s.newest, sid, drawn, s.now + SESSION_MS);
    FirstSent(s.next, s.sent, s.deadlines, drawn);
  }

  // A token that takes the place of the newest one of its session.
  lemma RotateChained(next: map<Token, Token>, births: map<Token, Birth>, newest: map<SessionId, Token>,
                      sid: SessionId, t: Token, drawn: Token)
    requires Chained(next, births, newest) && Maps(newest, sid, t) && drawn !in births
    ensures t !in next && t != drawn
    ensures Chained(next[t := drawn], births[drawn := Birth(sid, |births|)], newest[sid := drawn])
  {
    var next', births', newest' := next[t := drawn], births[drawn := Birth(sid, |births|)], newest[sid := drawn];
    NeverReplaced(next, births, newest, drawn);
    assert |births'| == |births| + 1;
    assert forall i, x | Maps(newest', i, x) :: (i == sid && x == drawn) || (i != sid && Maps(newest, i, x));
    assert forall x, u | Maps(next', x, u) :: (x == t && u == drawn) || Maps(next, x, u);
    forall x | x in births' ensures x in next' || Maps(newest', births'[x].sid, x) {
      assert x == drawn || x in next || Maps(newest, births[x].sid, x);
    }
    forall x, u | Maps(next', x, u) ensures Younger(births', x, u) {
      assert Maps(next, x, u) ==> Younger(births, x, u);
    }
  }

  lemma RotateTracked(s: Server, t: Token, drawn: Token)
    requires Tracked(s.next, s.pending, s.deadlines, s.grace, s.now)
    requires t !in s.next && drawn !in s.next && t != drawn && forall x, u | Maps(s.next, x, u) && u == t :: x in s.deadlines
    ensures Tracked(s.next[t := drawn], s.pending[t := drawn], s.deadlines, s.grace, s.now)
  {
    var next', pending' := s.next[t := drawn], s.pending[t := drawn];
    assert forall x, u | Maps(next', x, u) :: (x == t && u == drawn) || Maps(s.next, x, u);
    assert forall x, u | Maps(s.next, x, u) :: Maps(next', x, u);
    assert forall x, u | Maps(pending', x, u) :: (x == t && u == drawn) || Maps(s.pending, x, u);
    assert Maps(next', t, drawn);
  }

  // The token presented was sent, so its own link is registered: nothing of its chain is pending.
  lemma RotateKeeps(s: Server, sid: SessionId, t: Token, drawn: Token)
    requires Inv(s) && Holds(s, sid, t) && drawn !in s.births && Presentable(s, t)
    ensures Inv(Rotate(s, sid, t, drawn))
    ensures forall x, u | Maps(s.next, x, u) :: Maps(Rotate(s, sid, t, drawn).next, x, u)
  {
    assert Maps(s.newest, sid, t) && t in s.sent;
    RotateChained(s.next, s.births, s.newest, sid, t, drawn);
    NeverReplaced(s.next, s.births, s.newest, drawn);
    NewestChanges(s.sessions, s.newest, sid, drawn, s.now + SESSION_MS);
    RotateTracked(s, t, drawn);
    NextGrows(s.next, t, drawn);
    RotateOrdered(s, t, drawn);
    RotateAnswered(s, t, drawn);
  }

  lemma {:induction false} RotateAnswered(s: Server, t: Token, drawn: Token)
    requires Answered(s.next, s.signed, s.answers) && t !in s.next
    ensures Answered(s.next[t := drawn], s.signed, s.answers)
  {
  }

  lemma NextGrows(next: map<Token, Token>, t: Token, drawn: Token)
    requires t !in next
    ensures forall x, u | Maps(next, x, u) :: Maps(next[t := drawn], x, u)
    ensures forall x, u | Maps(next[t := drawn], x, u) :: (x == t && u == drawn) || Maps(next, x, u)
  {
  }

  lemma RotateOrdered(s: Server, t: Token, drawn: Token)
    requires Ordered(s.next, s.sent, s.deadlines) && drawn !in s.sent && t !in s.deadlines
    requires forall x, u | Maps(s.next[t := drawn], x, u) :: (x == t && u == drawn) || Maps(s.next, x, u)
    ensures Ordered(s.next[t := drawn], s.sent, s.deadlines)
  {
  }

  // What the store holds after a registration, clean-up or not.
  lemma RegisteredContents(m: Records, t: Token, u: Token, access: string, now: int)
    ensures var r := Registered(m, t, u, access, GRACE_SECONDS, now);
      && Maps(r, t, Grace(u, access, now + GRACE_MS))
      && (forall x | x in r && x != t :: Maps(m, x, r[x]))
      && (forall x | x in m && x != t :: x in r || m[x].expiresAt < now)
  {
  }

  lemma FinishKeeps(s: Server, t: Token, access: string)
    requires Inv(s) && t in s.pending
    ensures Inv(Finish(s, t, access))
  {
    var u := s.pending[t];
    assert Maps(s.pending, t, u) && Maps(s.next, t, u);
    FinishTracked(s, t, u, access);
    FinishOrdered(s, t, u, access);
    FinishAnswered(s, t, u, access);
  }

  lemma {:induction false} FinishAnswered(s: Server, t: Token, u: Token, access: string)
    requires Answered(s.next, s.signed, s.answers) && SignedOnce(s.signed, s.deadlines, s.grace)
    requires Maps(s.pending, t, u) && Maps(s.next, t, u) && t !in s.deadlines
    ensures var r := Finish(s, t, access); Answered(r.next, r.signed, r.answers) && SignedOnce(r.signed, r.deadlines, r.grace)
  {
    var r := Finish(s, t, access);
    RegisteredContents(s.grace, t, u, access, s.now);
    forall x | x in r.grace ensures Maps(r.signed, x, r.grace[x].access) {
      if x != t { assert Maps(s.grace, x, r.grace[x]); }
    }
  }

  lemma FinishTracked(s: Server, t: Token, u: Token, access: string)
    requires Tracked(s.next, s.pending, s.deadlines, s.grace, s.now) && Maps(s.pending, t, u)
    ensures var r := Finish(s, t, access); Tracked(r.next, r.pending, r.deadlines, r.grace, r.now)
  {
    var r := Finish(s, t, access);
    RegisteredContents(s.grace, t, u, access, s.now);
    assert Maps(s.next, t, u);
    assert forall x, y | Maps(r.pending, x, y) :: x != t && Maps(s.pending, x, y);
    forall x | x in r.grace
      ensures x in r.deadlines && r.grace[x].expiresAt == r.deadlines[x] && Maps(r.next, x, r.grace[x].token)
    {
      if x != t { assert Maps(s.grace, x, r.grace[x]); }
    }
  }

  lemma FinishOrdered(s: Server, t: Token, u: Token, access: string)
    requires Inv(s) && Maps(s.pending, t, u) && Maps(s.next, t, u)
    ensures var r := Finish(s, t, access); Ordered(r.next, r.sent, r.deadlines)
  {
    var r := Finish(s, t, access);
    assert Younger(s.births, t, u);
    assert u !in s.deadlines;
    forall x, y | Maps(r.next, x, y) && x in r.deadlines && y in r.deadlines ensures r.deadlines[x] <= r.deadlines[y] {
      assert x != t || y == u;
    }
  }

  lemma {:induction false} StepKeeps(s: Server, a: Action, r: Server)
    requires Inv(s) && Next(s, a, r)
    ensures Inv(r)
    ensures forall t, u | Maps(s.next, t, u) :: Maps(r.next, t, u)
    ensures s.answers <= r.answers && s.sent <= r.sent
  {
    match a
    case Tick(ms) =>
    case DoLogin(sid, drawn) => LoginKeeps(s, sid, drawn);
    case DoBegin(t, active, drawn, reply) => BeginKeeps(s, t, active, drawn, r, reply);
    case DoFinish(t, access) => FinishKeeps(s, t, access);
    case Revoke(sid) =>
  }

  lemma BeginKeeps(s: Server, t: Token, active: bool, drawn: Token, r: Server, reply: Reply)
    requires Inv(s) && Presentable(s, t) && Begin(s, t, active, drawn, r, reply)
    ensures Inv(r)
    ensures forall x, u | Maps(s.next, x, u) :: Maps(r.next, x, u)
    ensures s.answers <= r.answers && s.sent <= r.sent
  {
    LookupKeeps(s, t);
    var looked := s.(grace := AfterLookup(s.grace, t, s.now));
    if Lookup(s.grace, t, s.now).Some? {
      ReplayKeeps(looked, t);
    } else if exists sid :: Holds(s, sid, t) {
      var sid :| Holds(s, sid, t) && BeginFound(looked, sid, t, active, drawn, r, reply);
      FoundKeeps(looked, sid, t, active, drawn, r, reply);
    }
  }

  lemma FoundKeeps(s: Server, sid: SessionId, t: Token, active: bool, drawn: Token, r: Server, reply: Reply)
    requires Inv(s) && Presentable(s, t) && Holds(s, sid, t) && BeginFound(s, sid, t, active, drawn, r, reply)
    ensures Inv(r)
    ensures forall x, u | Maps(s.next, x, u) :: Maps(r.next, x, u)
    ensures s.answers == r.answers && s.sent == r.sent
  {
    if reply == Suspended {
      RotateKeeps(s, sid, t, drawn);
    }
  }

  // ---------- whole runs ----------

  ghost predicate StepAt(trace: seq<Server>, actions: seq<Action>, i: nat)
    requires i < |actions| < |trace|
  {
    Next(trace[i], actions[i], trace[i + 1])
  }

  ghost predicate IsRun(trace: seq<Server>, actions: seq<Action>) {
    && |trace| == |actions| + 1
    && trace[0] == Start
    && (forall i {:trigger StepAt(trace, actions, i)} | 0 <= i < |actions| :: StepAt(trace, actions, i))
  }

  lemma RunStep(trace: seq<Server>, actions: seq<Action>, i: nat)
    requires IsRun(trace, actions) && i < |actions| && Inv(trace[i])
    ensures Inv(trace[i + 1])
    ensures forall t, u | Maps(trace[i].next, t, u) :: Maps(trace[i + 1].next, t, u)
    ensures trace[i].answers <= trace[i + 1].answers
  {
    assert StepAt(trace, actions, i);
    StepKeeps(trace[i], actions[i], trace[i + 1]);
  }

  lemma {:induction false} RunKeeps(trace: seq<Server>, actions: seq<Action>, i: nat)
    requires IsRun(trace, actions) && i < |trace|
    ensures Inv(trace[i])
  {
    if i > 0 {
      RunKeeps(trace, actions, i - 1);
      RunStep(trace, actions, i - 1);
    }
  }

  lemma {:induction false} LinksStay(trace: seq<Server>, actions: seq<Action>, i: nat, j: nat, t: Token, u: Token)
    requires IsRun(trace, actions) && i <= j < |trace| && Maps(trace[i].next, t, u)
    ensures Maps(trace[j].next, t, u)
  {
    if i < j {
      LinksStay(trace, actions, i, j - 1, t, u);
      LinkStays(trace, actions, j - 1, t, u);
    }
  }

  lemma LinkStays(trace: seq<Server>, actions: seq<Action>, i: nat, t: Token, u: Token)
    requires IsRun(trace, actions) && i < |actions| && Maps(trace[i].next, t, u)
    ensures Maps(trace[i + 1].next, t, u)
  {
    RunKeeps(trace, actions, i);
    RunStep(trace, actions, i);
  }

  // In every interleaving: whenever a token is answered, and however often, the answer is the same
  // token with the same access token; and no token is the answer to two different ones.
  lemma OneSuccessorForever(trace: seq<Server>, actions: seq<Action>, i: nat, j: nat, t: Token, u: Token, a: string,
                            t': Token, u': Token, a': string)
    requires IsRun(trace, actions) && i <= j < |trace|
    requires (t, u, a) in trace[i].answers && (t', u', a') in trace[j].answers
    ensures t == t' <==> u == u'
    ensures t == t' ==> a == a'
  {
    RunKeeps(trace, actions, i);
    RunKeeps(trace, actions, j);
    assert Maps(trace[i].next, t, u);
    LinksStay(trace, actions, i, j, t, u);
    AnswersStay(trace, actions, i, j);
    assert Maps(trace[j].next, t', u');
  }

  lemma {:induction false} AnswersStay(trace: seq<Server>, actions: seq<Action>, i: nat, j: nat)
    requires IsRun(trace, actions) && i <= j < |trace|
    ensures trace[i].answers <= trace[j].answers
  {
    if i < j {
      AnswersStay(trace, actions, i, j - 1);
      AnswersGrow(trace, actions, j - 1);
    }
  }

  lemma {:induction false} AnswersGrow(trace: seq<Server>, actions: seq<Action>, i: nat)
    requires IsRun(trace, actions) && i < |actions|
    ensures trace[i].answers <= trace[i + 1].answers
  {
    RunKeeps(trace, actions, i);
    RunStep(trace, actions, i);
  }

  // ---------- what a request is answered ----------

  // For a request that a client can make: it is granted the replacement of its token exactly when
  // that was registered within the grace period; it starts a rotation exactly when its token is
  // the current one of a live session of an active account; otherwise it is refused.
  lemma AnswerExactly(s: Server, t: Token, active: bool, drawn: Token, r: Server, reply: Reply)
    requires Inv(s) && Presentable(s, t) && drawn !in s.births && Begin(s, t, active, drawn, r, reply)
    ensures reply.Granted? <==> t in s.deadlines && s.now <= s.deadlines[t]
    ensures reply.Granted? ==> Maps(s.next, t, reply.token) && Maps(s.signed, t, reply.access)
    ensures reply.Granted? ==> r.sessions == s.sessions && r.pending == s.pending && r.next == s.next
    ensures reply.Suspended? <==> active && exists sid :: Holds(s, sid, t) && s.sessions[sid].expiresAt >= s.now
    ensures reply.Suspended? ==> Maps(r.next, t, drawn) && (forall sid | Holds(s, sid, t) :: Holds(r, sid, drawn))
    ensures reply.Refused? ==> r.next == s.next && r.pending == s.pending
  {
    HolderUnique(s, t);
    GraceIsDeadline(s, t);
    if Lookup(s.grace, t, s.now).Some? {
      assert reply == Granted(s.grace[t].token, s.grace[t].access);
    } else if exists sid :: Holds(s, sid, t) {
      var looked := s.(grace := AfterLookup(s.grace, t, s.now));
      var sid :| Holds(s, sid, t) && BeginFound(looked, sid, t, active, drawn, r, reply);
      FoundAnswer(looked, sid, t, active, drawn, r, reply);
    }
  }

  lemma FoundAnswer(s: Server, sid: SessionId, t: Token, active: bool, drawn: Token, r: Server, reply: Reply)
    requires Holds(s, sid, t) && BeginFound(s, sid, t, active, drawn, r, reply)
    ensures !reply.Granted?
    ensures reply.Suspended? <==> active && s.sessions[sid].expiresAt >= s.now
    ensures reply.Suspended? ==> Maps(r.next, t, drawn) && Holds(r, sid, drawn)
    ensures reply.Refused? ==> r.next == s.next && r.pending == s.pending
  {
  }

  lemma HolderUnique(s: Server, t: Token)
    requires Inv(s)
    ensures forall sid, sid' | Holds(s, sid, t) && Holds(s, sid', t) :: sid == sid'
    ensures (exists sid :: Holds(s, sid, t)) ==> t !in s.next && t !in s.grace
  {
    assert forall sid | Holds(s, sid, t) :: Maps(s.newest, sid, t);
    assert t in s.grace ==> Maps(s.next, t, s.grace[t].token);
  }

  lemma GraceIsDeadline(s: Server, t: Token)
    requires Inv(s)
    ensures Lookup(s.grace, t, s.now).Some? <==> t in s.deadlines && s.now <= s.deadlines[t]
    ensures t in s.grace ==> Maps(s.next, t, s.grace[t].token)
  {
  }

  // A request that no grace record answers and whose token some session holds.
  lemma HeldRequest(s: Server, sid: SessionId, t: Token, active: bool, drawn: Token, r: Server, reply: Reply)
    requires Inv(s) && Begin(s, t, active, drawn, r, reply) && Holds(s, sid, t)
    ensures Lookup(s.grace, t, s.now).None?
    ensures BeginFound(s.(grace := AfterLookup(s.grace, t, s.now)), sid, t, active, drawn, r, reply)
  {
    HolderUnique(s, t);
    var looked := s.(grace := AfterLookup(s.grace, t, s.now));
    var i :| Holds(s, i, t) && BeginFound(looked, i, t, active, drawn, r, reply);
  }

  lemma InvalidExactly(s: Server, t: Token, active: bool, drawn: Token, r: Server, reply: Reply)
    requires Inv(s) && Begin(s, t, active, drawn, r, reply)
    ensures reply == Refused(InvalidToken) <==> Lookup(s.grace, t, s.now).None? && forall sid :: !Holds(s, sid, t)
  {
    if exists sid :: Holds(s, sid, t) {
      var sid :| Holds(s, sid, t);
      HeldRequest(s, sid, t, active, drawn, r, reply);
    }
  }

  lemma ExpiredExactly(s: Server, t: Token, active: bool, drawn: Token, r: Server, reply: Reply)
    requires Inv(s) && Begin(s, t, active, drawn, r, reply)
    ensures reply == Refused(SessionExpired) <==> exists sid :: Holds(s, sid, t) && s.sessions[sid].expiresAt < s.now
  {
    if sid :| Holds(s, sid, t) {
      HeldRequest(s, sid, t, active, drawn, r, reply);
      HolderUnique(s, t);
    }
  }

  lemma ForbiddenExactly(s: Server, t: Token, active: bool, drawn: Token, r: Server, reply: Reply)
    requires Inv(s) && Begin(s, t, active, drawn, r, reply)
    ensures reply == Refused(Forbidden) <==> !active && exists sid :: Holds(s, sid, t) && s.sessions[sid].expiresAt >= s.now
  {
    if sid :| Holds(s, sid, t) {
      HeldRequest(s, sid, t, active, drawn, r, reply);
      HolderUnique(s, t);
    }
  }

  lemma RemovedExactly(s: Server, t: Token, active: bool, drawn: Token, r: Server, reply: Reply, sid: SessionId)
    requires Inv(s) && Begin(s, t, active, drawn, r, reply) && sid in s.sessions
    ensures sid in r.sessions <==> !(reply == Refused(SessionExpired) && Holds(s, sid, t))
  {
    if i :| Holds(s, i, t) {
      HeldRequest(s, i, t, active, drawn, r, reply);
      HolderUnique(s, t);
    }
  }

  // Exactly when a request is refused, and for which reason; only an expired session is removed by it.
  lemma RefusalExactly(s: Server, t: Token, active: bool, drawn: Token, r: Server, reply: Reply)
    requires Inv(s) && Begin(s, t, active, drawn, r, reply)
    ensures reply == Refused(InvalidToken) <==> Lookup(s.grace, t, s.now).None? && forall sid :: !Holds(s, sid, t)
    ensures reply == Refused(SessionExpired) <==> exists sid :: Holds(s, sid, t) && s.sessions[sid].expiresAt < s.now
    ensures reply == Refused(Forbidden) <==> !active && exists sid :: Holds(s, sid, t) && s.sessions[sid].expiresAt >= s.now
    ensures forall sid | sid in s.sessions ::
      sid in r.sessions <==> !(reply == Refused(SessionExpired) && Holds(s, sid, t))
  {
    InvalidExactly(s, t, active, drawn, r, reply);
    ExpiredExactly(s, t, active, drawn, r, reply);
    ForbiddenExactly(s, t, active, drawn, r, reply);
    forall sid | sid in s.sessions ensures sid in r.sessions <==> !(reply == Refused(SessionExpired) && Holds(s, sid, t)) {
      RemovedExactly(s, t, active, drawn, r, reply, sid);
    }
  }

  // A rotation gives the session of the token a new token and fifteen more days, and leaves every
  // other session as it was. Nothing is sent or registered yet: the rotation goes into the await.
  lemma {:induction false} RotationRenews(s: Server, t: Token, active: bool, drawn: Token, r: Server, sid: SessionId)
    requires Inv(s) && Begin(s, t, active, drawn, r, Suspended) && Holds(s, sid, t)
    ensures r.sessions == s.sessions[sid := Session(drawn, s.now + 15 * 24 * 3600 * 1000)]
    ensures r.pending == s.pending[t := drawn] && r.next == s.next[t := drawn] && r.newest == s.newest[sid := drawn]
    ensures r.births == s.births[drawn := Birth(sid, |s.births|)]
    ensures r.now == s.now && r.sent == s.sent && r.answers == s.answers && r.deadlines == s.deadlines && r.signed == s.signed
  {
    HolderUnique(s, t);
    var looked := s.(grace := AfterLookup(s.grace, t, s.now));
    var i :| Holds(s, i, t) && BeginFound(looked, i, t, active, drawn, r, Suspended);
  }

  // While a rotation sits in the await, a replay of its old token is refused as invalid, although
  // the same replay is granted once the record is registered.
  lemma ReplayInTheGapIsRefused(s: Server, t: Token, active: bool, drawn: Token, r: Server, reply: Reply)
    requires Inv(s) && t in s.pending && Begin(s, t, active, drawn, r, reply)
    ensures reply == Refused(InvalidToken)
    ensures Lookup(Finish(s, t, "").grace, t, s.now).Some?
  {
    assert Maps(s.pending, t, s.pending[t]) && Maps(s.next, t, s.pending[t]);
    assert forall sid | Holds(s, sid, t) :: Maps(s.newest, sid, t);
    RegisteredLookup(s.grace, t, s.pending[t], "", GRACE_SECONDS, s.now, t, s.now);
  }

  // ---------- replays ----------

  // The registration after the await leaves the sessions alone; from then on, for thirty seconds to
  // the millisecond, a lookup answers with the new token and the access token of this rotation.
  // Lookups of other tokens answer as before.
  lemma {:induction false} RotationIsRegistered(s: Server, t: Token, access: string, x: Token, later: int)
    requires t in s.pending && s.now <= later
    ensures var r := Finish(s, t, access);
      && r.now == s.now && r.sessions == s.sessions && r.next == s.next && r.births == s.births && r.newest == s.newest
      && r.pending == s.pending - {t}
      && r.deadlines == s.deadlines[t := s.now + 30000] && r.signed == s.signed[t := access]
      && r.sent == s.sent + {s.pending[t]} && r.answers == s.answers + {(t, s.pending[t], access)}
      && Lookup(r.grace, x, later)
           == if x != t then Lookup(s.grace, x, later)
              else if later <= s.now + 30000 then Some(Grace(s.pending[t], access, s.now + 30000))
              else None
  {
    RegisteredLookup(s.grace, t, s.pending[t], access, GRACE_SECONDS, s.now, x, later);
  }

  lemma {:induction false} RecordsStay(s: Server, a: Action, r: Server, t: Token)
    requires Inv(s) && Next(s, a, r) && t in s.deadlines && t in s.signed
    ensures Maps(r.deadlines, t, s.deadlines[t]) && Maps(r.signed, t, s.signed[t])
  {
    if a.DoFinish? {
      assert Maps(s.pending, a.t, s.pending[a.t]);
    } else if a.DoBegin? {
      BeginRecordsNothing(s, a.t, a.active, a.drawn, r, a.reply);
    }
  }

  lemma {:induction false} BeginRecordsNothing(s: Server, t: Token, active: bool, drawn: Token, r: Server, reply: Reply)
    requires Begin(s, t, active, drawn, r, reply)
    ensures r.deadlines == s.deadlines && r.signed == s.signed && r.now == s.now
  {
    if Lookup(s.grace, t, s.now).None? && exists sid :: Holds(s, sid, t) {
      var looked := s.(grace := AfterLookup(s.grace, t, s.now));
      var sid :| Holds(s, sid, t) && BeginFound(looked, sid, t, active, drawn, r, reply);
    }
  }

  lemma {:induction false} RecordsStayAt(trace: seq<Server>, actions: seq<Action>, i: nat, t: Token, deadline: int, access: string)
    requires IsRun(trace, actions) && i < |actions| && Maps(trace[i].deadlines, t, deadline) && Maps(trace[i].signed, t, access)
    ensures Maps(trace[i + 1].deadlines, t, deadline) && Maps(trace[i + 1].signed, t, access)
  {
    RunKeeps(trace, actions, i);
    assert StepAt(trace, actions, i);
    RecordsStay(trace[i], actions[i], trace[i + 1], t);
  }

  lemma {:induction false} RecordsStayLong(trace: seq<Server>, actions: seq<Action>, i: nat, j: nat, t: Token, deadline: int, access: string)
    requires IsRun(trace, actions) && i <= j < |trace| && Maps(trace[i].deadlines, t, deadline) && Maps(trace[i].signed, t, access)
    ensures Maps(trace[j].deadlines, t, deadline) && Maps(trace[j].signed, t, access)
  {
    if i < j {
      RecordsStayLong(trace, actions, i, j - 1, t, deadline, access);
      RecordsStayAt(trace, actions, j - 1, t, deadline, access);
    }
  }

  lemma {:induction false} FinishAt(trace: seq<Server>, actions: seq<Action>, i: nat, t: Token, access: string)
    requires IsRun(trace, actions) && i < |actions| && actions[i] == DoFinish(t, access)
    ensures t in trace[i].pending && Maps(trace[i + 1].next, t, trace[i].pending[t])
    ensures Maps(trace[i + 1].deadlines, t, trace[i].now + 30000) && Maps(trace[i + 1].signed, t, access)
  {
    RunKeeps(trace, actions, i);
    assert StepAt(trace, actions, i);
    assert Maps(trace[i].pending, t, trace[i].pending[t]);
  }

  // Over every run: a request with a token whose rotation was registered is granted the new token
  // and the access token of that rotation for thirty seconds, whatever happens in between, and is
  // granted nothing afterwards.
  lemma {:induction false} ReplayIsAnsweredIff(trace: seq<Server>, actions: seq<Action>, i: nat, j: nat, t: Token, access: string,
                                               active: bool, drawn: Token, r: Server, reply: Reply)
    requires IsRun(trace, actions) && i < j < |trace| && actions[i] == DoFinish(t, access)
    requires Begin(trace[j], t, active, drawn, r, reply)
    ensures t in trace[i].pending
    ensures reply == Granted(trace[i].pending[t], access) <==> trace[j].now <= trace[i].now + 30000
    ensures reply.Granted? ==> trace[j].now <= trace[i].now + 30000
  {
    FinishAt(trace, actions, i, t, access);
    RecordsStayLong(trace, actions, i + 1, j, t, trace[i].now + 30000, access);
    LinksStay(trace, actions, i + 1, j, t, trace[i].pending[t]);
    RunKeeps(trace, actions, j);
    GrantedExactly(trace[j], t, active, drawn, r, reply);
  }

  lemma {:induction false} GrantedExactly(s: Server, t: Token, active: bool, drawn: Token, r: Server, reply: Reply)
    requires Inv(s) && Begin(s, t, active, drawn, r, reply)
    ensures reply.Granted? <==> t in s.deadlines && s.now <= s.deadlines[t]
    ensures reply.Granted? ==> Maps(s.next, t, reply.token) && Maps(s.signed, t, reply.access)
    ensures reply.Granted? ==> r.answers == s.answers + {(t, reply.token, reply.access)} && r.sent == s.sent + {reply.token}
  {
    GraceIsDeadline(s, t);
    if Lookup(s.grace, t, s.now).None? && exists sid :: Holds(s, sid, t) {
      var looked := s.(grace := AfterLookup(s.grace, t, s.now));
      var sid :| Holds(s, sid, t) && BeginFound(looked, sid, t, active, drawn, r, reply);
      FoundAnswer(looked, sid, t, active, drawn, r, reply);
    }
  }

  // A login opens a session for fifteen days with a token that goes to the client.
  lemma {:induction false} LoginExactly(s: Server, sid: SessionId, drawn: Token, r: Server)
    requires Next(s, DoLogin(sid, drawn), r)
    ensures sid !in s.newest && drawn !in s.births
    ensures r.sessions == s.sessions[sid := Session(drawn, s.now + 15 * 24 * 3600 * 1000)]
    ensures r.births == s.births[drawn := Birth(sid, |s.births|)]
    ensures r.newest == s.newest[sid := drawn] && r.sent == s.sent + {drawn}
    ensures r.now == s.now && r.grace == s.grace && r.pending == s.pending && r.next == s.next
    ensures r.deadlines == s.deadlines && r.signed == s.signed && r.answers == s.answers
  {
  }

  // A revocation takes one session away, and the clock moves on; nothing else changes.
  lemma {:induction false} RevokeExactly(s: Server, sid: SessionId, r: Server)
    requires Next(s, Revoke(sid), r)
    ensures r == s.(sessions := r.sessions)
    ensures forall i :: i in r.sessions <==> i in s.sessions && i != sid
    ensures forall i | i in r.sessions :: r.sessions[i] == s.sessions[i]
  {
  }

  lemma {:induction false} TickExactly(s: Server, ms: nat, r: Server)
    requires Next(s, Tick(ms), r)
    ensures r.now == s.now + ms && r == s.(now := r.now)
  {
  }

  // ---------- repeated refreshes ----------

  // When every rotation is registered, a replacement is answered at least as long as what it replaced.
  lemma LaterGraceLivesOn(s: Server, t: Token, u: Token)
    requires Inv(s) && s.pending == map[] && Lookup(s.grace, t, s.now).Some? && s.grace[t].token == u && u in s.next
    ensures Lookup(s.grace, u, s.now).Some?
  {
    assert Maps(s.next, t, u);
    assert Maps(s.next, u, s.next[u]);
    assert s.deadlines[t] <= s.deadlines[u];
  }

  lemma YoungerNext(s: Server, t: Token)
    requires Inv(s) && t in s.grace
    ensures Younger(s.births, t, s.grace[t].token)
    ensures s.births[s.grace[t].token].number < |s.births|
  {
    assert Maps(s.next, t, s.grace[t].token);
  }

  // The token a client ends up with when it refreshes again and again with what it was granted.
  ghost function Chase(s: Server, t: Token): Token
    requires Inv(s) && t in s.births
    decreases |s.births| - s.births[t].number
  {
    if Lookup(s.grace, t, s.now).Some? then
      YoungerNext(s, t);
      Chase(s, s.grace[t].token)
    else t
  }

  // Once all rotations are registered, a client that still holds any token inside its grace
  // period gets to the newest token of its session, which is the one a live session accepts.
  lemma {:induction false} ChaseReachesCurrent(s: Server, t: Token)
    requires Inv(s) && s.pending == map[] && t in s.births
    requires t !in s.next || Lookup(s.grace, t, s.now).Some?
    ensures var sid := s.births[t].sid;
      && Maps(s.newest, sid, Chase(s, t))
      && (sid in s.sessions ==> s.sessions[sid].current == Chase(s, t))
    decreases |s.births| - s.births[t].number
  {
    if Lookup(s.grace, t, s.now).Some? {
      var u := s.grace[t].token;
      YoungerNext(s, t);
      if u in s.next {
        LaterGraceLivesOn(s, t, u);
      }
      ChaseReachesCurrent(s, u);
    } else {
      assert Maps(s.newest, s.births[t].sid, t);
    }
    var sid := s.births[t].sid;
    if sid in s.sessions {
      assert Maps(s.newest, sid, s.sessions[sid].current);
    }
  }
}
