/**
 The two sides of the refresh protocol as objects: the session table that the handler of
 server/routes/auth.ts updates in place around its grace store, and the ApiClient of
 src/services/api.ts with its fields. Every method is proved against the step of the machines in
 RefreshRotation and RefreshClient that it takes.
 */
module RefreshObjects {
  import opened Wrappers
  import opened GraceStore
  import R = RefreshRotation
  import C = RefreshClient

  // A grace record answers the request.
  lemma {:induction false} BeginsReplayed(s: R.Server, t: Token, active: bool, drawn: Token, g: Grace)
    requires Lookup(s.grace, t, s.now) == Some(g)
    ensures R.Begin(s, t, active, drawn,
      s.(grace := AfterLookup(s.grace, t, s.now), answers := s.answers + {(t, g.token, g.access)}, sent := s.sent + {g.token}),
      R.Granted(g.token, g.access))
  {
  }

  // The two ways on when no grace record answers the request.
  lemma BeginsUnknown(s: R.Server, looked: R.Server, t: Token, active: bool, drawn: Token)
    requires Lookup(s.grace, t, s.now).None? && looked == s.(grace := AfterLookup(s.grace, t, s.now))
    requires forall sid :: !R.Holds(looked, sid, t)
    ensures R.Begin(s, t, active, drawn, looked, R.Refused(R.InvalidToken))
  {
    assert forall sid :: R.Holds(s, sid, t) == R.Holds(looked, sid, t);
  }

  lemma BeginsFound(s: R.Server, looked: R.Server, sid: R.SessionId, t: Token, active: bool, drawn: Token, r: R.Server, reply: R.Reply)
    requires Lookup(s.grace, t, s.now).None? && looked == s.(grace := AfterLookup(s.grace, t, s.now))
    requires R.Holds(looked, sid, t) && R.BeginFound(looked, sid, t, active, drawn, r, reply)
    ensures R.Begin(s, t, active, drawn, r, reply)
  {
    assert R.Holds(s, sid, t);
  }

  class SessionTable {
    const store: TokenGraceStore
    var now: int
    var sessions: map<R.SessionId, R.Session>
    // The rotations inside the await.
    var pending: map<Token, Token>
    // The past, for the statements.
    ghost var next: map<Token, Token>
    ghost var births: map<Token, R.Birth>
    ghost var newest: map<R.SessionId, Token>
    ghost var sent: set<Token>
    ghost var deadlines: map<Token, int>
    ghost var signed: map<Token, string>
    ghost var answers: set<(Token, Token, string)>

    ghost function State(): R.Server
      reads this, store
    {
      R.Server(now, sessions, store.records, pending, next, births, newest, sent, deadlines, signed, answers)
    }

    constructor ()
      ensures State() == R.Start && fresh(store)
    {
      store := new TokenGraceStore();
      now, sessions, pending := 0, map[], map[];
      next, births, newest, sent, deadlines, signed, answers := map[], map[], map[], {}, map[], map[], {};
    }

    // `db.sessions.find`: any session that holds the token, if there is one.
    method FindSession(t: Token) returns (found: Option<R.SessionId>)
      ensures found.Some? ==> R.Holds(State(), found.value, t)
      ensures found.None? ==> forall sid :: !R.Holds(State(), sid, t)
    {
      var todo := sessions.Keys;
      while todo != {}
        invariant todo <= sessions.Keys
        invariant forall sid | sid in sessions && sid !in todo :: sessions[sid].current != t
        decreases todo
      {
        var sid :| sid in todo;
        if sessions[sid].current == t { return Some(sid); }
        todo := todo - {sid};
      }
      found := None;
    }

    // A refresh request up to its answer or its await.
    method BeginRefresh(t: Token, active: bool, drawn: Token) returns (reply: R.Reply)
      requires drawn !in births
      modifies this, store
      ensures R.Begin(old(State()), t, active, drawn, State(), reply)
    {
      var replayed := store.Get(t, now);
      if replayed.Some? {
        answers := answers + {(t, replayed.value.token, replayed.value.access)};
        sent := sent + {replayed.value.token};
        BeginsReplayed(old(State()), t, active, drawn, replayed.value);
        return R.Granted(replayed.value.token, replayed.value.access);
      }
      ghost var looked := State();
      var found := FindSession(t);
      assert State() == looked;
      if found.None? {
        BeginsUnknown(old(State()), looked, t, active, drawn);
        return R.Refused(R.InvalidToken);
      }
      var sid := found.value;
      if sessions[sid].expiresAt < now {
        sessions := sessions - {sid};
        reply := R.Refused(R.SessionExpired);
      } else if !active {
        reply := R.Refused(R.Forbidden);
      } else {
        RotateSession(sid, t, drawn);
        reply := R.Suspended;
      }
      BeginsFound(old(State()), looked, sid, t, active, drawn, State(), reply);
    }

    // The session gets the new token and fifteen more days; the request then awaits the database.
    method RotateSession(sid: R.SessionId, t: Token, drawn: Token)
      modifies this
      ensures State() == R.Rotate(old(State()), sid, t, drawn)
    {
      sessions := sessions[sid := R.Session(drawn, now + R.SESSION_MS)];
      pending := pending[t := drawn];
      next := next[t := drawn];
      births := births[drawn := R.Birth(sid, |births|)];
      newest := newest[sid := drawn];
    }

    // The request goes on: it registers the grace record and answers with the new token.
    method FinishRefresh(t: Token, access: string) returns (token: Token)
      requires t in pending
      modifies this, store
      ensures State() == R.Finish(old(State()), t, access)
      ensures token == old(pending)[t]
    {
      token := pending[t];
      store.Register(t, token, access, GRACE_SECONDS, now);
      pending := pending - {t};
      deadlines := deadlines[t := now + R.GRACE_MS];
      sent := sent + {token};
      signed := signed[t := access];
      answers := answers + {(t, token, access)};
    }

    method Login(sid: R.SessionId, drawn: Token)
      requires sid !in newest && drawn !in births
      modifies this
      ensures R.Next(old(State()), R.DoLogin(sid, drawn), State())
    {
      sessions := sessions[sid := R.Session(drawn, now + R.SESSION_MS)];
      births := births[drawn := R.Birth(sid, |births|)];
      newest := newest[sid := drawn];
      sent := sent + {drawn};
    }

    method RevokeSession(sid: R.SessionId)
      modifies this
      ensures R.Next(old(State()), R.Revoke(sid), State())
    {
      sessions := sessions - {sid};
    }

    method Pass(ms: nat)
      modifies this
      ensures R.Next(old(State()), R.Tick(ms), State())
    {
      now := now + ms;
    }
  }

  class ApiClient {
    var refreshToken: Option<Token>
    var refreshPromise: Option<C.CallId>
    // What the runtime holds: the calls on the network and where each request stands.
    var calls: map<C.CallId, C.Call>
    var requests: map<C.RequestId, C.Request>
    var nextCall: C.CallId

    function State(): C.Client
      reads this
    {
      C.Client(refreshToken, refreshPromise, calls, requests, nextCall)
    }

    constructor (token: Token)
      ensures State() == C.Client(Some(token), None, map[], map[], 0)
    {
      refreshToken, refreshPromise, calls, requests, nextCall := Some(token), None, map[], map[], 0;
    }

    method Send(q: C.RequestId)
      requires q !in requests
      modifies this
      ensures C.Send(old(State()), q, State())
    {
      requests := requests[q := C.Request(C.InFlight, 1)];
    }

    method Answer(q: C.RequestId)
      requires C.In(State(), q, C.InFlight) || C.In(State(), q, C.Retrying)
      modifies this
      ensures C.Answer(old(State()), q, State())
    {
      requests := requests[q := requests[q].(phase := C.Done)];
    }

    // The first 401 starts the one refresh call, every further one waits for it.
    method Unauthorized(q: C.RequestId)
      requires C.In(State(), q, C.InFlight) && refreshToken.Some?
      modifies this
      ensures C.Unauthorized(old(State()), q, State())
    {
      if refreshPromise.None? {
        calls := calls[nextCall := C.OnTheWay(refreshToken.value)];
        refreshPromise := Some(nextCall);
        nextCall := nextCall + 1;
      }
      requests := requests[q := requests[q].(phase := C.Waiting(refreshPromise.value))];
    }

    method Deliver(k: C.CallId)
      requires k in calls && calls[k].Settled? && !C.SomeoneWoken(State())
      modifies this
      ensures C.Deliver(old(State()), k, State())
    {
      var outcome := calls[k].outcome;
      calls := calls - {k};
      refreshPromise := None;
      requests := map q | q in requests ::
          if requests[q].phase == C.Waiting(k) then requests[q].(phase := C.Woken(outcome)) else requests[q];
    }

    // A woken request stores what the call returned and is sent once more, or gives up.
    method Resume(q: C.RequestId)
      requires q in requests && requests[q].phase.Woken?
      modifies this
      ensures C.Resume(old(State()), q, State())
    {
      match requests[q].phase.outcome {
        case Renewed(token) =>
          refreshToken := Some(token);
          requests := requests[q := C.Request(C.Retrying, requests[q].sends + 1)];
        case Failed =>
          refreshToken := None;
          requests := requests[q := requests[q].(phase := C.Done)];
      }
    }

    // The network fails the second sending.
    method Abort(q: C.RequestId)
      requires C.In(State(), q, C.Retrying)
      modifies this
      ensures C.Abort(old(State()), q, State())
    {
      refreshToken := None;
      requests := requests[q := requests[q].(phase := C.Done)];
    }
  }
}
