/**
 The refresh handler of server/routes/auth.ts as a machine of interleaved steps. A request runs
 without interruption up to the one `await` after it replaced the hash of the session, and goes
 on later to register the grace record. Other requests, revocations and the clock run in between.
 */
module RefreshRotation {
  import opened Wrappers
  import opened GraceStore

  type SessionId = nat

  const SESSION_MS := 15 * 24 * 60 * 60 * 1000
  const GRACE_MS := 1000 * GRACE_SECONDS

  datatype Session = Session(current: Token, expiresAt: int)

  // For which session a token was issued, and as the how-manieth token of the server.
  datatype Birth = Birth(sid: SessionId, number: nat)

  datatype Refusal = InvalidToken | SessionExpired | Forbidden

  datatype Reply = Granted(token: Token, access: string) | Refused(why: Refusal) | Suspended

  /**
   `pending` are the rotations inside the await: old token to new token. The remaining fields
   record the past: what every token issued so far was replaced by, if it was, the birth of every
   token, the newest token of each session, the tokens that were sent to some client, the time
   each grace record runs out, the access token signed for each rotation that was registered, and
   every answer given: the token presented, the new one and the access token.
   */
  datatype Server = Server(
    now: int,
    sessions: map<SessionId, Session>,
    grace: Records,
    pending: map<Token, Token>,
    next: map<Token, Token>,
    births: map<Token, Birth>,
    newest: map<SessionId, Token>,
    sent: set<Token>,
    deadlines: map<Token, int>,
    signed: map<Token, string>,
    answers: set<(Token, Token, string)>)

  const Start := Server(0, map[], map[], map[], map[], map[], map[], {}, map[], map[], {})

  // ---------- steps ----------

  // `db.sessions.find(s => s.refreshTokenHash === hashed)`
  ghost predicate Holds(s: Server, sid: SessionId, t: Token) {
    sid in s.sessions && s.sessions[sid].current == t
  }

  ghost function Rotate(s: Server, sid: SessionId, t: Token, drawn: Token): Server {
    s.(sessions := s.sessions[sid := Session(drawn, s.now + SESSION_MS)],
       pending := s.pending[t := drawn],
       next := s.next[t := drawn],
       births := s.births[drawn := Birth(sid, |s.births|)],
       newest := s.newest[sid := drawn])
  }

  // From the arrival of a request with token `t` to its answer or its await. `active` says
  // whether the account of the session is active; `drawn` is the random token used if one is needed.
  ghost predicate Begin(s: Server, t: Token, active: bool, drawn: Token, r: Server, reply: Reply) {
    var looked := s.(grace := AfterLookup(s.grace, t, s.now));
    match Lookup(s.grace, t, s.now)
    case Some(g) => 
      && reply == Granted(g.token, g.access)
      && r == looked.(answers := s.answers + {(t, g.token, g.access)}, sent := s.sent + {g.token})
    case None =>
      if forall sid :: !Holds(s, sid, t) then reply == Refused(InvalidToken) && r == looked
      else exists sid :: Holds(s, sid, t) && BeginFound(looked, sid, t, active, drawn, r, reply)
  }

  ghost predicate BeginFound(s: Server, sid: SessionId, t: Token, active: bool, drawn: Token, r: Server, reply: Reply)
    requires Holds(s, sid, t)
  {
    if s.sessions[sid].expiresAt < s.now then
      reply == Refused(SessionExpired) && r == s.(sessions := s.sessions - {sid})
    else if !active then
      reply == Refused(Forbidden) && r == s
    else
      && drawn !in s.births
      && reply == Suspended && r == Rotate(s, sid, t, drawn)
  }

  // After the await: register the grace record and answer.
  ghost function Finish(s: Server, t: Token, access: string): Server
    requires t in s.pending
  {
    s.(grace := Registered(s.grace, t, s.pending[t], access, GRACE_SECONDS, s.now),
       pending := s.pending - {t},
       deadlines := s.deadlines[t := s.now + GRACE_MS],
       signed := s.signed[t := access],
       sent := s.sent + {s.pending[t]},
       answers := s.answers + {(t, s.pending[t], access)})
  }

  ghost function Login(s: Server, sid: SessionId, drawn: Token): Server {
    s.(sessions := s.sessions[sid := Session(drawn, s.now + SESSION_MS)],
       births := s.births[drawn := Birth(sid, |s.births|)],
       newest := s.newest[sid := drawn],
       sent := s.sent + {drawn})
  }

  // Random tokens are new, and nobody can present a token that was issued but never sent.
  ghost predicate Presentable(s: Server, t: Token) { t in s.sent || t !in s.births }

  datatype Action =
    | Tick(ms: nat)
    | DoLogin(sid: SessionId, drawn: Token)
    | DoBegin(t: Token, active: bool, drawn: Token, reply: Reply)
    | DoFinish(t: Token, access: string)
    | Revoke(sid: SessionId)

  ghost predicate Next(s: Server, a: Action, r: Server) {
    match a
    case Tick(ms) => r == s.(now := s.now + ms)
    case DoLogin(sid, drawn) => sid !in s.newest && drawn !in s.births && r == Login(s, sid, drawn)
    case DoBegin(t, active, drawn, reply) => Presentable(s, t) && Begin(s, t, active, drawn, r, reply)
    case DoFinish(t, access) => t in s.pending && r == Finish(s, t, access)
    case Revoke(sid) => r == s.(sessions := s.sessions - {sid})
  }

  // ---------- the invariant ----------

  ghost predicate Maps<K, V>(m: map<K, V>, k: K, v: V) { k in m && m[k] == v }

  // Every token has one place: it is the newest of its session, or it was replaced by a younger
  // token of the same session, which replaced nothing else.
  ghost predicate Chained(next: map<Token, Token>, births: map<Token, Birth>, newest: map<SessionId, Token>) {
    && (forall t {:trigger t in births} | t in births :: births[t].number < |births|)
    && (forall t {:trigger t in births} | t in births :: t in next || Maps(newest, births[t].sid, t))
    && (forall t, u | Maps(next, t, u) :: Younger(births, t, u))
    && (forall t, t', u | Maps(next, t, u) && Maps(next, t', u) :: t == t')
    && (forall sid, t | Maps(newest, sid, t) :: t in births && births[t].sid == sid && t !in next)
  }

  ghost predicate Younger(births: map<Token, Birth>, t: Token, u: Token) {
    t in births && u in births && births[u].sid == births[t].sid && births[t].number < births[u].number
  }

  // A session holds the newest token issued for it.
  ghost predicate Current(sessions: map<SessionId, Session>, newest: map<SessionId, Token>) {
    forall sid {:trigger sid in sessions} | sid in sessions :: Maps(newest, sid, sessions[sid].current)
  }

  // A replaced token is either inside the await or was registered; what is in the store is what
  // was registered, and a registered record that is gone had run out.
  ghost predicate Tracked(next: map<Token, Token>, pending: map<Token, Token>, deadlines: map<Token, int>, grace: Records, now: int) {
    && (forall t, u | Maps(next, t, u) :: t in pending || t in deadlines)
    && (forall t, u | Maps(pending, t, u) :: Maps(next, t, u) && u !in next && t !in deadlines)
    && (forall t {:trigger t in deadlines} | t in deadlines ::
          t in next && deadlines[t] <= now + GRACE_MS && (t in grace || deadlines[t] < now))
    && (forall t {:trigger t in grace} | t in grace ::
          t in deadlines && grace[t].expiresAt == deadlines[t] && Maps(next, t, grace[t].token))
  }

  // A token that replaced another one is sent only after that was registered, so the grace
  // records of one chain run out in order.
  ghost predicate Ordered(next: map<Token, Token>, sent: set<Token>, deadlines: map<Token, int>) {
    && (forall t, u | Maps(next, t, u) && u in sent :: t in deadlines)
    && (forall t, u | Maps(next, t, u) && t in deadlines :: u in sent)
    && (forall t, u | Maps(next, t, u) && t in deadlines && u in deadlines :: deadlines[t] <= deadlines[u])
  }

  ghost predicate Answered(next: map<Token, Token>, signed: map<Token, string>, answers: set<(Token, Token, string)>) {
    forall t, u, a | (t, u, a) in answers :: Maps(next, t, u) && Maps(signed, t, a)
  }

  // A registered rotation has one access token, and that is what its grace record holds.
  ghost predicate SignedOnce(signed: map<Token, string>, deadlines: map<Token, int>, grace: Records) {
    && signed.Keys == deadlines.Keys
    && forall t {:trigger t in grace} | t in grace :: Maps(signed, t, grace[t].access)
  }

  ghost predicate Inv(s: Server) {
    && Chained(s.next, s.births, s.newest)
    && Current(s.sessions, s.newest)
    && Tracked(s.next, s.pending, s.deadlines, s.grace, s.now)
    && s.sent <= s.births.Keys
    && Ordered(s.next, s.sent, s.deadlines)
    && Answered(s.next, s.signed, s.answers)
    && SignedOnce(s.signed, s.deadlines, s.grace)
  }
}
