/**
 The grace store of server/security.ts: for 30 seconds after a refresh token was rotated, a
 replay of the old token is answered with the tokens that replaced it.

 SHA-256 is taken to be injective, so tables that the server keys by the hash of a token are
 keyed by the token here.
 */
module GraceStore {
  import opened Wrappers

  // Tokens are random and only ever compared, so a number stands for one.
  type Token = nat

  datatype Grace = Grace(token: Token, access: string, expiresAt: int)

  type Records = map<Token, Grace>

  const CLEANUP_SIZE := 200
  const GRACE_SECONDS := 30

  // What a lookup answers.
  function Lookup(m: Records, t: Token, now: int): Option<Grace> {
    if t in m && m[t].expiresAt >= now then Some(m[t]) else None
  }

  // What a lookup leaves behind: an expired record is dropped.
  function AfterLookup(m: Records, t: Token, now: int): Records {
    if t in m && m[t].expiresAt < now then m - {t} else m
  }

  function Purge(m: Records, now: int): Records {
    map k | k in m && m[k].expiresAt >= now :: m[k]
  }

  function Registered(m: Records, rotated: Token, token: Token, access: string, graceSeconds: int, now: int): Records {
    var added := m[rotated := Grace(token, access, now + graceSeconds * 1000)];
    if |added| > CLEANUP_SIZE then Purge(added, now) else added
  }

  // Neither the clean-up triggered by size nor the one inside a lookup changes what any lookup
  // answers from then on.
  lemma CleanupInvisible(m: Records, t: Token, u: Token, now: int, later: int)
    requires now <= later
    ensures Lookup(Purge(m, now), u, later) == Lookup(m, u, later)
    ensures Lookup(AfterLookup(m, t, now), u, later) == Lookup(m, u, later)
  {
  }

  // Hence a registration is seen for exactly its grace period, and no other token is affected,
  // whatever the size of the store.
  lemma RegisteredLookup(m: Records, rotated: Token, token: Token, access: string, graceSeconds: int, now: int, u: Token, later: int)
    requires now <= later
    ensures Lookup(Registered(m, rotated, token, access, graceSeconds, now), u, later)
      == if u != rotated then Lookup(m, u, later)
         else if later <= now + graceSeconds * 1000 then Some(Grace(token, access, now + graceSeconds * 1000))
         else None
  {
    CleanupInvisible(m[rotated := Grace(token, access, now + graceSeconds * 1000)], rotated, u, now, later);
  }

  // A lookup drops at most the record it looked up, and that only when it has run out; a clean-up
  // leaves exactly the records that have not, and comes when a registration leaves more than 200.
  lemma {:induction false} CleanupExactly(m: Records, t: Token, rotated: Token, token: Token, access: string, now: int, k: Token)
    ensures var looked, purged := AfterLookup(m, t, now), Purge(m, now);
      && (k in looked <==> k in m && (k != t || now <= m[k].expiresAt))
      && (k in looked ==> looked[k] == m[k])
      && (k in purged <==> k in m && now <= m[k].expiresAt)
      && (k in purged ==> purged[k] == m[k])
    ensures var r, added := Registered(m, rotated, token, access, 30, now), m[rotated := Grace(token, access, now + 30000)];
      && (k in r <==> k in added && (|added| <= 200 || now <= added[k].expiresAt))
      && (k in r ==> r[k] == added[k])
  {
  }

  class TokenGraceStore {
    var records: Records

    constructor ()
      ensures records == map[]
    {
      records := map[];
    }

    method Register(rotated: Token, token: Token, access: string, graceSeconds: int, now: int)
      modifies this
      ensures records == Registered(old(records), rotated, token, access, graceSeconds, now)
    {
      records := records[rotated := Grace(token, access, now + graceSeconds * 1000)];
      if |records| > CLEANUP_SIZE {
        RemoveExpired(now);
      }
    }

    method RemoveExpired(now: int)
      modifies this
      ensures records == Purge(old(records), now)
    {
      ghost var before := records;
      var todo := records.Keys;
      while todo != {}
        invariant todo <= before.Keys
        invariant records.Keys == set k | k in before && (k in todo || before[k].expiresAt >= now)
        invariant forall k | k in records :: records[k] == before[k]
        decreases todo
      {
        var k :| k in todo;
        if records[k].expiresAt < now {
          records := records - {k};
        }
        todo := todo - {k};
      }
    }

    method Get(t: Token, now: int) returns (r: Option<Grace>)
      modifies this
      ensures r == Lookup(old(records), t, now)
      ensures records == AfterLookup(old(records), t, now)
    {
      if t !in records {
        return None;
      }
      if records[t].expiresAt < now {
        records := records - {t};
        return None;
      }
      r := Some(records[t]);
    }
  }
}
