/**
 Whole runs of the hub: connections, disconnections, broadcasts, group changes and new users in any
 order, with every pattern of failing writes.
 */
module HubRuns {
  import opened HubSpec
  import opened HubProofs

  datatype Op =
    | OpRegister(id: string, tenantId: string, userId: string, accessible: set<string>)
    | OpUnregister(id: string)
    | OpBroadcast(audience: Audience, ev: Event)
    | OpRegroup(who: string, group: string, join: bool)
    | OpAppear(userId: string)                    // another route adds the user to the database

  function Step(env: Env, h: Hub, op: Op): Hub {
    match op
    case OpRegister(id, tenantId, userId, accessible) => Register(env, h, id, tenantId, userId, accessible)
    case OpUnregister(id) => Unregister(env, h, id)
    case OpBroadcast(audience, ev) => Broadcast(env, h, audience, ev)
    case OpRegroup(who, group, join) => h.(entries := Regroup(h.entries, who, group, join))
    case OpAppear(_) => h
  }

  function Knows(env: Env, userId: string): Env { env.(known := env.known + {userId}) }

  // The database and the hub after the first `n` operations; `start` holds the users there at first.
  function EnvAt(start: Env, ops: seq<Op>, n: nat): Env
    requires n <= |ops|
  {
    if n == 0 then start
    else if ops[n - 1].OpAppear? then Knows(EnvAt(start, ops, n - 1), ops[n - 1].userId)
    else EnvAt(start, ops, n - 1)
  }

  function At(start: Env, ops: seq<Op>, n: nat): Hub
    requires n <= |ops|
  {
    if n == 0 then Empty else Step(EnvAt(start, ops, n - 1), At(start, ops, n - 1), ops[n - 1])
  }

  // Connection ids are generated, so none is registered while it is in use.
  ghost predicate FreshIds(start: Env, ops: seq<Op>) {
    forall i: nat | i < |ops| :: FreshAt(start, ops, i)
  }

  ghost predicate FreshAt(start: Env, ops: seq<Op>, i: nat)
    requires i < |ops|
  {
    ops[i].OpRegister? ==> Fresh(At(start, ops, i), ops[i].id)
  }

  // The user that appears is there already or has no connection.
  predicate AppearsOffline(start: Env, ops: seq<Op>, i: nat)
    requires i < |ops|
  {
    ops[i].OpAppear? ==> ops[i].userId in EnvAt(start, ops, i).known || ops[i].userId !in At(start, ops, i).devices
  }

  ghost predicate ConsistentAt(start: Env, ops: seq<Op>, n: nat)
    requires n <= |ops|
  {
    Inv(EnvAt(start, ops, n), At(start, ops, n))
  }

  ghost predicate ConsistentUpTo(start: Env, ops: seq<Op>, n: nat)
    requires n <= |ops|
  {
    forall m: nat | m <= n :: ConsistentAt(start, ops, m)
  }

  predicate AppearOffline(start: Env, ops: seq<Op>, n: nat)
    requires n <= |ops|
  {
    forall i: nat | i < n :: AppearsOffline(start, ops, i)
  }

  lemma AppearKeepsIff(env: Env, h: Hub, userId: string)
    requires Inv(env, h)
    ensures Inv(Knows(env, userId), h) <==> userId in env.known || userId !in h.devices
  {
    if userId in env.known {
      assert Knows(env, userId).known == env.known;
    } else {
      NeverBefore(h.announced, userId);
    }
  }

  lemma StepKeeps(env: Env, h: Hub, op: Op)
    requires Inv(env, h) && (op.OpRegister? ==> Fresh(h, op.id))
    ensures Inv(env, Step(env, h, op))
  {
    match op {
      case OpRegister(id, tenantId, userId, accessible) => RegisterKeeps(env, h, id, tenantId, userId, accessible);
      case OpUnregister(id) => UnregisterKeeps(env, h, id);
      case OpBroadcast(audience, ev) => BroadcastKeeps(env, h, audience, ev);
      case OpRegroup(who, group, join) => RegroupKeeps(env, h, who, group, join);
      case OpAppear(_) =>
    }
  }

  lemma NextKeepsIff(start: Env, ops: seq<Op>, n: nat)
    requires FreshIds(start, ops) && n < |ops| && ConsistentAt(start, ops, n)
    ensures ConsistentAt(start, ops, n + 1) <==> AppearsOffline(start, ops, n)
  {
    var env, h := EnvAt(start, ops, n), At(start, ops, n);
    if ops[n].OpAppear? {
      AppearKeepsIff(env, h, ops[n].userId);
    } else {
      assert FreshAt(start, ops, n);
      StepKeeps(env, h, ops[n]);
    }
  }

  lemma ConsistentBefore(start: Env, ops: seq<Op>, n: nat)
    requires n < |ops|
    ensures ConsistentUpTo(start, ops, n + 1) ==> ConsistentUpTo(start, ops, n)
  {
  }

  lemma ConsistentNext(start: Env, ops: seq<Op>, n: nat)
    requires FreshIds(start, ops) && n < |ops| && ConsistentUpTo(start, ops, n)
    ensures ConsistentUpTo(start, ops, n + 1) <==> AppearsOffline(start, ops, n)
  {
    ConsistentNow(start, ops, n);
    ConsistentMore(start, ops, n);
    NextKeepsIff(start, ops, n);
  }

  lemma ConsistentNow(start: Env, ops: seq<Op>, n: nat)
    requires n <= |ops| && ConsistentUpTo(start, ops, n)
    ensures ConsistentAt(start, ops, n)
  {
  }

  lemma ConsistentMore(start: Env, ops: seq<Op>, n: nat)
    requires n < |ops| && ConsistentUpTo(start, ops, n)
    ensures ConsistentUpTo(start, ops, n + 1) <==> ConsistentAt(start, ops, n + 1)
  {
  }

  lemma AppearMore(start: Env, ops: seq<Op>, n: nat)
    requires n < |ops|
    ensures AppearOffline(start, ops, n + 1) <==> AppearOffline(start, ops, n) && AppearsOffline(start, ops, n)
  {
  }

  // The hub is consistent all along exactly if no user appears in the database while a connection
  // is registered under its id.
  lemma {:induction false} ConsistentIff(start: Env, ops: seq<Op>, n: nat)
    requires FreshIds(start, ops) && n <= |ops|
    ensures ConsistentUpTo(start, ops, n) <==> AppearOffline(start, ops, n)
  {
    if n == 0 {
      assert ConsistentAt(start, ops, 0);
    } else {
      ConsistentIff(start, ops, n - 1);
      var m: nat := n - 1;
      AppearMore(start, ops, m);
      if ConsistentUpTo(start, ops, m) {
        ConsistentNext(start, ops, m);
      } else {
        ConsistentBefore(start, ops, m);
      }
    }
  }

  // Presence announcements of one user go Online, Offline, Online, ...
  ghost predicate Flips(announced: seq<Announcement>) {
    && (forall i, j | 0 <= i < j < |announced| && Successive(announced, i, j) :: announced[j].online == !announced[i].online)
    && (forall j | 0 <= j < |announced| && FirstOf(announced, j) :: announced[j].online)
  }

  predicate Successive(announced: seq<Announcement>, i: nat, j: nat)
    requires i < j < |announced|
  {
    announced[i].userId == announced[j].userId && forall k | i < k < j :: announced[k].userId != announced[i].userId
  }

  predicate FirstOf(announced: seq<Announcement>, j: nat)
    requires j < |announced|
  {
    forall k | 0 <= k < j :: announced[k].userId != announced[j].userId
  }

  lemma AlternatingFlips(announced: seq<Announcement>)
    requires Alternating(announced)
    ensures Flips(announced)
  {
    forall i, j | 0 <= i < j < |announced| && Successive(announced, i, j) ensures announced[j].online == !announced[i].online {
      assert FlipsAt(announced, j);
      LastBefore(announced[..j], i);
    }
    forall j | 0 <= j < |announced| && FirstOf(announced, j) ensures announced[j].online {
      assert FlipsAt(announced, j);
      NeverBefore(announced[..j], announced[j].userId);
    }
  }

  lemma IndexedIsConnected(h: Hub, u: string)
    requires Indexed(h)
    ensures u in h.devices <==> DeviceIds(h.entries, u) != {}
  {
    if DeviceIds(h.entries, u) != {} {
      var id :| id in DeviceIds(h.entries, u);
    }
  }

  // Over every such run, failures included: the device index is the table grouped by user, a user in
  // the database is online exactly while some connection is registered, the presence announced last
  // says the same, and the announcements of each user alternate.
  lemma PresenceAlternates(start: Env, ops: seq<Op>)
    requires FreshIds(start, ops) && AppearOffline(start, ops, |ops|)
    ensures var h := At(start, ops, |ops|);
      && (forall u | u in h.devices :: h.devices[u] != {} && h.devices[u] == DeviceIds(h.entries, u))
      && (forall u | u in EnvAt(start, ops, |ops|).known ::
            (u in h.online <==> DeviceIds(h.entries, u) != {}) && (u in h.online <==> LastAnnounced(h.announced, u)))
      && Flips(h.announced)
  {
    ConsistentIff(start, ops, |ops|);
    assert ConsistentAt(start, ops, |ops|);
    var h := At(start, ops, |ops|);
    AlternatingFlips(h.announced);
    forall u ensures u in h.devices <==> DeviceIds(h.entries, u) != {} { IndexedIsConnected(h, u); }
  }

  lemma {:induction false} LastBefore(announced: seq<Announcement>, i: nat)
    requires i < |announced|
    requires forall k | i < k < |announced| :: announced[k].userId != announced[i].userId
    ensures LastAnnounced(announced, announced[i].userId) == announced[i].online
  {
    if i < |announced| - 1 {
      LastBefore(announced[..|announced| - 1], i);
    }
  }

  lemma {:induction false} NeverBefore(announced: seq<Announcement>, u: string)
    requires forall k | 0 <= k < |announced| :: announced[k].userId != u
    ensures !LastAnnounced(announced, u)
  {
    if announced != [] {
      NeverBefore(announced[..|announced| - 1], u);
    }
  }
}
