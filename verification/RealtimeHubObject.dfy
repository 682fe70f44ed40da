/**
 The hub object: its fields, its loops and the mutual recursion between `BroadcastToGroup` and
 `Unregister`. Every method is proved against the function of HubSpec that it runs, and every
 call, nested ones included, starts and ends in a consistent hub.
 */
module RealtimeHubObject {
  import opened HubSpec
  import opened HubProofs
  import HubRuns

  class RealtimeHub {
    // the users in the database and the outcomes of writes
    var env: Env
    // `clients` and `userDeviceConnections`
    var entries: seq<Entry>
    var devices: map<string, set<string>>
    // the `status` fields of the users
    var online: set<string>
    // what went out so far
    var announced: seq<Announcement>
    var log: seq<Delivery>
    var broadcasts: nat
    var writes: nat

    function State(): Hub
      reads this
    {
      Hub(entries, devices, online, announced, log, broadcasts, writes)
    }

    ghost predicate Valid()
      reads this
    {
      Inv(env, State())
    }

    constructor (env: Env)
      ensures Valid() && State() == Empty && this.env == env
    {
      this.env := env;
      entries, devices, online, announced, log, broadcasts, writes := [], map[], {}, [], [], 0, 0;
    }

    // `res.write` and flush; `threw` says whether the catch block of the caller runs.
    method WriteTo(tag: nat, connId: string, ev: Event) returns (threw: bool)
      requires Valid() && tag < broadcasts
      modifies `log, `writes
      ensures Valid()
      ensures (State(), threw) == Write(env, old(State()), tag, connId, ev)
    {
      WriteKeeps(env, State(), tag, connId, ev);
      var o := env.outcome(writes);
      if !o.Threw? {
        log := log + [Delivery(tag, connId, ev)];
      }
      writes := writes + 1;
      threw := !o.Sent?;
    }

    method SetStatus(userId: string, isOnline: bool)
      modifies `online, `announced
      ensures State() == Announce(old(State()), userId, isOnline)
    {
      if isOnline {
        online := online + {userId};
      } else {
        online := online - {userId};
      }
      announced := announced + [Announcement(userId, isOnline)];
    }

    method Unregister(id: string)
      requires Valid()
      modifies this
      ensures env == old(env)
      ensures Valid()
      ensures State() == HubSpec.Unregister(env, old(State()), id)
      decreases LiveCount(entries), 0
    {
      UnregisterKeeps(env, State(), id);
      var k := Find(entries, id);
      if k == |entries| {
        return;
      }
      var c := entries[k].client;
      LiveCountAfterHole(entries, k);
      RemovalIndexed(State(), k);
      entries := entries[k := Hole];
      var rest := devices[c.userId] - {id};
      if rest != {} {
        devices := devices[c.userId := rest];
      } else {
        devices := devices - {c.userId};
        if c.userId in env.known {
          AnnounceKeeps(env, State(), c.userId, false);
          SetStatus(c.userId, false);
          BroadcastTo(Group(TenantGroup(c.tenantId)), PresenceChanged(c.userId, false));
        }
      }
    }

    // The guarded write of the broadcast loop.
    method ServeClient(c: Client, ev: Event, tag: nat)
      requires Valid() && tag < broadcasts
      modifies this
      ensures env == old(env)
      ensures Valid() && tag < broadcasts
      ensures State() == Serve(env, old(State()), c, ev, tag)
      decreases LiveCount(entries), 1
    {
      ServeKeeps(env, State(), c, ev, tag);
      var threw := WriteTo(tag, c.id, ev);
      if threw {
        Unregister(c.id);
      }
    }

    // `broadcastToGroup`, and the keepalive loop when the audience is everyone.
    method BroadcastTo(audience: Audience, ev: Event)
      requires Valid()
      modifies this
      ensures env == old(env)
      ensures Valid()
      ensures State() == Broadcast(env, old(State()), audience, ev)
      decreases LiveCount(entries), 3
    {
      var tag := broadcasts;
      StartBroadcast();
      ghost var result := BroadcastFrom(env, State(), audience, ev, tag, 0);
      ghost var bound := LiveCount(entries);
      var i := 0;
      while i < |entries|
        invariant i <= |entries|
        invariant env == old(env) && Valid() && tag < broadcasts
        invariant LiveCount(entries) <= bound
        invariant result == BroadcastFrom(env, State(), audience, ev, tag, i)
        decreases |entries| - i
      {
        ServePosition(i, audience, ev, tag);
        i := i + 1;
      }
    }

    // The body of the loop: the entry at `i` is served when it is live and listens.
    method ServePosition(i: nat, audience: Audience, ev: Event, tag: nat)
      requires Valid() && tag < broadcasts && i < |entries|
      modifies this
      ensures env == old(env)
      ensures Valid() && tag < broadcasts
      ensures |entries| == |old(entries)| && LiveCount(entries) <= LiveCount(old(entries))
      ensures BroadcastFrom(env, old(State()), audience, ev, tag, i) == BroadcastFrom(env, State(), audience, ev, tag, i + 1)
      decreases LiveCount(entries), 2
    {
      if entries[i].Live? && Hears(audience, entries[i].client) {
        ServeClient(entries[i].client, ev, tag);
      }
    }

    method StartBroadcast()
      requires Valid()
      modifies `broadcasts
      ensures Valid()
      ensures State() == old(State()).(broadcasts := old(broadcasts) + 1)
    {
      broadcasts := broadcasts + 1;
    }

    method EnrollClient(id: string, tenantId: string, userId: string, accessible: set<string>)
      modifies `entries, `devices
      ensures State() == Enroll(old(State()), id, tenantId, userId, accessible)
    {
      var groups := {UserGroup(userId), TenantGroup(tenantId)} + accessible;
      entries := SetClient(entries, Client(id, tenantId, userId, groups));
      var before := if userId in devices then devices[userId] else {};
      devices := devices[userId := before + {id}];
    }

    method AdmitClient(id: string, tenantId: string, userId: string, accessible: set<string>)
      requires Valid() && Fresh(State(), id)
      modifies this
      ensures env == old(env)
      ensures Valid()
      ensures State() == Admit(env, old(State()), id, tenantId, userId, accessible)
    {
      RegisterKeeps(env, State(), id, tenantId, userId, accessible);
      EnrollIndexed(State(), id, tenantId, userId, accessible);
      var first := userId !in devices || devices[userId] == {};
      EnrollClient(id, tenantId, userId, accessible);
      if first && userId in env.known {
        AnnounceKeeps(env, State(), userId, true);
        SetStatus(userId, true);
        BroadcastTo(Group(TenantGroup(tenantId)), PresenceChanged(userId, true));
      }
    }

    method Register(id: string, tenantId: string, userId: string, accessible: set<string>)
      requires Valid() && Fresh(State(), id)
      modifies this
      ensures env == old(env)
      ensures Valid()
      ensures State() == HubSpec.Register(env, old(State()), id, tenantId, userId, accessible)
    {
      AdmitClient(id, tenantId, userId, accessible);
      StartBroadcast();
      var _ := WriteTo(broadcasts - 1, id, Connected(id));
    }

    // Another route adds a user. The hub stays consistent unless that user is connected already.
    method AddUser(userId: string)
      requires Valid()
      modifies `env
      ensures env == HubRuns.Knows(old(env), userId)
      ensures Valid() <==> userId in old(env).known || userId !in devices
    {
      HubRuns.AppearKeepsIff(env, State(), userId);
      env := HubRuns.Knows(env, userId);
    }

    // `joinGroup` and `leaveGroup`; the result says whether anybody matched.
    method RegroupClients(who: string, group: string, join: bool) returns (matched: bool)
      requires Valid()
      modifies `entries
      ensures Valid()
      ensures State() == old(State()).(entries := Regroup(old(entries), who, group, join))
      ensures matched <==> AnyMatch(old(entries), who, |old(entries)|)
    {
      RegroupKeeps(env, State(), who, group, join);
      matched := RegroupLoop(who, group, join);
    }

    static ghost predicate AnyMatch(table: seq<Entry>, who: string, n: nat)
      requires n <= |table|
    {
      exists i | 0 <= i < n && table[i].Live? :: Matches(table[i].client, who)
    }

    method RegroupLoop(who: string, group: string, join: bool) returns (matched: bool)
      modifies `entries
      ensures entries == Regroup(old(entries), who, group, join)
      ensures matched <==> AnyMatch(old(entries), who, |old(entries)|)
    {
      ghost var before := entries;
      matched := false;
      var i := 0;
      while i < |entries|
        invariant i <= |entries| == |before|
        invariant forall j | 0 <= j < i :: entries[j] == RegroupEntry(before[j], who, group, join)
        invariant forall j | i <= j < |entries| :: entries[j] == before[j]
        invariant matched <==> AnyMatch(before, who, i)
      {
        if entries[i].Live? && Matches(entries[i].client, who) {
          entries := entries[i := RegroupEntry(entries[i], who, group, join)];
          matched := true;
        }
        i := i + 1;
      }
    }
  }
}
