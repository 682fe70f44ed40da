/**
 The presence broadcasts that unregistrations start inside other broadcasts, and when anybody hears
 one of them: the write outcomes decide, and only those of the writes that the cascade makes while
 every write throws.
 */
module HubFarewell {
  import opened Wrappers
  import opened HubSpec
  import opened HubProofs

  // A presence broadcast about to start: the hub, and the client whose user has gone offline.
  datatype Farewell = Farewell(hub: Hub, client: Client)

  function Say(env: Env, f: Farewell): Hub {
    Broadcast(env, f.hub, Group(TenantGroup(f.client.tenantId)), PresenceChanged(f.client.userId, false))
  }

  // What unregistering `id` broadcasts: nothing, unless it is the last connection of a known user.
  function FarewellOf(env: Env, h: Hub, id: string): (f: Option<Farewell>)
    ensures f.Some? ==> LiveCount(f.value.hub.entries) < LiveCount(h.entries)
    ensures f.Some? ==> f.value.hub.log == h.log && f.value.hub.broadcasts == h.broadcasts && f.value.hub.writes == h.writes
    ensures f.Some? ==> Unregister(env, h, id) == Say(env, f.value)
    ensures f.None? ==> var r := Unregister(env, h, id); r.log == h.log && r.broadcasts == h.broadcasts && r.writes == h.writes
  {
    var k := Find(h.entries, id);
    if k == |h.entries| then None
    else
      LiveCountAfterHole(h.entries, k);
      var c := h.entries[k].client;
      if c.userId in h.devices && h.devices[c.userId] - {id} == {} && c.userId in env.known then
        var gone := h.(entries := h.entries[k := Hole], devices := h.devices - {c.userId});
        Some(Farewell(Announce(gone, c.userId, false), c))
      else None
  }

  // The same users, and no write gets through.
  function Deaf(env: Env): Env { env.(outcome := (n: nat) => Threw) }

  predicate GetsThrough(env: Env, from: nat, to: nat) {
    exists n: nat | from <= n < to :: !env.outcome(n).Threw?
  }

  // Some write gets through among those that the farewell and its cascades make if all of them throw:
  // one each for the clients that would be dropped one after the other.
  predicate Heard(env: Env, f: Farewell) { GetsThrough(env, f.hub.writes, Say(Deaf(env), f).writes) }

  // ---------- the writes decide ----------

  // `r` is how it goes from `h` on, and `s` how it would go if every write threw.
  ghost predicate Told(env: Env, h: Hub, r: Hub, s: Hub) {
    && h.writes <= s.writes && s.log == h.log && h.broadcasts <= s.broadcasts
    && (if GetsThrough(env, h.writes, s.writes) then |r.log| > |h.log| else r == s)
  }

  lemma ThroughSplits(env: Env, a: nat, b: nat, c: nat)
    requires a <= b <= c
    ensures GetsThrough(env, a, c) <==> GetsThrough(env, a, b) || GetsThrough(env, b, c)
  {
    if GetsThrough(env, a, c) {
      var n: nat :| a <= n < c && !env.outcome(n).Threw?;
      assert if n < b then GetsThrough(env, a, b) else GetsThrough(env, b, c);
    }
  }

  // First from `h` to `v`, which would be `u`, and from there to `r`, which would be `s`.
  lemma ToldThen(env: Env, h: Hub, v: Hub, u: Hub, r: Hub, s: Hub)
    requires Told(env, h, v, u) && |v.log| <= |r.log|
    requires v == u ==> Told(env, u, r, s)
    requires u.writes <= s.writes && s.log == u.log && u.broadcasts <= s.broadcasts
    ensures Told(env, h, r, s)
  {
    ThroughSplits(env, h.writes, u.writes, s.writes);
    if v != u {
      assert GetsThrough(env, h.writes, u.writes);
    }
  }

  lemma WriteTold(env: Env, h: Hub, tag: nat, id: string, ev: Event)
    ensures Told(env, h, Write(env, h, tag, id, ev).0, Write(Deaf(env), h, tag, id, ev).0)
  {
    assert GetsThrough(env, h.writes, h.writes + 1) <==> !env.outcome(h.writes).Threw?;
  }

  lemma {:induction false} UnregisterTold(env: Env, h: Hub, id: string)
    ensures Told(env, h, Unregister(env, h, id), Unregister(Deaf(env), h, id))
    decreases LiveCount(h.entries), 0
  {
    var f := FarewellOf(env, h, id);
    assert FarewellOf(Deaf(env), h, id) == f;
    if f.Some? {
      BroadcastTold(env, f.value.hub, Group(TenantGroup(f.value.client.tenantId)), PresenceChanged(f.value.client.userId, false));
    } else {
      SameWithout(env, h, id);
    }
  }

  // Without a broadcast nothing depends on the writes.
  lemma SameWithout(env: Env, h: Hub, id: string)
    requires FarewellOf(env, h, id).None?
    ensures Told(env, h, Unregister(env, h, id), Unregister(Deaf(env), h, id))
  {
    assert !GetsThrough(env, h.writes, h.writes);
  }

  lemma {:induction false} BroadcastTold(env: Env, h: Hub, audience: Audience, ev: Event)
    ensures Told(env, h, Broadcast(env, h, audience, ev), Broadcast(Deaf(env), h, audience, ev))
    decreases LiveCount(h.entries), |h.entries| + 2
  {
    BroadcastFromTold(env, h.(broadcasts := h.broadcasts + 1), audience, ev, h.broadcasts, 0);
  }

  lemma {:induction false} ServeTold(env: Env, h: Hub, c: Client, ev: Event, tag: nat)
    requires tag < h.broadcasts
    ensures Told(env, h, Serve(env, h, c, ev, tag), Serve(Deaf(env), h, c, ev, tag))
    decreases LiveCount(h.entries), 1
  {
    var (w, threw) := Write(env, h, tag, c.id, ev);
    var d := Write(Deaf(env), h, tag, c.id, ev).0;
    WriteTold(env, h, tag, c.id, ev);
    UnregisterTold(env, d, c.id);
    if threw { UnregisterCascades(env, w, c.id, tag); }
    ToldThen(env, h, w, d, Serve(env, h, c, ev, tag), Unregister(Deaf(env), d, c.id));
  }

  lemma {:induction false} BroadcastFromTold(env: Env, h: Hub, audience: Audience, ev: Event, tag: nat, i: nat)
    requires i <= |h.entries| && tag < h.broadcasts
    ensures Told(env, h, BroadcastFrom(env, h, audience, ev, tag, i), BroadcastFrom(Deaf(env), h, audience, ev, tag, i))
    decreases LiveCount(h.entries), |h.entries| - i + 1
  {
    if i == |h.entries| {
      assert !GetsThrough(env, h.writes, h.writes);
    } else if h.entries[i].Hole? || !Hears(audience, h.entries[i].client) {
      BroadcastFromTold(env, h, audience, ev, tag, i + 1);
    } else {
      var c := h.entries[i].client;
      var v, u := Serve(env, h, c, ev, tag), Serve(Deaf(env), h, c, ev, tag);
      ServeTold(env, h, c, ev, tag);
      BroadcastFromTold(env, u, audience, ev, tag, i + 1);
      ServeCascades(env, h, c, ev, tag);
      BroadcastFromCascades(env, v, audience, ev, tag, i + 1);
      ToldThen(env, h, v, u, BroadcastFrom(env, v, audience, ev, tag, i + 1), BroadcastFrom(Deaf(env), u, audience, ev, tag, i + 1));
    }
  }

  // Somebody hears the farewell, or a farewell nested in it, exactly if one of those writes gets through.
  lemma HeardIff(env: Env, f: Farewell)
    ensures Heard(env, f) <==> |Say(env, f).log| > |f.hub.log|
  {
    BroadcastTold(env, f.hub, Group(TenantGroup(f.client.tenantId)), PresenceChanged(f.client.userId, false));
  }
}
